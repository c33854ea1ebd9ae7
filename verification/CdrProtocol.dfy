/**
 Uploads, CDR requests and stale-scan recovery as one interleaved transition system over the
 scan, artifact and audit tables and the two file areas. Each database transaction, file
 commit and unlink is one atomic step; any request may fail, or crash, between any two steps
 (app/cdr/service.py, app/orchestrator/scan_service.py, app/operations/reconciliation.py).
 */
module CdrProtocol {
  import opened Wrappers
  import opened PolicyEngine
  import opened ShippedPolicy
  import opened ScanRecords

  type ArtifactId = nat
  type RequestId = nat
  type Sanitizer = nat

  /**
   What every process runs with: SHA-256, the row an analysis outcome produces, and the CDR
   limits.
   */
  datatype Config = Config(
    hash: Bytes -> Digest, finish: (ScanRow, Outcome) -> ScanRow, maxOutput: nat, maxPages: int)
  {
    function Hash(b: Bytes): Digest { hash(b) }
    function Finished(row: ScanRow, outcome: Outcome): ScanRow { finish(row, outcome) }
  }

  /** The deployed configuration: no digest collisions, and the row writer of the scan service. */
  ghost predicate Deployed(cfg: Config) {
    CollisionFree(cfg) && forall row, outcome :: cfg.Finished(row, outcome) == FinishedRow(row, outcome)
  }

  ghost predicate CollisionFree(cfg: Config) {
    forall a, b :: cfg.Hash(a) == cfg.Hash(b) ==> a == b
  }

  datatype ArtifactRow = ArtifactRow(
    scan: ScanId, derived: ScanId, storageKey: StorageKey, sha256: Digest, size: nat,
    sanitizer: Sanitizer, policyVersion: string, policyFingerprint: string)

  /** A rendered candidate for one source scan and sanitizer configuration. */
  datatype Job = Job(source: ScanId, sanitizer: Sanitizer, sha256: Digest, size: nat)

  /** Where a request stands between two atomic steps. */
  datatype Request =
    | Uploaded(key: StorageKey, sha256: Digest, size: nat)
    | UploadRegistered(scan: ScanId)
    | UploadAnalyzing(scan: ScanId)
    | CdrRequested(source: ScanId, sanitizer: Sanitizer)
    | CdrAccepted(source: ScanId, sanitizer: Sanitizer)
    | CdrRendering(source: ScanId, sanitizer: Sanitizer)
    | CdrRendered(job: Job)
    | CdrStored(job: Job, key: StorageKey)
    | CdrRegistered(job: Job, scan: ScanId)
    | CdrAnalyzing(job: Job, scan: ScanId)
    | CdrAnalyzed(job: Job, scan: ScanId)
    | CdrApprovable(job: Job, scan: ScanId, row: ScanRow)
    | CdrPromoted(job: Job, scan: ScanId, row: ScanRow, key: StorageKey)
    | CdrConflict(source: ScanId, sanitizer: Sanitizer)

  /** An approved answer to a caller: this artifact for this source and sanitizer. */
  datatype Approval = Approval(source: ScanId, sanitizer: Sanitizer, artifact: ArtifactId)

  /**
   `approved` lists the CDR_APPROVED audit rows and `recoveries` the recovery ones; `keys`
   holds every storage key ever drawn, `answers` every approved answer given, `damaged` the
   sanitized files altered from outside, and `orderly` turns false at a crash or failed unlink
   that strands a sanitized file.
   */
  datatype System = System(
    scans: map<ScanId, ScanRow>,
    artifacts: map<ArtifactId, ArtifactRow>,
    approved: seq<ArtifactId>,
    recoveries: set<ScanId>,
    quarantine: map<StorageKey, Bytes>,
    sanitized: map<StorageKey, Bytes>,
    keys: set<StorageKey>,
    requests: map<RequestId, Request>,
    answers: set<Approval>,
    damaged: set<StorageKey>,
    orderly: bool)

  const START := System(map[], map[], [], {}, map[], map[], {}, map[], {}, {}, true)

  datatype Step =
    | Upload(r: RequestId, key: StorageKey, bytes: Bytes)
    | Register(r: RequestId, scan: ScanId)
    | Begin(r: RequestId)
    | Finish(r: RequestId, outcome: Outcome)
    | Recover(scan: ScanId)
    | RequestCdr(r: RequestId, source: ScanId, sanitizer: Sanitizer)
    | CheckEligibility(r: RequestId, pageCount: Option<int>, intact: bool)
    | FindExisting(r: RequestId, found: Option<ArtifactId>)
    | Render(r: RequestId, output: Bytes)
    | StoreDerived(r: RequestId, key: StorageKey, copied: Bytes)
    | ReadDerived(r: RequestId)
    | Promote(r: RequestId, key: StorageKey, copied: Bytes)
    | StrandCopy(r: RequestId, key: StorageKey, copied: Bytes)
    | Approve(r: RequestId, artifact: ArtifactId, unlinked: bool)
    | Fail(r: RequestId, unlinked: bool)
    | Crash(r: RequestId)
    | Damage(key: StorageKey, bytes: Bytes)

  // ---------------------------------------------------------------- decisions taken from rows

  datatype EligibilityReason =
    | ScanNotFound | NotPdf | AnalysisNotSuccessful | AnalysisIncomplete | PdfNotRenderable
    | DecisionNotRemediable | SourceBlocked | PageCountOutOfRange | SourceIntegrityFailed

  function If(condition: bool, reason: EligibilityReason): set<EligibilityReason> {
    if condition then {reason} else {}
  }

  /** Why a scan is not eligible for CDR; empty when it is. */
  function EligibilityReasons(
    row: Option<ScanRow>, pageCount: Option<int>, maxPages: int, intact: bool): set<EligibilityReason>
  {
    match row
    case None => {ScanNotFound}
    case Some(scan) =>
      var e := PersistedJson(scan);
      If(scan.detectedType != Some("PDF"), NotPdf)
      + If(scan.workerStatus != Reported(SUCCESS) || (scan.state != COMPLETED && scan.state != QUARANTINED),
           AnalysisNotSuccessful)
      + If(e == None || !e.value.complete, AnalysisIncomplete)
      + If(PDF_PARTIAL_ANALYSIS in scan.findings || PDF_MALFORMED in scan.findings || PDF_ENCRYPTED in scan.findings,
           PdfNotRenderable)
      + If(scan.decision != REVIEW && scan.decision != QUARANTINE, DecisionNotRemediable)
      + If(scan.decision == BLOCK || (e.Some? && e.value.hardBlocks != []), SourceBlocked)
      + If(pageCount == None || !(1 <= pageCount.value <= maxPages), PageCountOutOfRange)
      + If(!intact, SourceIntegrityFailed)
  }

  /** The stored evaluation, when it still validates. */
  function PersistedJson(row: ScanRow): Option<Evaluation<Code>> {
    match row.evaluation
    case None => None
    case Some(e) => if ValidEvaluation(SHIPPED, e) then Some(e) else None
  }

  /** Whether the re-analysis of a candidate permits its approval. */
  predicate DerivedIsApprovable(row: ScanRow, job: Job) {
    var e := PersistedJson(row);
    && row.origin == CDR_DERIVED && row.parent == Some(job.source) && row.sha256 == job.sha256
    && row.detectedType == Some("PDF") && row.workerStatus == Reported(SUCCESS)
    && row.state == COMPLETED && row.decision == ALLOW && row.releaseEligible
    && e.Some? && e.value.complete && e.value.hardBlocks == [] && e.value.mandatory == []
    && !(exists code | code in row.findings :: IncompleteName(code))
  }

  /** Download-time authorization of an artifact against its source and derived scans. */
  predicate ValidLineage(artifact: ArtifactRow, source: ScanId, derived: ScanId, row: ScanRow) {
    && artifact.scan == source && artifact.derived == derived
    && row.origin == CDR_DERIVED && row.parent == Some(source)
    && row.detectedType == Some("PDF") && row.workerStatus == Reported(SUCCESS)
    && row.state == COMPLETED && row.decision == ALLOW && row.releaseEligible
    && artifact.sha256 == row.sha256 && artifact.size == row.size
    && Some(artifact.policyVersion) == row.policyVersion
    && Some(artifact.policyFingerprint) == row.policyFingerprint
    && row.evaluation.Some? && row.evaluation.value.decision == ALLOW && row.evaluation.value.release
    && row.evaluation.value.version == artifact.policyVersion
    && row.evaluation.value.fingerprint == artifact.policyFingerprint
  }

  /** `verify_private_document` on a finalized file. */
  predicate Intact(cfg: Config, area: map<StorageKey, Bytes>, key: StorageKey, sha256: Digest, size: nat) {
    key in area && cfg.Hash(area[key]) == sha256 && |area[key]| == size && size <= cfg.maxOutput
  }

  predicate SamePair(a: ArtifactRow, source: ScanId, sanitizer: Sanitizer) {
    a.scan == source && a.sanitizer == sanitizer
  }

  /** The lookup by source and sanitizer returned `found`. */
  ghost predicate Finds(s: System, source: ScanId, sanitizer: Sanitizer, found: Option<ArtifactId>) {
    match found
    case Some(a) => a in s.artifacts && SamePair(s.artifacts[a], source, sanitizer)
    case None => forall a :: a in s.artifacts ==> !SamePair(s.artifacts[a], source, sanitizer)
  }

  // ---------------------------------------------------------------- steps

  function At(s: System, r: RequestId, request: Request): System {
    s.(requests := s.requests[r := request])
  }

  function End(s: System, r: RequestId): System {
    s.(requests := s.requests - {r})
  }

  function Draw(s: System, key: StorageKey): System {
    s.(keys := s.keys + {key})
  }

  function Answer(s: System, r: RequestId, source: ScanId, sanitizer: Sanitizer, artifact: ArtifactId): System {
    End(s.(answers := s.answers + {Approval(source, sanitizer, artifact)}), r)
  }

  /** Unlink a sanitized file; a failed unlink strands it. */
  function Discard(s: System, key: StorageKey, unlinked: bool): System {
    if unlinked then s.(sanitized := s.sanitized - {key}) else s.(orderly := false)
  }

  function RegisterStep(s: System, r: RequestId, id: ScanId): System
    requires r in s.requests && id !in s.scans
  {
    match s.requests[r]
    case Uploaded(key, sha256, size) =>
      At(s.(scans := s.scans[id := RegisteredRow(UPLOAD, None, key, sha256, size)]), r, UploadRegistered(id))
    case CdrStored(job, key) =>
      At(s.(scans := s.scans[id := RegisteredRow(CDR_DERIVED, Some(job.source), key, job.sha256, job.size)]),
         r, CdrRegistered(job, id))
    case _ => s
  }

  function BeginStep(s: System, r: RequestId): System
    requires r in s.requests
  {
    match s.requests[r]
    case UploadRegistered(id) =>
      if id !in s.scans then s else At(s.(scans := s.scans[id := AnalyzingRow(s.scans[id])]), r, UploadAnalyzing(id))
    case CdrRegistered(job, id) =>
      if id !in s.scans then s else At(s.(scans := s.scans[id := AnalyzingRow(s.scans[id])]), r, CdrAnalyzing(job, id))
    case _ => s
  }

  function FinishStep(cfg: Config, s: System, r: RequestId, outcome: Outcome): System
    requires r in s.requests
  {
    match s.requests[r]
    case UploadAnalyzing(id) =>
      if id !in s.scans then s else End(s.(scans := s.scans[id := cfg.Finished(s.scans[id], outcome)]), r)
    case CdrAnalyzing(job, id) =>
      if id !in s.scans then s
      else At(s.(scans := s.scans[id := cfg.Finished(s.scans[id], outcome)]), r, CdrAnalyzed(job, id))
    case _ => s
  }

  function RecoverStep(s: System, id: ScanId): System {
    if id in s.scans && s.scans[id].state == ANALYZING then
      s.(scans := s.scans[id := RecoveredRow(s.scans[id])], recoveries := s.recoveries + {id})
    else s
  }

  function CheckEligibilityStep(
    cfg: Config, s: System, r: RequestId, pageCount: Option<int>, intact: bool): System
    requires r in s.requests
  {
    match s.requests[r]
    case CdrRequested(source, sanitizer) =>
      var row := if source in s.scans then Some(s.scans[source]) else None;
      if EligibilityReasons(row, pageCount, cfg.maxPages, intact) == {} then At(s, r, CdrAccepted(source, sanitizer))
      else End(s, r)
    case _ => s
  }

  /** Look for a reusable artifact, before rendering or after losing the insertion race. */
  ghost function FindExistingStep(cfg: Config, s: System, r: RequestId, found: Option<ArtifactId>): System
    requires r in s.requests
  {
    match s.requests[r]
    case CdrAccepted(source, sanitizer) =>
      if !Finds(s, source, sanitizer, found) then s
      else if found.Some? && Reusable(cfg, s, found.value) then Answer(s, r, source, sanitizer, found.value)
      else At(s, r, CdrRendering(source, sanitizer))
    case CdrConflict(source, sanitizer) =>
      if !Finds(s, source, sanitizer, found) then s
      else if found.Some? && Reusable(cfg, s, found.value) then Answer(s, r, source, sanitizer, found.value)
      else End(s, r)
    case _ => s
  }

  predicate Reusable(cfg: Config, s: System, a: ArtifactId) {
    a in s.artifacts
    && Intact(cfg, s.sanitized, s.artifacts[a].storageKey, s.artifacts[a].sha256, s.artifacts[a].size)
  }

  function RenderStep(cfg: Config, s: System, r: RequestId, output: Bytes): System
    requires r in s.requests
  {
    match s.requests[r]
    case CdrRendering(source, sanitizer) =>
      if 0 < |output| <= cfg.maxOutput
      then At(s, r, CdrRendered(Job(source, sanitizer, cfg.Hash(output), |output|)))
      else End(s, r)
    case _ => s
  }

  /** Copy the candidate into quarantine; the copy is kept only if its digest is the expected one. */
  function StoreDerivedStep(cfg: Config, s: System, r: RequestId, key: StorageKey, copied: Bytes): System
    requires r in s.requests
  {
    match s.requests[r]
    case CdrRendered(job) =>
      if cfg.Hash(copied) == job.sha256 && 0 < |copied| <= cfg.maxOutput
      then At(Draw(s.(quarantine := s.quarantine[key := copied]), key), r, CdrStored(job, key))
      else End(s, r)
    case _ => s
  }

  function ReadDerivedStep(s: System, r: RequestId): System
    requires r in s.requests
  {
    match s.requests[r]
    case CdrAnalyzed(job, id) =>
      if id in s.scans && DerivedIsApprovable(s.scans[id], job) then At(s, r, CdrApprovable(job, id, s.scans[id]))
      else End(s, r)
    case _ => s
  }

  /** Copy the derived document into the sanitized area, keeping it only if it is the candidate. */
  function PromoteStep(cfg: Config, s: System, r: RequestId, key: StorageKey, copied: Bytes): System
    requires r in s.requests
  {
    match s.requests[r]
    case CdrApprovable(job, id, row) =>
      if cfg.Hash(copied) != job.sha256 || |copied| == 0 || |copied| > cfg.maxOutput then End(s, r)
      else
        var stored := Draw(s.(sanitized := s.sanitized[key := copied]), key);
        if cfg.Hash(copied) != row.sha256 || |copied| != job.size then End(Discard(stored, key, true), r)
        else At(stored, r, CdrPromoted(job, id, row, key))
    case _ => s
  }

  function ArtifactOf(job: Job, id: ScanId, row: ScanRow, key: StorageKey): ArtifactRow {
    ArtifactRow(
      job.source, id, key, job.sha256, job.size, job.sanitizer,
      if row.policyVersion.Some? then row.policyVersion.value else "",
      if row.policyFingerprint.Some? then row.policyFingerprint.value else "")
  }

  /** Insert the artifact and its audit row, unless the pair already has one. */
  ghost function ApproveStep(s: System, r: RequestId, artifact: ArtifactId, unlinked: bool): System
    requires r in s.requests && artifact !in s.artifacts
  {
    match s.requests[r]
    case CdrPromoted(job, id, row, key) =>
      if Finds(s, job.source, job.sanitizer, None) then
        Answer(s.(artifacts := s.artifacts[artifact := ArtifactOf(job, id, row, key)],
                  approved := s.approved + [artifact]),
               r, job.source, job.sanitizer, artifact)
      else if unlinked then At(Discard(s, key, true), r, CdrConflict(job.source, job.sanitizer))
      else End(Discard(s, key, false), r)
    case _ => s
  }

  /** A request ends in failure and removes the file it is responsible for. */
  function FailStep(s: System, r: RequestId, unlinked: bool): System
    requires r in s.requests
  {
    match s.requests[r]
    case Uploaded(key, _, _) => End(Withdraw(s, Some(key), unlinked), r)
    case CdrStored(_, key) => End(Withdraw(s, Some(key), unlinked), r)
    case CdrRegistered(_, id) => End(Withdraw(s, KeyOf(s, id), unlinked), r)
    case CdrAnalyzing(_, id) => End(Withdraw(s, KeyOf(s, id), unlinked), r)
    case CdrAnalyzed(_, id) => End(Withdraw(s, KeyOf(s, id), unlinked), r)
    case CdrPromoted(_, _, _, key) => End(Discard(s, key, unlinked), r)
    case _ => End(s, r)
  }

  function KeyOf(s: System, id: ScanId): Option<StorageKey> {
    if id in s.scans then Some(s.scans[id].storageKey) else None
  }

  /** Unlink a quarantined file, unless that fails. */
  function Withdraw(s: System, key: Option<StorageKey>, unlinked: bool): System {
    s.(quarantine := if unlinked && key.Some? then s.quarantine - {key.value} else s.quarantine)
  }

  function CrashStep(s: System, r: RequestId): System
    requires r in s.requests
  {
    End(if s.requests[r].CdrPromoted? then s.(orderly := false) else s, r)
  }

  /** One atomic step; a step that is not enabled changes nothing. */
  ghost function Apply(cfg: Config, s: System, step: Step): System {
    match step
    case Upload(r, key, bytes) =>
      if r in s.requests || key in s.keys || bytes == [] then s
      else At(Draw(s.(quarantine := s.quarantine[key := bytes]), key), r, Uploaded(key, cfg.Hash(bytes), |bytes|))
    case Register(r, id) => if r in s.requests && id !in s.scans then RegisterStep(s, r, id) else s
    case Begin(r) => if r in s.requests then BeginStep(s, r) else s
    case Finish(r, outcome) => if r in s.requests then FinishStep(cfg, s, r, outcome) else s
    case Recover(id) => RecoverStep(s, id)
    case RequestCdr(r, source, sanitizer) =>
      if r in s.requests then s else At(s, r, CdrRequested(source, sanitizer))
    case CheckEligibility(r, pageCount, intact) =>
      if r in s.requests then CheckEligibilityStep(cfg, s, r, pageCount, intact) else s
    case FindExisting(r, found) => if r in s.requests then FindExistingStep(cfg, s, r, found) else s
    case Render(r, output) => if r in s.requests then RenderStep(cfg, s, r, output) else s
    case StoreDerived(r, key, copied) =>
      if r in s.requests && key !in s.keys then StoreDerivedStep(cfg, s, r, key, copied) else s
    case ReadDerived(r) => if r in s.requests then ReadDerivedStep(s, r) else s
    case Promote(r, key, copied) =>
      if r in s.requests && key !in s.keys then PromoteStep(cfg, s, r, key, copied) else s
    case StrandCopy(r, key, copied) =>
      // a copy that fails after its rename, with a cleanup that fails too: an unlink, or the source's close
      if r in s.requests && s.requests[r].CdrApprovable? && key !in s.keys then
        End(Draw(s.(sanitized := s.sanitized[key := copied], orderly := false), key), r)
      else s
    case Approve(r, artifact, unlinked) =>
      if r in s.requests && artifact !in s.artifacts then ApproveStep(s, r, artifact, unlinked) else s
    case Fail(r, unlinked) => if r in s.requests then FailStep(s, r, unlinked) else s
    case Crash(r) => if r in s.requests then CrashStep(s, r) else s
    case Damage(key, bytes) =>
      if key in s.sanitized then s.(sanitized := s.sanitized[key := bytes], damaged := s.damaged + {key}) else s
  }

  /** Any run: the steps in order, from the empty system. */
  ghost function Run(cfg: Config, steps: seq<Step>): System {
    if steps == [] then START
    else Apply(cfg, Run(cfg, steps[..|steps| - 1]), steps[|steps| - 1])
  }
}
