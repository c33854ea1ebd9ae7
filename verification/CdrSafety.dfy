/**
 What holds in every reachable state of the gateway, over every interleaving of uploads, CDR
 requests, recovery, failures and crashes.
 */
module CdrSafety {
  import opened Wrappers
  import opened PolicyEngine
  import opened ShippedPolicy
  import opened ScanRecords
  import opened CdrProtocol

  // ---------------------------------------------------------------- invariant

  /** The scan a request has registered but whose outcome it has not recorded yet. */
  function Pending(request: Request): Option<ScanId> {
    match request
    case UploadRegistered(id) => Some(id)
    case UploadAnalyzing(id) => Some(id)
    case CdrRegistered(_, id) => Some(id)
    case CdrAnalyzing(_, id) => Some(id)
    case _ => None
  }

  function HeldKey(request: Request): Option<StorageKey> {
    match request
    case CdrPromoted(_, _, _, key) => Some(key)
    case _ => None
  }

  ghost predicate JobValid(cfg: Config, job: Job) {
    exists b :: cfg.Hash(b) == job.sha256 && |b| == job.size && 0 < |b| <= cfg.maxOutput
  }

  predicate DerivedFits(row: ScanRow, job: Job) {
    row.origin == CDR_DERIVED && row.parent == Some(job.source) && row.sha256 == job.sha256 && row.size == job.size
  }

  predicate NotBegun(scans: map<ScanId, ScanRow>, id: ScanId) {
    id in scans && Unjudged(scans[id]) && scans[id].state == STORED
  }

  predicate InAnalysis(scans: map<ScanId, ScanRow>, id: ScanId) {
    id in scans && Unjudged(scans[id]) && scans[id].state != STORED
  }

  /**
   The final row of a PDF that was analyzed completely and regularly, that policy neither
   released nor blocked, and that can be rendered.
   */
  predicate Remediable(row: ScanRow) {
    && row.detectedType == Some("PDF") && row.workerStatus == Reported(SUCCESS)
    && (row.state == COMPLETED || row.state == QUARANTINED)
    && (row.decision == REVIEW || row.decision == QUARANTINE)
    && row.evaluation.Some? && row.evaluation.value.complete && row.evaluation.value.hardBlocks == []
    && PDF_PARTIAL_ANALYSIS !in row.findings && PDF_MALFORMED !in row.findings && PDF_ENCRYPTED !in row.findings
  }

  predicate SourceFit(scans: map<ScanId, ScanRow>, source: ScanId) {
    source in scans && Judged(scans[source]) && Remediable(scans[source])
  }

  /** What a request's position says about the rows it refers to. */
  ghost predicate RequestValid(cfg: Config, scans: map<ScanId, ScanRow>, request: Request) {
    match request
    case Uploaded(_, _, _) => true
    case UploadRegistered(id) => NotBegun(scans, id)
    case UploadAnalyzing(id) => InAnalysis(scans, id)
    case CdrRequested(_, _) => true
    case CdrAccepted(source, _) => SourceFit(scans, source)
    case CdrRendering(source, _) => SourceFit(scans, source)
    case CdrRendered(job) => JobValid(cfg, job) && SourceFit(scans, job.source)
    case CdrStored(job, _) => JobValid(cfg, job) && SourceFit(scans, job.source)
    case CdrRegistered(job, id) =>
      JobValid(cfg, job) && SourceFit(scans, job.source) && id != job.source && NotBegun(scans, id) && DerivedFits(scans[id], job)
    case CdrAnalyzing(job, id) =>
      JobValid(cfg, job) && SourceFit(scans, job.source) && id != job.source && InAnalysis(scans, id) && DerivedFits(scans[id], job)
    case CdrAnalyzed(job, id) =>
      JobValid(cfg, job) && SourceFit(scans, job.source) && id != job.source
      && id in scans && Judged(scans[id]) && DerivedFits(scans[id], job)
    case CdrApprovable(job, id, row) => ReadyToPromote(cfg, scans, job, id, row)
    case CdrPromoted(job, id, row, _) => ReadyToPromote(cfg, scans, job, id, row)
    case CdrConflict(source, _) => SourceFit(scans, source)
  }

  ghost predicate ReadyToPromote(
    cfg: Config, scans: map<ScanId, ScanRow>, job: Job, id: ScanId, row: ScanRow)
  {
    && JobValid(cfg, job) && SourceFit(scans, job.source) && id != job.source
    && id in scans && scans[id] == row && Judged(row) && DerivedFits(row, job)
    && row.detectedType == Some("PDF") && row.state == COMPLETED && row.decision == ALLOW
  }

  ghost predicate ScansValid(s: System) {
    && (forall id :: id in s.scans ==> RowValid(s.scans[id]))
    && (forall id :: id in s.recoveries ==> id in s.scans && Recovered(s.scans[id]))
  }

  ghost predicate EvaluationsValid(s: System) {
    forall id :: id in s.scans ==> EvaluationValid(s.scans[id])
  }

  ghost predicate RequestsValid(cfg: Config, s: System) {
    && (forall r :: r in s.requests ==> RequestValid(cfg, s.scans, s.requests[r]))
    && (forall r, q :: r in s.requests && q in s.requests && r != q && Pending(s.requests[r]).Some? ==>
          Pending(s.requests[r]) != Pending(s.requests[q]))
  }

  /** An artifact row names two existing scans, and its lineage is valid. */
  predicate ArtifactValid(scans: map<ScanId, ScanRow>, a: ArtifactRow) {
    SourceFit(scans, a.scan) && a.derived in scans && a.scan != a.derived && Judged(scans[a.derived])
    && ValidLineage(a, a.scan, a.derived, scans[a.derived])
  }

  ghost predicate ArtifactsValid(s: System) {
    && (forall a :: a in s.artifacts ==> ArtifactValid(s.scans, s.artifacts[a]))
    && PairsUnique(s.artifacts) && EventsMatch(s.approved, s.artifacts.Keys) && AnswersValid(s.artifacts, s.answers)
  }

  /** At most one artifact row for a source and sanitizer. */
  ghost predicate PairsUnique(artifacts: map<ArtifactId, ArtifactRow>) {
    forall a, b :: a in artifacts && b in artifacts && a != b ==>
      !SamePair(artifacts[a], artifacts[b].scan, artifacts[b].sanitizer)
  }

  /** One CDR_APPROVED event for each artifact row. */
  ghost predicate EventsMatch(approved: seq<ArtifactId>, ids: set<ArtifactId>) {
    && (forall a :: a in ids <==> a in approved)
    && (forall i, j :: 0 <= i < j < |approved| ==> approved[i] != approved[j])
  }

  /** An approved answer names the row of its source and sanitizer. */
  ghost predicate AnswersValid(artifacts: map<ArtifactId, ArtifactRow>, answers: set<Approval>) {
    forall x :: x in answers ==> x.artifact in artifacts && SamePair(artifacts[x.artifact], x.source, x.sanitizer)
  }

  ghost predicate Held(s: System, key: StorageKey) {
    exists r :: r in s.requests && HeldKey(s.requests[r]) == Some(key)
  }

  ghost predicate Stored(s: System, key: StorageKey) {
    exists a :: a in s.artifacts && s.artifacts[a].storageKey == key
  }

  ghost predicate FilesValid(cfg: Config, s: System) {
    && s.sanitized.Keys <= s.keys
    && (forall a :: a in s.artifacts ==> s.artifacts[a].storageKey in s.sanitized)
    && (forall r :: r in s.requests && HeldKey(s.requests[r]).Some? ==>
          HeldKey(s.requests[r]).value in s.sanitized && !Stored(s, HeldKey(s.requests[r]).value))
    && (forall a, b :: a in s.artifacts && b in s.artifacts && a != b ==>
          s.artifacts[a].storageKey != s.artifacts[b].storageKey)
    && (forall r, q :: r in s.requests && q in s.requests && r != q && HeldKey(s.requests[r]).Some? ==>
          HeldKey(s.requests[r]) != HeldKey(s.requests[q]))
    && (s.orderly ==> forall key :: key in s.sanitized ==> Stored(s, key) || Held(s, key))
  }

  /** Undamaged sanitized files still hold the bytes that were approved. */
  ghost predicate BytesValid(cfg: Config, s: System) {
    && (forall a :: a in s.artifacts && s.artifacts[a].storageKey !in s.damaged ==>
          Intact(cfg, s.sanitized, s.artifacts[a].storageKey, s.artifacts[a].sha256, s.artifacts[a].size))
    && (forall r :: r in s.requests && s.requests[r].CdrPromoted? && s.requests[r].key !in s.damaged ==>
          Intact(cfg, s.sanitized, s.requests[r].key, s.requests[r].job.sha256, s.requests[r].job.size))
    && s.damaged <= s.keys
  }

  ghost predicate Inv(cfg: Config, s: System) {
    ScansValid(s) && RequestsValid(cfg, s) && ArtifactsValid(s) && FilesValid(cfg, s) && BytesValid(cfg, s)
  }

  // ---------------------------------------------------------------- how rows evolve

  /** Rows are never removed; judged rows never change; rows other than `touched` are kept. */
  ghost predicate Evolves(scans: map<ScanId, ScanRow>, scans': map<ScanId, ScanRow>, touched: Option<ScanId>) {
    && (forall id :: id in scans ==> id in scans')
    && (forall id :: id in scans && Some(id) != touched ==> scans'[id] == scans[id])
    && (forall id :: id in scans && Judged(scans[id]) ==> scans'[id] == scans[id])
  }

  lemma ArtifactKept(scans: map<ScanId, ScanRow>, scans': map<ScanId, ScanRow>, touched: Option<ScanId>, a: ArtifactRow)
    requires ArtifactValid(scans, a) && Evolves(scans, scans', touched)
    ensures ArtifactValid(scans', a)
  {
  }

  /** A request not waiting on the touched row keeps its meaning. */
  lemma RequestKept(
    cfg: Config, scans: map<ScanId, ScanRow>, scans': map<ScanId, ScanRow>, touched: Option<ScanId>, request: Request)
    requires RequestValid(cfg, scans, request) && Evolves(scans, scans', touched)
    requires Pending(request) == None || Pending(request) != touched
    ensures RequestValid(cfg, scans', request)
  {
  }

  // ---------------------------------------------------------------- preservation, by component

  function Moved(requests: map<RequestId, Request>, r: RequestId, next: Option<Request>): map<RequestId, Request> {
    if next.Some? then requests[r := next.value] else requests - {r}
  }

  function PendingAt(s: System, r: RequestId): Option<ScanId> {
    if r in s.requests then Pending(s.requests[r]) else None
  }

  function HeldAt(s: System, r: RequestId): Option<StorageKey> {
    if r in s.requests then HeldKey(s.requests[r]) else None
  }

  /** What the protocol needs of the row an outcome produces. */
  ghost predicate FinishSound(cfg: Config) {
    forall row, outcome ::
      var done := cfg.Finished(row, outcome);
      && Judged(done)
      && (row.state == QUARANTINED ==> Recovered(done))
      && done.origin == row.origin && done.parent == row.parent
      && done.sha256 == row.sha256 && done.size == row.size
  }

  lemma DeployedFinishSound(cfg: Config)
    requires Deployed(cfg)
    ensures FinishSound(cfg)
  {
    forall row, outcome {
      FinishedRowJudged(row, outcome);
    }
  }

  /** Request `r` moves on, touching at most the row it was waiting on. */
  lemma RequestsMove(cfg: Config, s: System, s': System, r: RequestId, next: Option<Request>, touched: Option<ScanId>)
    requires RequestsValid(cfg, s) && s'.requests == Moved(s.requests, r, next)
    requires Evolves(s.scans, s'.scans, touched)
    requires touched == None || touched == PendingAt(s, r)
    requires next.Some? ==> RequestValid(cfg, s'.scans, next.value)
    requires next.Some? && Pending(next.value).Some? ==>
               Pending(next.value) == PendingAt(s, r) || Pending(next.value).value !in s.scans
    ensures RequestsValid(cfg, s')
  {
    forall q | q in s'.requests ensures RequestValid(cfg, s'.scans, s'.requests[q]) {
      if q != r {
        RequestKept(cfg, s.scans, s'.scans, touched, s.requests[q]);
      }
    }
    forall q | q in s.requests && q != r && Pending(s.requests[q]).Some?
      ensures Pending(s.requests[q]).value in s.scans
    {
      assert RequestValid(cfg, s.scans, s.requests[q]);
    }
  }

  lemma ArtifactsKept(s: System, s': System, touched: Option<ScanId>)
    requires ArtifactsValid(s) && Evolves(s.scans, s'.scans, touched)
    requires s'.artifacts == s.artifacts && s'.approved == s.approved && s'.answers == s.answers
    ensures ArtifactsValid(s')
  {
    forall a | a in s'.artifacts ensures ArtifactValid(s'.scans, s'.artifacts[a]) {
      ArtifactKept(s.scans, s'.scans, touched, s.artifacts[a]);
    }
  }

  lemma FilesKept(cfg: Config, s: System, s': System, r: RequestId, next: Option<Request>)
    requires FilesValid(cfg, s) && BytesValid(cfg, s) && s'.requests == Moved(s.requests, r, next)
    requires s'.sanitized == s.sanitized && s'.artifacts == s.artifacts && s'.damaged == s.damaged
    requires s'.orderly == s.orderly && s.keys <= s'.keys
    requires HeldAt(s, r) == None && HeldAt(s', r) == None
    ensures FilesValid(cfg, s') && BytesValid(cfg, s')
  {
    forall key: StorageKey ensures Held(s, key) ==> Held(s', key) {
      if Held(s, key) {
        var q :| q in s.requests && HeldKey(s.requests[q]) == Some(key);
        assert q in s'.requests && s'.requests[q] == s.requests[q];
      }
    }
    forall key: StorageKey ensures Stored(s', key) == Stored(s, key) { }
  }

  /** A step of request `r` that leaves artifacts, audit rows and sanitized files alone. */
  lemma QuietStep(cfg: Config, s: System, s': System, r: RequestId, next: Option<Request>, touched: Option<ScanId>)
    requires Inv(cfg, s) && s'.requests == Moved(s.requests, r, next)
    requires Evolves(s.scans, s'.scans, touched) && ScansValid(s')
    requires touched == None || touched == PendingAt(s, r)
    requires next.Some? ==> RequestValid(cfg, s'.scans, next.value)
    requires next.Some? && Pending(next.value).Some? ==>
               Pending(next.value) == PendingAt(s, r) || Pending(next.value).value !in s.scans
    requires s'.artifacts == s.artifacts && s'.approved == s.approved && s'.answers == s.answers
    requires s'.sanitized == s.sanitized && s'.damaged == s.damaged
    requires s'.orderly == s.orderly && s.keys <= s'.keys
    requires HeldAt(s, r) == None && HeldAt(s', r) == None
    ensures Inv(cfg, s')
  {
    RequestsMove(cfg, s, s', r, next, touched);
    ArtifactsKept(s, s', touched);
    FilesKept(cfg, s, s', r, next);
  }

  // ---------------------------------------------------------------- steps on rows

  function WithRow(s: System, r: RequestId, next: Option<Request>, id: ScanId, row: ScanRow): System {
    s.(scans := s.scans[id := row], requests := Moved(s.requests, r, next))
  }

  /** Request `r` writes a fresh row, or the row it was waiting on. */
  lemma RowStep(cfg: Config, s: System, r: RequestId, next: Option<Request>, id: ScanId, row: ScanRow)
    requires Inv(cfg, s) && RowValid(row)
    requires if id in s.scans then PendingAt(s, r) == Some(id) else id !in s.recoveries
    requires id in s.recoveries ==> Recovered(row)
    requires next.Some? ==> RequestValid(cfg, s.scans[id := row], next.value)
    requires next.Some? && Pending(next.value).Some? ==> Pending(next.value) == Some(id)
    requires HeldAt(s, r) == None && (next.Some? ==> HeldKey(next.value) == None)
    ensures Inv(cfg, WithRow(s, r, next, id, row))
  {
    var s' := WithRow(s, r, next, id, row);
    if id in s.scans {
      assert RequestValid(cfg, s.scans, s.requests[r]);
      assert Unjudged(s.scans[id]);
    }
    assert ScansValid(s');
    QuietStep(cfg, s, s', r, next, if id in s.scans then Some(id) else None);
  }

  /** A request moves on without writing a row. */
  lemma MoveTo(cfg: Config, s: System, r: RequestId, next: Request)
    requires Inv(cfg, s) && RequestValid(cfg, s.scans, next)
    requires Pending(next) == None && HeldKey(next) == None && HeldAt(s, r) == None
    ensures Inv(cfg, At(s, r, next))
  {
    QuietStep(cfg, s, At(s, r, next), r, Some(next), None);
  }

  lemma MoveEnd(cfg: Config, s: System, r: RequestId)
    requires Inv(cfg, s) && HeldAt(s, r) == None
    ensures Inv(cfg, End(s, r))
  {
    QuietStep(cfg, s, End(s, r), r, None, None);
  }

  /** The quarantine area and the drawn keys play no part in the invariant beyond freshness. */
  lemma SetQuarantine(cfg: Config, s: System, quarantine: map<StorageKey, Bytes>, key: StorageKey)
    requires Inv(cfg, s)
    ensures Inv(cfg, Draw(s.(quarantine := quarantine), key))
    ensures Inv(cfg, s.(quarantine := quarantine))
  {
    SameFiles(cfg, s, Draw(s.(quarantine := quarantine), key));
    SameFiles(cfg, s, s.(quarantine := quarantine));
  }

  lemma AddAnswer(cfg: Config, s: System, s': System, x: Approval)
    requires Inv(cfg, s) && s' == s.(answers := s.answers + {x})
    requires x.artifact in s.artifacts && SamePair(s.artifacts[x.artifact], x.source, x.sanitizer)
    ensures Inv(cfg, s')
  {
    AnswerAdded(s, s', x);
    SameFiles(cfg, s, s');
  }

  lemma AnswerAdded(s: System, s': System, x: Approval)
    requires ArtifactsValid(s) && s' == s.(answers := s.answers + {x})
    requires x.artifact in s.artifacts && SamePair(s.artifacts[x.artifact], x.source, x.sanitizer)
    ensures ArtifactsValid(s')
  {
    forall y | y in s'.answers
      ensures y.artifact in s'.artifacts && SamePair(s'.artifacts[y.artifact], y.source, y.sanitizer)
    {
      assert y in s.answers || y == x;
    }
  }

  lemma RegisterKeeps(cfg: Config, s: System, r: RequestId, id: ScanId)
    requires Inv(cfg, s) && r in s.requests && id !in s.scans
    ensures Inv(cfg, RegisterStep(s, r, id))
  {
    assert RequestValid(cfg, s.scans, s.requests[r]);
    match s.requests[r]
    case Uploaded(key, sha256, size) =>
      RowStep(cfg, s, r, Some(UploadRegistered(id)), id, RegisteredRow(UPLOAD, None, key, sha256, size));
    case CdrStored(job, key) =>
      RowStep(cfg, s, r, Some(CdrRegistered(job, id)), id,
              RegisteredRow(CDR_DERIVED, Some(job.source), key, job.sha256, job.size));
    case _ =>
  }

  lemma BeginKeeps(cfg: Config, s: System, r: RequestId)
    requires Inv(cfg, s) && r in s.requests
    ensures Inv(cfg, BeginStep(s, r))
  {
    match s.requests[r]
    case UploadRegistered(id) =>
      assert RequestValid(cfg, s.scans, s.requests[r]);
      RowStep(cfg, s, r, Some(UploadAnalyzing(id)), id, AnalyzingRow(s.scans[id]));
    case CdrRegistered(job, id) => BeginDerivedKeeps(cfg, s, r, job, id);
    case _ =>
  }

  lemma BeginDerivedKeeps(cfg: Config, s: System, r: RequestId, job: Job, id: ScanId)
    requires Inv(cfg, s) && r in s.requests && s.requests[r] == CdrRegistered(job, id)
    ensures id in s.scans && Inv(cfg, WithRow(s, r, Some(CdrAnalyzing(job, id)), id, AnalyzingRow(s.scans[id])))
  {
    assert RequestValid(cfg, s.scans, s.requests[r]);
    RowStep(cfg, s, r, Some(CdrAnalyzing(job, id)), id, AnalyzingRow(s.scans[id]));
  }

  lemma FinishKeeps(cfg: Config, s: System, r: RequestId, outcome: Outcome)
    requires Inv(cfg, s) && r in s.requests && FinishSound(cfg)
    ensures Inv(cfg, FinishStep(cfg, s, r, outcome))
  {
    match s.requests[r]
    case UploadAnalyzing(id) =>
      assert RequestValid(cfg, s.scans, s.requests[r]);
      RowStep(cfg, s, r, None, id, cfg.Finished(s.scans[id], outcome));
    case CdrAnalyzing(job, id) => FinishDerivedKeeps(cfg, s, r, job, id, outcome);
    case _ =>
  }

  lemma FinishDerivedKeeps(cfg: Config, s: System, r: RequestId, job: Job, id: ScanId, outcome: Outcome)
    requires Inv(cfg, s) && FinishSound(cfg) && r in s.requests && s.requests[r] == CdrAnalyzing(job, id)
    ensures id in s.scans
    ensures Inv(cfg, WithRow(s, r, Some(CdrAnalyzed(job, id)), id, cfg.Finished(s.scans[id], outcome)))
  {
    assert RequestValid(cfg, s.scans, s.requests[r]);
    RowStep(cfg, s, r, Some(CdrAnalyzed(job, id)), id, cfg.Finished(s.scans[id], outcome));
  }

  lemma RecoverRequests(cfg: Config, s: System, s': System, id: ScanId)
    requires ScansValid(s) && RequestsValid(cfg, s) && id in s.scans && s.scans[id].state == ANALYZING
    requires s' == RecoverStep(s, id)
    ensures ScansValid(s') && RequestsValid(cfg, s') && Evolves(s.scans, s'.scans, Some(id))
  {
    assert RowValid(s.scans[id]);
    forall r | r in s.requests ensures RequestValid(cfg, s'.scans, s.requests[r]) {
      assert RequestValid(cfg, s.scans, s.requests[r]);
      RecoveredStays(cfg, s.scans, id, s.requests[r]);
    }
  }

  lemma RecoverKeeps(cfg: Config, s: System, id: ScanId)
    requires Inv(cfg, s) && id in s.scans && s.scans[id].state == ANALYZING
    ensures Inv(cfg, RecoverStep(s, id))
  {
    var s' := RecoverStep(s, id);
    RecoverRequests(cfg, s, s', id);
    ArtifactsKept(s, s', Some(id));
    SameFiles(cfg, s, s');
  }

  lemma SameFiles(cfg: Config, s: System, s': System)
    requires FilesValid(cfg, s) && BytesValid(cfg, s)
    requires s'.requests == s.requests && s'.sanitized == s.sanitized && s'.artifacts == s.artifacts
    requires s'.damaged == s.damaged && s'.orderly == s.orderly && s.keys <= s'.keys
    ensures FilesValid(cfg, s') && BytesValid(cfg, s')
  {
    assert forall key: StorageKey :: Stored(s', key) == Stored(s, key) && Held(s', key) == Held(s, key);
  }

  /** Recovery may take the row a worker is still analyzing; its request stays well-placed. */
  lemma RecoveredStays(cfg: Config, scans: map<ScanId, ScanRow>, id: ScanId, request: Request)
    requires id in scans && RowValid(scans[id]) && scans[id].state == ANALYZING && RequestValid(cfg, scans, request)
    ensures RequestValid(cfg, scans[id := RecoveredRow(scans[id])], request)
  {
  }

  // ---------------------------------------------------------------- steps of a CDR request

  /** The four ways a request moves on without writing a row or a sanitized file. */
  ghost predicate Steps(s: System, s': System, r: RequestId) {
    || s' == s
    || s' == End(s, r)
    || (r in s.requests && s.requests[r].CdrRequested? && s.requests[r].source in s.scans
        && s' == At(s, r, CdrAccepted(s.requests[r].source, s.requests[r].sanitizer)))
    || (r in s.requests && s.requests[r].CdrAccepted?
        && s' == At(s, r, CdrRendering(s.requests[r].source, s.requests[r].sanitizer)))
  }

  lemma CheckEligibilityShape(cfg: Config, s: System, r: RequestId, pageCount: Option<int>, intact: bool)
    requires r in s.requests
    ensures Steps(s, CheckEligibilityStep(cfg, s, r, pageCount, intact), r)
    ensures s.requests[r].CdrRequested? || CheckEligibilityStep(cfg, s, r, pageCount, intact) == s
  {
    if s.requests[r].CdrRequested? && s.requests[r].source !in s.scans {
      assert EligibilityReasons(None, pageCount, cfg.maxPages, intact) == {ScanNotFound};
    }
  }

  /** What eligibility means, in the fields of a row with a valid evaluation. */
  lemma EligibleExactly(row: ScanRow, pageCount: Option<int>, maxPages: int, intact: bool)
    requires RowValid(row)
    ensures EligibilityReasons(Some(row), pageCount, maxPages, intact) == {} ==>
              Remediable(row) && Judged(row) && pageCount.Some? && 1 <= pageCount.value <= maxPages && intact
    ensures Remediable(row) && ValidEvaluation(SHIPPED, row.evaluation.value)
            && pageCount.Some? && 1 <= pageCount.value <= maxPages && intact ==>
              EligibilityReasons(Some(row), pageCount, maxPages, intact) == {}
  {
    var reasons := EligibilityReasons(Some(row), pageCount, maxPages, intact);
    if reasons == {} {
      assert NotPdf !in reasons && AnalysisNotSuccessful !in reasons && AnalysisIncomplete !in reasons
          && PdfNotRenderable !in reasons && DecisionNotRemediable !in reasons && SourceBlocked !in reasons
          && PageCountOutOfRange !in reasons && SourceIntegrityFailed !in reasons;
    }
  }

  lemma StepsKeep(cfg: Config, s: System, s': System, r: RequestId)
    requires Inv(cfg, s) && Steps(s, s', r) && HeldAt(s, r) == None
    requires r in s.requests && s.requests[r].CdrRequested? && s' != s && s' != End(s, r) ==>
               SourceFit(s.scans, s.requests[r].source)
    ensures Inv(cfg, s')
  {
    if r in s.requests {
      assert RequestValid(cfg, s.scans, s.requests[r]);
    }
    if s' == End(s, r) {
      MoveEnd(cfg, s, r);
    } else if s' != s {
      MoveTo(cfg, s, r, s'.requests[r]);
    }
  }

  lemma AnswerKeeps(cfg: Config, s: System, r: RequestId, source: ScanId, sanitizer: Sanitizer, a: ArtifactId)
    requires Inv(cfg, s) && HeldAt(s, r) == None
    requires a in s.artifacts && SamePair(s.artifacts[a], source, sanitizer)
    ensures Inv(cfg, Answer(s, r, source, sanitizer, a))
  {
    var x := Approval(source, sanitizer, a);
    AddAnswer(cfg, s, s.(answers := s.answers + {x}), x);
    MoveEnd(cfg, s.(answers := s.answers + {x}), r);
  }

  /** A lookup answers with the artifact of the pair, renders, ends, or does not apply. */
  lemma FindExistingShape(cfg: Config, s: System, r: RequestId, found: Option<ArtifactId>)
    requires r in s.requests
    ensures
      var s' := FindExistingStep(cfg, s, r, found);
      || Steps(s, s', r)
      || (exists source, sanitizer, a ::
            && HeldAt(s, r) == None && a in s.artifacts && SamePair(s.artifacts[a], source, sanitizer)
            && s' == Answer(s, r, source, sanitizer, a))
    ensures HeldAt(s, r) == None || FindExistingStep(cfg, s, r, found) == s
  {
  }

  lemma RenderKeeps(cfg: Config, s: System, r: RequestId, output: Bytes)
    requires Inv(cfg, s) && r in s.requests
    ensures Inv(cfg, RenderStep(cfg, s, r, output))
  {
    assert RequestValid(cfg, s.scans, s.requests[r]);
    match s.requests[r]
    case CdrRendering(source, sanitizer) =>
      if 0 < |output| <= cfg.maxOutput {
        MoveTo(cfg, s, r, CdrRendered(Job(source, sanitizer, cfg.Hash(output), |output|)));
      } else {
        MoveEnd(cfg, s, r);
      }
    case _ =>
  }

  lemma StoreDerivedKeeps(cfg: Config, s: System, r: RequestId, key: StorageKey, copied: Bytes)
    requires Inv(cfg, s) && r in s.requests
    ensures Inv(cfg, StoreDerivedStep(cfg, s, r, key, copied))
  {
    assert RequestValid(cfg, s.scans, s.requests[r]);
    match s.requests[r]
    case CdrRendered(job) =>
      if cfg.Hash(copied) == job.sha256 && 0 < |copied| <= cfg.maxOutput {
        SetQuarantine(cfg, s, s.quarantine[key := copied], key);
        MoveTo(cfg, Draw(s.(quarantine := s.quarantine[key := copied]), key), r, CdrStored(job, key));
      } else {
        MoveEnd(cfg, s, r);
      }
    case _ =>
  }

  lemma ReadDerivedKeeps(cfg: Config, s: System, r: RequestId)
    requires Inv(cfg, s) && r in s.requests
    ensures Inv(cfg, ReadDerivedStep(s, r))
  {
    assert RequestValid(cfg, s.scans, s.requests[r]);
    match s.requests[r]
    case CdrAnalyzed(job, id) =>
      ApprovableMeans(s.scans[id], job);
      if DerivedIsApprovable(s.scans[id], job) {
        MoveTo(cfg, s, r, CdrApprovable(job, id, s.scans[id]));
      } else {
        MoveEnd(cfg, s, r);
      }
    case _ =>
  }

  lemma ApprovableMeans(row: ScanRow, job: Job)
    ensures DerivedIsApprovable(row, job) ==>
              row.detectedType == Some("PDF") && row.state == COMPLETED && row.decision == ALLOW
  {
  }

  // ---------------------------------------------------------------- steps on the sanitized area

  /** A new file under a fresh key is added for request `r`, which holds it or strands it. */
  lemma AddFile(cfg: Config, s: System, s': System, r: RequestId, next: Option<Request>, key: StorageKey, bytes: Bytes)
    requires FilesValid(cfg, s) && BytesValid(cfg, s) && key !in s.keys && HeldAt(s, r) == None
    requires s'.requests == Moved(s.requests, r, next) && s'.sanitized == s.sanitized[key := bytes]
    requires s'.artifacts == s.artifacts && s'.damaged == s.damaged && s'.keys == s.keys + {key}
    requires if next.Some? then next.value.CdrPromoted? && next.value.key == key && s'.orderly == s.orderly
             else !s'.orderly
    requires next.Some? ==> Intact(cfg, s'.sanitized, key, next.value.job.sha256, next.value.job.size)
    ensures FilesValid(cfg, s')
    ensures BytesValid(cfg, s')
  {
    assert forall k: StorageKey :: Stored(s', k) == Stored(s, k);
    OthersStillHold(s, s', r, next);
    if next.Some? {
      assert HeldKey(s'.requests[r]) == Some(key);
    }
  }

  /** Requests other than `r` hold the same files after `r` moves. */
  lemma OthersStillHold(s: System, s': System, r: RequestId, next: Option<Request>)
    requires s'.requests == Moved(s.requests, r, next)
    ensures forall k: StorageKey :: Held(s, k) && HeldAt(s, r) != Some(k) ==> Held(s', k)
  {
    forall k: StorageKey | Held(s, k) && HeldAt(s, r) != Some(k) ensures Held(s', k) {
      var q :| q in s.requests && HeldKey(s.requests[q]) == Some(k);
      assert q in s'.requests && s'.requests[q] == s.requests[q];
    }
  }

  /** Request `r` lets go of the file it holds: unlinked, or stranded. */
  lemma DropFile(cfg: Config, s: System, s': System, r: RequestId, next: Option<Request>, unlinked: bool)
    requires FilesValid(cfg, s) && BytesValid(cfg, s) && r in s.requests && s.requests[r].CdrPromoted?
    requires s'.requests == Moved(s.requests, r, next) && (next.Some? ==> HeldKey(next.value) == None)
    requires s'.sanitized == if unlinked then s.sanitized - {s.requests[r].key} else s.sanitized
    requires s'.artifacts == s.artifacts && s'.damaged == s.damaged && s'.keys == s.keys
    requires s'.orderly == (s.orderly && unlinked)
    ensures FilesValid(cfg, s')
    ensures BytesValid(cfg, s')
  {
    var key := s.requests[r].key;
    assert HeldKey(s.requests[r]) == Some(key);
    assert forall k: StorageKey :: Stored(s', k) == Stored(s, k);
    OthersStillHold(s, s', r, next);
    forall a | a in s.artifacts ensures s.artifacts[a].storageKey != key {
      assert Stored(s, s.artifacts[a].storageKey);
    }
  }

  /** Letting go of a held file keeps the whole invariant. */
  lemma DropKeeps(cfg: Config, s: System, s': System, r: RequestId, next: Option<Request>, unlinked: bool)
    requires Inv(cfg, s) && r in s.requests && s.requests[r].CdrPromoted?
    requires next == None || next == Some(CdrConflict(s.requests[r].job.source, s.requests[r].job.sanitizer))
    requires s' == Discard(s, s.requests[r].key, unlinked).(requests := Moved(s.requests, r, next))
    ensures Inv(cfg, s')
  {
    assert RequestValid(cfg, s.scans, s.requests[r]);
    RequestsMove(cfg, s, s', r, next, None);
    ArtifactsKept(s, s', None);
    DropFile(cfg, s, s', r, next, unlinked);
  }

  /** The copy that passes the digest check is the candidate, so the later checks never fail. */
  lemma CopiedIsCandidate(cfg: Config, job: Job, copied: Bytes)
    requires CollisionFree(cfg) && JobValid(cfg, job) && cfg.Hash(copied) == job.sha256
    ensures |copied| == job.size && 0 < |copied| <= cfg.maxOutput
  {
    var b :| cfg.Hash(b) == job.sha256 && |b| == job.size && 0 < |b| <= cfg.maxOutput;
    assert copied == b;
  }

  lemma PromoteKeeps(cfg: Config, s: System, r: RequestId, key: StorageKey, copied: Bytes)
    requires Inv(cfg, s) && r in s.requests && key !in s.keys && CollisionFree(cfg)
    ensures Inv(cfg, PromoteStep(cfg, s, r, key, copied))
  {
    assert RequestValid(cfg, s.scans, s.requests[r]);
    match s.requests[r]
    case CdrApprovable(job, id, row) =>
      if cfg.Hash(copied) != job.sha256 || |copied| == 0 || |copied| > cfg.maxOutput {
        MoveEnd(cfg, s, r);
      } else {
        CopiedIsCandidate(cfg, job, copied);
        var s' := At(Draw(s.(sanitized := s.sanitized[key := copied]), key), r, CdrPromoted(job, id, row, key));
        AddFileKeeps(cfg, s, s', r, Some(CdrPromoted(job, id, row, key)), key, copied);
      }
    case _ =>
  }

  lemma AddFileKeeps(cfg: Config, s: System, s': System, r: RequestId, next: Option<Request>, key: StorageKey, bytes: Bytes)
    requires Inv(cfg, s) && key !in s.keys && r in s.requests && s.requests[r].CdrApprovable?
    requires next == None
          || next == Some(CdrPromoted(s.requests[r].job, s.requests[r].scan, s.requests[r].row, key))
    requires s' == s.(requests := Moved(s.requests, r, next), sanitized := s.sanitized[key := bytes],
                      keys := s.keys + {key}, orderly := s.orderly && next.Some?)
    requires next.Some? ==> Intact(cfg, s'.sanitized, key, s.requests[r].job.sha256, s.requests[r].job.size)
    ensures Inv(cfg, s')
  {
    assert RequestValid(cfg, s.scans, s.requests[r]);
    RequestsMove(cfg, s, s', r, next, None);
    ArtifactsKept(s, s', None);
    AddFile(cfg, s, s', r, next, key, bytes);
  }

  /** The artifact built from an approved candidate has valid lineage. */
  lemma NewArtifactValid(cfg: Config, scans: map<ScanId, ScanRow>, job: Job, id: ScanId, row: ScanRow, key: StorageKey)
    requires ReadyToPromote(cfg, scans, job, id, row)
    ensures ArtifactValid(scans, ArtifactOf(job, id, row, key))
    ensures SamePair(ArtifactOf(job, id, row, key), job.source, job.sanitizer)
  {
  }

  lemma InsertArtifact(cfg: Config, s: System, s': System, artifact: ArtifactId, row: ArtifactRow)
    requires ArtifactsValid(s) && artifact !in s.artifacts && ArtifactValid(s.scans, row)
    requires Finds(s, row.scan, row.sanitizer, None)
    requires s'.scans == s.scans && s'.artifacts == s.artifacts[artifact := row]
    requires s'.approved == s.approved + [artifact]
    requires s'.answers == s.answers + {Approval(row.scan, row.sanitizer, artifact)}
    ensures ArtifactsValid(s')
  {
    var inserted := s'.(answers := s.answers);
    RowInserted(s, inserted, artifact, row);
    AnswerAdded(inserted, s', Approval(row.scan, row.sanitizer, artifact));
  }

  lemma RowInserted(s: System, s': System, artifact: ArtifactId, row: ArtifactRow)
    requires ArtifactsValid(s) && artifact !in s.artifacts && ArtifactValid(s.scans, row)
    requires Finds(s, row.scan, row.sanitizer, None)
    requires s'.scans == s.scans && s'.artifacts == s.artifacts[artifact := row]
    requires s'.approved == s.approved + [artifact] && s'.answers == s.answers
    ensures ArtifactsValid(s')
  {
    EventAppended(s.approved, s.artifacts.Keys, artifact);
    assert s'.artifacts.Keys == s.artifacts.Keys + {artifact};
    PairInserted(s.artifacts, artifact, row);
  }

  /** A fresh artifact id keeps the approval events distinct and one for each row. */
  lemma EventAppended(approved: seq<ArtifactId>, ids: set<ArtifactId>, artifact: ArtifactId)
    requires artifact !in ids && EventsMatch(approved, ids)
    ensures EventsMatch(approved + [artifact], ids + {artifact})
  {
  }

  lemma PairInserted(artifacts: map<ArtifactId, ArtifactRow>, artifact: ArtifactId, row: ArtifactRow)
    requires artifact !in artifacts && PairsUnique(artifacts)
    requires forall a :: a in artifacts ==> !SamePair(artifacts[a], row.scan, row.sanitizer)
    ensures PairsUnique(artifacts[artifact := row])
  {
  }

  lemma InsertFile(cfg: Config, s: System, s': System, r: RequestId, artifact: ArtifactId, row: ArtifactRow)
    requires FilesValid(cfg, s) && BytesValid(cfg, s) && artifact !in s.artifacts
    requires r in s.requests && s.requests[r].CdrPromoted? && row.storageKey == s.requests[r].key
    requires row.sha256 == s.requests[r].job.sha256 && row.size == s.requests[r].job.size
    requires s'.artifacts == s.artifacts[artifact := row] && s'.requests == s.requests - {r}
    requires s'.sanitized == s.sanitized && s'.keys == s.keys && s'.damaged == s.damaged && s'.orderly == s.orderly
    ensures FilesValid(cfg, s') && BytesValid(cfg, s')
  {
    var key := row.storageKey;
    assert HeldKey(s.requests[r]) == Some(key);
    assert s'.artifacts[artifact].storageKey == key;
    forall k: StorageKey
      ensures Stored(s', k) <==> Stored(s, k) || k == key
      ensures Held(s, k) ==> k == key || Held(s', k)
    {
      if a :| a in s.artifacts && s.artifacts[a].storageKey == k {
        assert s'.artifacts[a].storageKey == k;
      }
      if q :| q in s.requests && HeldKey(s.requests[q]) == Some(k) && k != key {
        assert q in s'.requests && s'.requests[q] == s.requests[q];
      }
    }
    forall a | a in s.artifacts ensures s.artifacts[a].storageKey != key {
      assert Stored(s, s.artifacts[a].storageKey);
    }
  }

  lemma InsertKeeps(
    cfg: Config, s: System, s': System, r: RequestId, artifact: ArtifactId, job: Job, id: ScanId, row: ScanRow,
    key: StorageKey)
    requires Inv(cfg, s) && r in s.requests && s.requests[r] == CdrPromoted(job, id, row, key)
    requires artifact !in s.artifacts && Finds(s, job.source, job.sanitizer, None)
    requires s' == Answer(s.(artifacts := s.artifacts[artifact := ArtifactOf(job, id, row, key)],
                             approved := s.approved + [artifact]),
                          r, job.source, job.sanitizer, artifact)
    ensures Inv(cfg, s')
  {
    assert RequestValid(cfg, s.scans, s.requests[r]);
    NewArtifactValid(cfg, s.scans, job, id, row, key);
    InsertArtifact(cfg, s, s', artifact, ArtifactOf(job, id, row, key));
    InsertFile(cfg, s, s', r, artifact, ArtifactOf(job, id, row, key));
    RequestsMove(cfg, s, s', r, None, None);
  }

  lemma LostRaceKeeps(
    cfg: Config, s: System, r: RequestId, job: Job, id: ScanId, row: ScanRow, key: StorageKey, unlinked: bool)
    requires Inv(cfg, s) && r in s.requests && s.requests[r] == CdrPromoted(job, id, row, key)
    ensures Inv(cfg, if unlinked then At(Discard(s, key, true), r, CdrConflict(job.source, job.sanitizer))
                     else End(Discard(s, key, false), r))
  {
    if unlinked {
      DropKeeps(cfg, s, At(Discard(s, key, true), r, CdrConflict(job.source, job.sanitizer)), r,
                Some(CdrConflict(job.source, job.sanitizer)), true);
    } else {
      DropKeeps(cfg, s, End(Discard(s, key, false), r), r, None, false);
    }
  }

  lemma ApproveKeeps(cfg: Config, s: System, r: RequestId, artifact: ArtifactId, unlinked: bool)
    requires Inv(cfg, s) && r in s.requests && artifact !in s.artifacts
    ensures Inv(cfg, ApproveStep(s, r, artifact, unlinked))
  {
    match s.requests[r]
    case CdrPromoted(job, id, row, key) =>
      if Finds(s, job.source, job.sanitizer, None) {
        InsertKeeps(cfg, s, ApproveStep(s, r, artifact, unlinked), r, artifact, job, id, row, key);
      } else {
        LostRaceKeeps(cfg, s, r, job, id, row, key, unlinked);
      }
    case _ =>
  }

  // ---------------------------------------------------------------- failures and crashes

  lemma FailShape(s: System, r: RequestId, unlinked: bool)
    requires r in s.requests
    ensures var s' := FailStep(s, r, unlinked);
            if s.requests[r].CdrPromoted? then
              s' == Discard(s, s.requests[r].key, unlinked).(requests := s.requests - {r})
            else
              s' == End(s.(quarantine := s'.quarantine), r)
  {
    match s.requests[r]
    case Uploaded(key, _, _) =>
    case CdrStored(_, key) =>
    case CdrRegistered(_, id) =>
    case CdrAnalyzing(_, id) =>
    case CdrAnalyzed(_, id) =>
    case CdrPromoted(_, _, _, key) =>
    case _ =>
  }

  lemma FailKeeps(cfg: Config, s: System, s': System, r: RequestId, unlinked: bool)
    requires Inv(cfg, s) && r in s.requests
    requires if s.requests[r].CdrPromoted? then
               s' == Discard(s, s.requests[r].key, unlinked).(requests := s.requests - {r})
             else
               s' == End(s.(quarantine := s'.quarantine), r)
    ensures Inv(cfg, s')
  {
    if s.requests[r].CdrPromoted? {
      DropKeeps(cfg, s, s', r, None, unlinked);
    } else {
      SetQuarantine(cfg, s, s'.quarantine, 0);
      MoveEnd(cfg, s.(quarantine := s'.quarantine), r);
    }
  }

  lemma CrashKeeps(cfg: Config, s: System, r: RequestId)
    requires Inv(cfg, s) && r in s.requests
    ensures Inv(cfg, CrashStep(s, r))
  {
    if s.requests[r].CdrPromoted? {
      DropKeeps(cfg, s, CrashStep(s, r), r, None, false);
    } else {
      MoveEnd(cfg, s, r);
    }
  }

  lemma DamageFile(cfg: Config, s: System, s': System, key: StorageKey, bytes: Bytes)
    requires FilesValid(cfg, s) && BytesValid(cfg, s) && key in s.sanitized
    requires s' == s.(sanitized := s.sanitized[key := bytes], damaged := s.damaged + {key})
    ensures FilesValid(cfg, s')
    ensures BytesValid(cfg, s')
  {
    assert forall k: StorageKey :: Stored(s', k) == Stored(s, k) && Held(s', k) == Held(s, k);
  }

  lemma DamageKeeps(cfg: Config, s: System, s': System, key: StorageKey, bytes: Bytes)
    requires Inv(cfg, s) && key in s.sanitized
    requires s' == s.(sanitized := s.sanitized[key := bytes], damaged := s.damaged + {key})
    ensures Inv(cfg, s')
  {
    ArtifactsKept(s, s', None);
    DamageFile(cfg, s, s', key, bytes);
  }
}
