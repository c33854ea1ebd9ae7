/**
 What each step of the transition system may change, and what a run never takes back.
 */
module CdrHistory {
  import opened Wrappers
  import opened PolicyEngine
  import opened ScanRecords
  import opened CdrProtocol
  import opened CdrSafety

  // ---------------------------------------------------------------- what one step does to the rows

  /** The request a step acts for. */
  function Actor(step: Step): Option<RequestId> {
    match step
    case Recover(_) => None
    case Damage(_, _) => None
    case _ => Some(step.r)
  }

  /** The source scan of a CDR request. */
  function SourceOf(request: Request): Option<ScanId> {
    match request
    case CdrRequested(source, _) => Some(source)
    case CdrAccepted(source, _) => Some(source)
    case CdrRendering(source, _) => Some(source)
    case CdrRendered(job) => Some(job.source)
    case CdrStored(job, _) => Some(job.source)
    case CdrRegistered(job, _) => Some(job.source)
    case CdrAnalyzing(job, _) => Some(job.source)
    case CdrAnalyzed(job, _) => Some(job.source)
    case CdrApprovable(job, _, _) => Some(job.source)
    case CdrPromoted(job, _, _, _) => Some(job.source)
    case CdrConflict(source, _) => Some(source)
    case _ => None
  }

  /** How a step may change the row of scan `id`: a fresh row, a recovery, or its own request's. */
  ghost predicate RowChange(cfg: Config, s: System, s': System, step: Step, id: ScanId) {
    if id !in s.scans then
      id in s'.scans ==> Unjudged(s'.scans[id]) && s'.scans[id].state == STORED
    else
      && id in s'.scans
      && var row, row' := s.scans[id], s'.scans[id];
      || row' == row
      || (step == Recover(id) && row.state == ANALYZING && row' == RecoveredRow(row))
      || (step.Begin? && PendingAt(s, step.r) == Some(id) && row' == AnalyzingRow(row))
      || (step.Finish? && PendingAt(s, step.r) == Some(id) && row' == cfg.Finished(row, step.outcome))
  }

  /** Recoveries, artifact rows and approved answers are never taken back. */
  ghost predicate Accumulates(s: System, s': System) {
    && s.recoveries <= s'.recoveries && s.answers <= s'.answers
    && forall a :: a in s.artifacts ==> a in s'.artifacts && s'.artifacts[a] == s.artifacts[a]
  }

  /**
   The steps that leave a sanitized file behind that no row names: a crash or a failed unlink
   while a request holds the file, and a copy that fails after its rename.
   */
  ghost predicate Strands(s: System, step: Step) {
    match step
    case StrandCopy(r, key, _) => r in s.requests && s.requests[r].CdrApprovable? && key !in s.keys
    case Approve(r, artifact, unlinked) =>
      && r in s.requests && artifact !in s.artifacts && s.requests[r].CdrPromoted? && !unlinked
      && !Finds(s, s.requests[r].job.source, s.requests[r].job.sanitizer, None)
    case Fail(r, unlinked) => r in s.requests && s.requests[r].CdrPromoted? && !unlinked
    case Crash(r) => r in s.requests && s.requests[r].CdrPromoted?
    case _ => false
  }

  predicate Ordered(s: System, s': System, strands: bool) { s'.orderly == (s.orderly && !strands) }

  /** No row is written, and no answer taken back. */
  predicate SameTables(s: System, s': System, strands: bool) {
    && s'.scans == s.scans && s'.recoveries == s.recoveries && s'.artifacts == s.artifacts && s.answers <= s'.answers
    && Ordered(s, s', strands)
  }

  /** One scan row is written, and nothing else. */
  predicate OneRow(s: System, s': System, id: ScanId, row: ScanRow) {
    s'.scans == s.scans[id := row] && s'.recoveries == s.recoveries && s'.artifacts == s.artifacts
    && s'.answers == s.answers && s'.orderly == s.orderly
  }

  /** Only four kinds of step write rows, and each writes a single one. */
  lemma RowsWritten(cfg: Config, s: System, s': System, step: Step, id: ScanId)
    requires s' == Apply(cfg, s, step)
    ensures RowChange(cfg, s, s', step, id) && Accumulates(s, s')
    ensures Ordered(s, s', Strands(s, step))
  {
    match step
    case Register(r, scan) => if r in s.requests && scan !in s.scans { RegisterWrites(cfg, s, s', r, scan, id); }
    case Begin(r) => if r in s.requests { BeginWrites(cfg, s, s', r, id); }
    case Finish(r, outcome) => if r in s.requests { FinishWrites(cfg, s, s', r, outcome, id); }
    case Recover(scan) => RecoverWrites(cfg, s, s', scan, id);
    case Approve(r, artifact, unlinked) =>
      if r in s.requests && artifact !in s.artifacts { ApproveWrites(s, r, artifact, unlinked); }
    case _ => OtherStep(cfg, s, step);
  }

  lemma RegisterShape(s: System, r: RequestId, scan: ScanId)
    requires r in s.requests && scan !in s.scans
    ensures var s' := RegisterStep(s, r, scan);
            s' == s || exists row :: Unjudged(row) && row.state == STORED && OneRow(s, s', scan, row)
  {
    match s.requests[r]
    case Uploaded(key, sha256, size) =>
      assert OneRow(s, RegisterStep(s, r, scan), scan, RegisteredRow(UPLOAD, None, key, sha256, size));
    case CdrStored(job, key) =>
      assert OneRow(s, RegisterStep(s, r, scan), scan,
                    RegisteredRow(CDR_DERIVED, Some(job.source), key, job.sha256, job.size));
    case _ =>
  }

  lemma RegisterWrites(cfg: Config, s: System, s': System, r: RequestId, scan: ScanId, id: ScanId)
    requires r in s.requests && scan !in s.scans && s' == RegisterStep(s, r, scan)
    ensures RowChange(cfg, s, s', Register(r, scan), id) && Accumulates(s, s') && s'.orderly == s.orderly
  {
    RegisterShape(s, r, scan);
  }

  lemma BeginShape(s: System, r: RequestId)
    requires r in s.requests
    ensures var s' := BeginStep(s, r);
            var id := PendingAt(s, r);
            s' == s || (id.Some? && id.value in s.scans && OneRow(s, s', id.value, AnalyzingRow(s.scans[id.value])))
  {
  }

  lemma BeginWrites(cfg: Config, s: System, s': System, r: RequestId, id: ScanId)
    requires r in s.requests && s' == BeginStep(s, r)
    ensures RowChange(cfg, s, s', Begin(r), id) && Accumulates(s, s') && s'.orderly == s.orderly
  {
    BeginShape(s, r);
  }

  lemma FinishShape(cfg: Config, s: System, r: RequestId, outcome: Outcome)
    requires r in s.requests
    ensures var s' := FinishStep(cfg, s, r, outcome);
            var id := PendingAt(s, r);
            s' == s || (id.Some? && id.value in s.scans
                        && OneRow(s, s', id.value, cfg.Finished(s.scans[id.value], outcome)))
  {
  }

  lemma FinishWrites(cfg: Config, s: System, s': System, r: RequestId, outcome: Outcome, id: ScanId)
    requires r in s.requests && s' == FinishStep(cfg, s, r, outcome)
    ensures RowChange(cfg, s, s', Finish(r, outcome), id) && Accumulates(s, s') && s'.orderly == s.orderly
  {
    FinishShape(cfg, s, r, outcome);
  }

  lemma RecoverWrites(cfg: Config, s: System, s': System, scan: ScanId, id: ScanId)
    requires s' == RecoverStep(s, scan)
    ensures RowChange(cfg, s, s', Recover(scan), id) && Accumulates(s, s') && s'.orderly == s.orderly
  {
  }

  lemma ApproveWrites(s: System, r: RequestId, artifact: ArtifactId, unlinked: bool)
    requires r in s.requests && artifact !in s.artifacts
    ensures var s' := ApproveStep(s, r, artifact, unlinked);
            && s'.scans == s.scans && Accumulates(s, s')
            && Ordered(s, s', Strands(s, Approve(r, artifact, unlinked)))
  {
    if s.requests[r].CdrPromoted? {
      if Finds(s, s.requests[r].job.source, s.requests[r].job.sanitizer, None) {
      } else {
      }
    }
  }

  lemma OtherStep(cfg: Config, s: System, step: Step)
    requires !step.Register? && !step.Begin? && !step.Finish? && !step.Recover? && !step.Approve?
    ensures SameTables(s, Apply(cfg, s, step), Strands(s, step))
  {
    match step
    case Upload(r, key, bytes) => UploadSame(cfg, s, r, key, bytes);
    case RequestCdr(r, source, sanitizer) => RequestCdrSame(cfg, s, r, source, sanitizer);
    case CheckEligibility(r, pageCount, intact) => CheckEligibilitySame(cfg, s, r, pageCount, intact);
    case FindExisting(r, found) => FindExistingSame(cfg, s, r, found);
    case Render(r, output) => RenderSame(cfg, s, r, output);
    case StoreDerived(r, key, copied) => StoreDerivedSame(cfg, s, r, key, copied);
    case ReadDerived(r) => ReadDerivedSame(cfg, s, r);
    case Promote(r, key, copied) => PromoteSame(cfg, s, r, key, copied);
    case StrandCopy(r, key, copied) => StrandCopySame(cfg, s, r, key, copied);
    case Fail(r, unlinked) => FailSame(cfg, s, r, unlinked);
    case Crash(r) => CrashSame(cfg, s, r);
    case Damage(key, bytes) => DamageSame(cfg, s, key, bytes);
  }

  lemma UploadSame(cfg: Config, s: System, r: RequestId, key: StorageKey, bytes: Bytes)
    ensures SameTables(s, Apply(cfg, s, Upload(r, key, bytes)), Strands(s, Upload(r, key, bytes)))
  {
  }

  lemma RequestCdrSame(cfg: Config, s: System, r: RequestId, source: ScanId, sanitizer: Sanitizer)
    ensures SameTables(s, Apply(cfg, s, RequestCdr(r, source, sanitizer)), Strands(s, RequestCdr(r, source, sanitizer)))
  {
  }

  lemma CheckEligibilityTables(cfg: Config, s: System, r: RequestId, pageCount: Option<int>, intact: bool)
    requires r in s.requests
    ensures SameTables(s, CheckEligibilityStep(cfg, s, r, pageCount, intact), false)
  {
    CheckEligibilityShape(cfg, s, r, pageCount, intact);
  }

  lemma CheckEligibilitySame(cfg: Config, s: System, r: RequestId, pageCount: Option<int>, intact: bool)
    ensures var step := CheckEligibility(r, pageCount, intact); SameTables(s, Apply(cfg, s, step), Strands(s, step))
  {
    if r in s.requests { CheckEligibilityTables(cfg, s, r, pageCount, intact); }
  }

  lemma FindExistingTables(cfg: Config, s: System, r: RequestId, found: Option<ArtifactId>)
    requires r in s.requests
    ensures SameTables(s, FindExistingStep(cfg, s, r, found), false)
  {
    FindExistingShape(cfg, s, r, found);
  }

  lemma FindExistingSame(cfg: Config, s: System, r: RequestId, found: Option<ArtifactId>)
    ensures SameTables(s, Apply(cfg, s, FindExisting(r, found)), Strands(s, FindExisting(r, found)))
  {
    if r in s.requests { FindExistingTables(cfg, s, r, found); }
  }

  lemma RenderTables(cfg: Config, s: System, r: RequestId, output: Bytes)
    requires r in s.requests
    ensures SameTables(s, RenderStep(cfg, s, r, output), false)
  {
    if s.requests[r].CdrRendering? && 0 < |output| <= cfg.maxOutput {
    } else {
    }
  }

  lemma RenderSame(cfg: Config, s: System, r: RequestId, output: Bytes)
    ensures SameTables(s, Apply(cfg, s, Render(r, output)), Strands(s, Render(r, output)))
  {
    if r in s.requests { RenderTables(cfg, s, r, output); }
  }

  lemma StoreDerivedTables(cfg: Config, s: System, r: RequestId, key: StorageKey, copied: Bytes)
    requires r in s.requests
    ensures SameTables(s, StoreDerivedStep(cfg, s, r, key, copied), false)
  {
    if s.requests[r].CdrRendered? {
      if cfg.Hash(copied) == s.requests[r].job.sha256 && 0 < |copied| <= cfg.maxOutput {
      } else {
      }
    }
  }

  lemma StoreDerivedSame(cfg: Config, s: System, r: RequestId, key: StorageKey, copied: Bytes)
    ensures SameTables(s, Apply(cfg, s, StoreDerived(r, key, copied)), Strands(s, StoreDerived(r, key, copied)))
  {
    if r in s.requests && key !in s.keys { StoreDerivedTables(cfg, s, r, key, copied); }
  }

  lemma ReadDerivedTables(cfg: Config, s: System, r: RequestId)
    requires r in s.requests
    ensures SameTables(s, ReadDerivedStep(s, r), false)
  {
    if s.requests[r].CdrAnalyzed? {
      if s.requests[r].scan in s.scans && DerivedIsApprovable(s.scans[s.requests[r].scan], s.requests[r].job) {
      } else {
      }
    }
  }

  lemma ReadDerivedSame(cfg: Config, s: System, r: RequestId)
    ensures SameTables(s, Apply(cfg, s, ReadDerived(r)), Strands(s, ReadDerived(r)))
  {
    if r in s.requests { ReadDerivedTables(cfg, s, r); }
  }

  lemma PromoteTables(cfg: Config, s: System, r: RequestId, key: StorageKey, copied: Bytes)
    requires r in s.requests
    ensures SameTables(s, PromoteStep(cfg, s, r, key, copied), false)
  {
    if s.requests[r].CdrApprovable? {
      var job, row := s.requests[r].job, s.requests[r].row;
      if cfg.Hash(copied) != job.sha256 || |copied| == 0 || |copied| > cfg.maxOutput {
      } else if cfg.Hash(copied) != row.sha256 || |copied| != job.size {
      } else {
      }
    }
  }

  lemma PromoteSame(cfg: Config, s: System, r: RequestId, key: StorageKey, copied: Bytes)
    ensures SameTables(s, Apply(cfg, s, Promote(r, key, copied)), Strands(s, Promote(r, key, copied)))
  {
    if r in s.requests && key !in s.keys { PromoteTables(cfg, s, r, key, copied); }
  }

  lemma StrandCopySame(cfg: Config, s: System, r: RequestId, key: StorageKey, copied: Bytes)
    ensures SameTables(s, Apply(cfg, s, StrandCopy(r, key, copied)), Strands(s, StrandCopy(r, key, copied)))
  {
  }

  lemma FailTables(cfg: Config, s: System, r: RequestId, unlinked: bool)
    requires r in s.requests
    ensures SameTables(s, FailStep(s, r, unlinked), Strands(s, Fail(r, unlinked)))
  {
    FailShape(s, r, unlinked);
  }

  lemma FailSame(cfg: Config, s: System, r: RequestId, unlinked: bool)
    ensures SameTables(s, Apply(cfg, s, Fail(r, unlinked)), Strands(s, Fail(r, unlinked)))
  {
    if r in s.requests { FailTables(cfg, s, r, unlinked); }
  }

  lemma CrashSame(cfg: Config, s: System, r: RequestId)
    ensures SameTables(s, Apply(cfg, s, Crash(r)), Strands(s, Crash(r)))
  {
  }

  lemma DamageSame(cfg: Config, s: System, key: StorageKey, bytes: Bytes)
    ensures SameTables(s, Apply(cfg, s, Damage(key, bytes)), Strands(s, Damage(key, bytes)))
  {
  }

  // ---------------------------------------------------------------- runs and their continuations

  /** The run extended by one step. */
  lemma RunStep(cfg: Config, steps: seq<Step>, step: Step)
    ensures Run(cfg, steps + [step]) == Apply(cfg, Run(cfg, steps), step)
  {
    assert (steps + [step])[..|steps|] == steps;
  }

  /** A run and its continuation, seen as the continuation's last step. */
  lemma Continue(cfg: Config, steps: seq<Step>, later: seq<Step>)
    requires later != []
    ensures var before := steps + later[..|later| - 1];
            Run(cfg, steps + later) == Apply(cfg, Run(cfg, before), later[|later| - 1])
  {
    var last := |later| - 1;
    assert steps + later == (steps + later[..last]) + [later[last]];
    RunStep(cfg, steps + later[..last], later[last]);
  }

  lemma {:induction false} RunAccumulates(cfg: Config, steps: seq<Step>, later: seq<Step>)
    ensures Accumulates(Run(cfg, steps), Run(cfg, steps + later))
  {
    if later == [] {
      assert steps + later == steps;
    } else {
      var before := later[..|later| - 1];
      RunAccumulates(cfg, steps, before);
      Continue(cfg, steps, later);
      RowsWritten(cfg, Run(cfg, steps + before), Run(cfg, steps + later), later[|later| - 1], 0);
    }
  }
}
