/**
 What the transition system does when nothing goes wrong: the request of a remediable source
 whose candidate is judged clean ends in one artifact, one audit event and one approved answer,
 and changes nothing else.
 */
module CdrProgress {
  import opened Wrappers
  import opened PolicyEngine
  import opened PolicyProperties
  import opened ShippedPolicy
  import opened ScanRecords
  import opened CdrProtocol
  import opened CdrSafety
  import opened CdrHistory
  import opened CdrRuns
  import opened CdrTheorems

  /** One CDR request as it goes through, with the keys and identifiers it draws. */
  datatype Plan = Plan(
    r: RequestId, source: ScanId, sanitizer: Sanitizer, pageCount: int, output: Bytes, key: StorageKey, id: ScanId,
    outcome: Outcome, sanitizedKey: StorageKey, artifact: ArtifactId)

  function JobOf(cfg: Config, p: Plan): Job { Job(p.source, p.sanitizer, cfg.Hash(p.output), |p.output|) }

  /** To the rendered candidate, to its registered scan, through its analysis, and to the approval. */
  function Rendering(p: Plan): seq<Step> {
    [RequestCdr(p.r, p.source, p.sanitizer), CheckEligibility(p.r, Some(p.pageCount), true), FindExisting(p.r, None),
     Render(p.r, p.output)]
  }

  function Storing(p: Plan): seq<Step> { [StoreDerived(p.r, p.key, p.output), Register(p.r, p.id)] }

  function Analyzing(p: Plan): seq<Step> { [Begin(p.r), Finish(p.r, p.outcome), ReadDerived(p.r)] }

  function Approving(p: Plan): seq<Step> {
    [Promote(p.r, p.sanitizedKey, p.output), Approve(p.r, p.artifact, true)]
  }

  function Schedule(p: Plan): seq<Step> { Rendering(p) + Storing(p) + Analyzing(p) + Approving(p) }

  /** The analysis of the candidate succeeds, finds a PDF, and policy allows it. */
  predicate Clean(outcome: Outcome) {
    var e := Evaluate(SHIPPED, outcome.result, outcome.failure, ANALYZING);
    && e.Some? && e.value.decision == ALLOW
    && outcome.result.Some? && outcome.result.value.detectedType == Some("PDF")
  }

  /** The source may be remediated, the candidate is within the limits, and what is drawn is new. */
  ghost predicate Ready(cfg: Config, s: System, p: Plan) {
    && p.r !in s.requests && p.source in s.scans && Remediable(s.scans[p.source])
    && 1 <= p.pageCount <= cfg.maxPages && 0 < |p.output| <= cfg.maxOutput && Clean(p.outcome)
    && p.key !in s.keys && p.sanitizedKey !in s.keys && p.key != p.sanitizedKey
    && p.id !in s.scans && p.artifact !in s.artifacts && Finds(s, p.source, p.sanitizer, None)
  }

  /** The row of the candidate after its analysis. */
  function DerivedRow(cfg: Config, p: Plan): ScanRow {
    var job := JobOf(cfg, p);
    FinishedRow(AnalyzingRow(RegisteredRow(CDR_DERIVED, Some(p.source), p.key, job.sha256, job.size)), p.outcome)
  }

  function WithCopy(s: System, p: Plan): System {
    Draw(s.(quarantine := s.quarantine[p.key := p.output]), p.key)
  }

  function WithRow(cfg: Config, s: System, p: Plan): System {
    WithCopy(s, p).(scans := s.scans[p.id := DerivedRow(cfg, p)])
  }

  function WithFile(cfg: Config, s: System, p: Plan): System {
    Draw(WithRow(cfg, s, p).(sanitized := s.sanitized[p.sanitizedKey := p.output]), p.sanitizedKey)
  }

  /** Afterwards: the row and file of the candidate, the artifact, its file, event and answer. */
  function Approved(cfg: Config, s: System, p: Plan): System {
    var row := DerivedRow(cfg, p);
    WithFile(cfg, s, p).(
      artifacts := s.artifacts[p.artifact := ArtifactOf(JobOf(cfg, p), p.id, row, p.sanitizedKey)],
      approved := s.approved + [p.artifact],
      answers := s.answers + {Approval(p.source, p.sanitizer, p.artifact)})
  }

  /** A candidate that policy allows has a row that may be approved. */
  lemma CleanIsApprovable(cfg: Config, p: Plan)
    requires Clean(p.outcome)
    ensures DerivedIsApprovable(DerivedRow(cfg, p), JobOf(cfg, p))
  {
    CleanEvaluation(p.outcome);
    var row := DerivedRow(cfg, p);
    assert row.findings == [] + p.outcome.result.value.findings;
  }

  lemma CleanEvaluation(outcome: Outcome)
    requires Clean(outcome)
    ensures var e := Evaluate(SHIPPED, outcome.result, outcome.failure, ANALYZING).value;
            ValidEvaluation(SHIPPED, e) && e.complete && e.release && e.hardBlocks == [] && e.mandatory == []
    ensures outcome.result.value.status == SUCCESS
    ensures !(exists code | code in outcome.result.value.findings :: IncompleteName(code))
  {
    ShippedAllow(outcome.result, outcome.failure, ANALYZING);
  }

  // ---------------------------------------------------------------- each step, from any base

  lemma AtTwice(s: System, r: RequestId, first: Request, second: Request)
    ensures At(At(s, r, first), r, second) == At(s, r, second)
  {
  }

  lemma Accepts(cfg: Config, b: System, r: RequestId, source: ScanId, sanitizer: Sanitizer, pageCount: int)
    requires source in b.scans && EligibilityReasons(Some(b.scans[source]), Some(pageCount), cfg.maxPages, true) == {}
    ensures Apply(cfg, At(b, r, CdrRequested(source, sanitizer)), CheckEligibility(r, Some(pageCount), true))
            == At(b, r, CdrAccepted(source, sanitizer))
  {
    AtTwice(b, r, CdrRequested(source, sanitizer), CdrAccepted(source, sanitizer));
  }

  lemma FindsNone(cfg: Config, b: System, r: RequestId, source: ScanId, sanitizer: Sanitizer)
    requires Finds(b, source, sanitizer, None)
    ensures Apply(cfg, At(b, r, CdrAccepted(source, sanitizer)), FindExisting(r, None))
            == At(b, r, CdrRendering(source, sanitizer))
  {
    AtTwice(b, r, CdrAccepted(source, sanitizer), CdrRendering(source, sanitizer));
    assert Finds(At(b, r, CdrAccepted(source, sanitizer)), source, sanitizer, None);
  }

  lemma Renders(cfg: Config, b: System, r: RequestId, source: ScanId, sanitizer: Sanitizer, output: Bytes)
    requires 0 < |output| <= cfg.maxOutput
    ensures Apply(cfg, At(b, r, CdrRendering(source, sanitizer)), Render(r, output))
            == At(b, r, CdrRendered(Job(source, sanitizer, cfg.Hash(output), |output|)))
  {
    AtTwice(b, r, CdrRendering(source, sanitizer), CdrRendered(Job(source, sanitizer, cfg.Hash(output), |output|)));
  }

  lemma Stores(cfg: Config, b: System, r: RequestId, job: Job, key: StorageKey, output: Bytes)
    requires cfg.Hash(output) == job.sha256 && 0 < |output| <= cfg.maxOutput && key !in b.keys
    ensures Apply(cfg, At(b, r, CdrRendered(job)), StoreDerived(r, key, output))
            == At(Draw(b.(quarantine := b.quarantine[key := output]), key), r, CdrStored(job, key))
  {
    AtTwice(Draw(b.(quarantine := b.quarantine[key := output]), key), r, CdrRendered(job), CdrStored(job, key));
  }

  lemma Registers(cfg: Config, b: System, r: RequestId, job: Job, key: StorageKey, id: ScanId)
    requires id !in b.scans
    ensures Apply(cfg, At(b, r, CdrStored(job, key)), Register(r, id))
            == At(b.(scans := b.scans[id := RegisteredRow(CDR_DERIVED, Some(job.source), key, job.sha256, job.size)]),
                  r, CdrRegistered(job, id))
  {
    AtTwice(b.(scans := b.scans[id := RegisteredRow(CDR_DERIVED, Some(job.source), key, job.sha256, job.size)]),
            r, CdrStored(job, key), CdrRegistered(job, id));
  }

  lemma Begins(cfg: Config, b: System, r: RequestId, job: Job, id: ScanId)
    requires id in b.scans
    ensures Apply(cfg, At(b, r, CdrRegistered(job, id)), Begin(r))
            == At(b.(scans := b.scans[id := AnalyzingRow(b.scans[id])]), r, CdrAnalyzing(job, id))
  {
    AtTwice(b.(scans := b.scans[id := AnalyzingRow(b.scans[id])]), r, CdrRegistered(job, id), CdrAnalyzing(job, id));
  }

  lemma Finishes(cfg: Config, b: System, r: RequestId, job: Job, id: ScanId, outcome: Outcome)
    requires id in b.scans
    ensures Apply(cfg, At(b, r, CdrAnalyzing(job, id)), Finish(r, outcome))
            == At(b.(scans := b.scans[id := cfg.Finished(b.scans[id], outcome)]), r, CdrAnalyzed(job, id))
  {
    AtTwice(b.(scans := b.scans[id := cfg.Finished(b.scans[id], outcome)]), r, CdrAnalyzing(job, id), CdrAnalyzed(job, id));
  }

  lemma Approvable(cfg: Config, b: System, r: RequestId, job: Job, id: ScanId)
    requires id in b.scans && DerivedIsApprovable(b.scans[id], job)
    ensures Apply(cfg, At(b, r, CdrAnalyzed(job, id)), ReadDerived(r)) == At(b, r, CdrApprovable(job, id, b.scans[id]))
  {
    AtTwice(b, r, CdrAnalyzed(job, id), CdrApprovable(job, id, b.scans[id]));
  }

  lemma Promotes(cfg: Config, b: System, r: RequestId, job: Job, id: ScanId, row: ScanRow, key: StorageKey, output: Bytes)
    requires cfg.Hash(output) == job.sha256 == row.sha256 && 0 < |output| == job.size <= cfg.maxOutput && key !in b.keys
    ensures Apply(cfg, At(b, r, CdrApprovable(job, id, row)), Promote(r, key, output))
            == At(Draw(b.(sanitized := b.sanitized[key := output]), key), r, CdrPromoted(job, id, row, key))
  {
    AtTwice(Draw(b.(sanitized := b.sanitized[key := output]), key), r, CdrApprovable(job, id, row),
            CdrPromoted(job, id, row, key));
  }

  lemma Approves(
    cfg: Config, b: System, r: RequestId, job: Job, id: ScanId, row: ScanRow, key: StorageKey, artifact: ArtifactId)
    requires r !in b.requests && artifact !in b.artifacts && Finds(b, job.source, job.sanitizer, None)
    ensures Apply(cfg, At(b, r, CdrPromoted(job, id, row, key)), Approve(r, artifact, true))
            == b.(artifacts := b.artifacts[artifact := ArtifactOf(job, id, row, key)], approved := b.approved + [artifact],
                  answers := b.answers + {Approval(job.source, job.sanitizer, artifact)})
  {
    assert Finds(At(b, r, CdrPromoted(job, id, row, key)), job.source, job.sanitizer, None);
    assert b.requests[r := CdrPromoted(job, id, row, key)] - {r} == b.requests;
  }

  // ---------------------------------------------------------------- the whole schedule

  lemma RenderingPlays(cfg: Config, s: System, p: Plan)
    requires Ready(cfg, s, p)
    requires EligibilityReasons(Some(s.scans[p.source]), Some(p.pageCount), cfg.maxPages, true) == {}
    ensures Play(cfg, s, Rendering(p)) == At(s, p.r, CdrRendered(JobOf(cfg, p)))
  {
    Accepts(cfg, s, p.r, p.source, p.sanitizer, p.pageCount);
    FindsNone(cfg, s, p.r, p.source, p.sanitizer);
    Renders(cfg, s, p.r, p.source, p.sanitizer, p.output);
    PlayFour(cfg, s, RequestCdr(p.r, p.source, p.sanitizer), CheckEligibility(p.r, Some(p.pageCount), true),
             FindExisting(p.r, None), Render(p.r, p.output));
  }

  /** The candidate's row before its analysis. */
  function FirstRow(cfg: Config, p: Plan): ScanRow {
    RegisteredRow(CDR_DERIVED, Some(p.source), p.key, cfg.Hash(p.output), |p.output|)
  }

  function WithScan(cfg: Config, s: System, p: Plan): System {
    WithCopy(s, p).(scans := s.scans[p.id := FirstRow(cfg, p)])
  }

  lemma StoringPlays(cfg: Config, s: System, p: Plan)
    requires Ready(cfg, s, p)
    ensures Play(cfg, At(s, p.r, CdrRendered(JobOf(cfg, p))), Storing(p))
            == At(WithScan(cfg, s, p), p.r, CdrRegistered(JobOf(cfg, p), p.id))
  {
    Stores(cfg, s, p.r, JobOf(cfg, p), p.key, p.output);
    Registers(cfg, WithCopy(s, p), p.r, JobOf(cfg, p), p.key, p.id);
    PlayTwo(cfg, At(s, p.r, CdrRendered(JobOf(cfg, p))), StoreDerived(p.r, p.key, p.output), Register(p.r, p.id));
  }

  lemma AnalyzingPlays(cfg: Config, s: System, p: Plan)
    requires Deployed(cfg) && Ready(cfg, s, p)
    ensures Play(cfg, At(WithScan(cfg, s, p), p.r, CdrRegistered(JobOf(cfg, p), p.id)), Analyzing(p))
            == At(WithRow(cfg, s, p), p.r, CdrApprovable(JobOf(cfg, p), p.id, DerivedRow(cfg, p)))
  {
    var job, b, first := JobOf(cfg, p), WithScan(cfg, s, p), FirstRow(cfg, p);
    Begins(cfg, b, p.r, job, p.id);
    Rewritten(s.scans, p.id, first, AnalyzingRow(first));
    Finishes(cfg, b.(scans := s.scans[p.id := AnalyzingRow(first)]), p.r, job, p.id, p.outcome);
    Rewritten(s.scans, p.id, AnalyzingRow(first), DerivedRow(cfg, p));
    CleanIsApprovable(cfg, p);
    Approvable(cfg, WithRow(cfg, s, p), p.r, job, p.id);
    PlayThree(cfg, At(b, p.r, CdrRegistered(job, p.id)), Begin(p.r), Finish(p.r, p.outcome), ReadDerived(p.r));
  }

  lemma Rewritten(scans: map<ScanId, ScanRow>, id: ScanId, first: ScanRow, second: ScanRow)
    ensures scans[id := first][id := second] == scans[id := second]
  {
  }

  lemma ApprovingPlays(cfg: Config, s: System, p: Plan)
    requires Ready(cfg, s, p)
    ensures Play(cfg, At(WithRow(cfg, s, p), p.r, CdrApprovable(JobOf(cfg, p), p.id, DerivedRow(cfg, p))), Approving(p))
            == Approved(cfg, s, p)
  {
    var job, j, row, m := JobOf(cfg, p), WithRow(cfg, s, p), DerivedRow(cfg, p), WithFile(cfg, s, p);
    CleanIsApprovable(cfg, p);
    Promotes(cfg, j, p.r, job, p.id, row, p.sanitizedKey, p.output);
    assert Finds(m, p.source, p.sanitizer, None);
    Approves(cfg, m, p.r, job, p.id, row, p.sanitizedKey, p.artifact);
    PlayTwo(cfg, At(j, p.r, CdrApprovable(job, p.id, row)), Promote(p.r, p.sanitizedKey, p.output),
            Approve(p.r, p.artifact, true));
  }

  /** The steps of a continuation in order, from any state. */
  ghost function Play(cfg: Config, s: System, later: seq<Step>): System {
    if later == [] then s else Apply(cfg, Play(cfg, s, later[..|later| - 1]), later[|later| - 1])
  }

  lemma {:induction false} RunPlays(cfg: Config, steps: seq<Step>, later: seq<Step>)
    ensures Run(cfg, steps + later) == Play(cfg, Run(cfg, steps), later)
  {
    if later == [] {
      assert steps + later == steps;
    } else {
      RunPlays(cfg, steps, later[..|later| - 1]);
      Continue(cfg, steps, later);
    }
  }

  lemma {:induction false} PlayParts(cfg: Config, s: System, first: seq<Step>, rest: seq<Step>)
    ensures Play(cfg, s, first + rest) == Play(cfg, Play(cfg, s, first), rest)
  {
    if rest == [] {
      assert first + rest == first;
    } else {
      PlayParts(cfg, s, first, rest[..|rest| - 1]);
      PlayLast(cfg, s, first + rest);
      PlayLast(cfg, Play(cfg, s, first), rest);
      LastOfBoth(first, rest);
    }
  }

  lemma PlayLast(cfg: Config, s: System, later: seq<Step>)
    requires later != []
    ensures Play(cfg, s, later) == Apply(cfg, Play(cfg, s, later[..|later| - 1]), later[|later| - 1])
  {
  }

  lemma LastOfBoth(first: seq<Step>, rest: seq<Step>)
    requires rest != []
    ensures (first + rest)[..|first + rest| - 1] == first + rest[..|rest| - 1]
    ensures (first + rest)[|first + rest| - 1] == rest[|rest| - 1]
  {
  }

  lemma PlayOne(cfg: Config, s: System, a: Step)
    ensures Play(cfg, s, [a]) == Apply(cfg, s, a)
  {
    assert [a][..0] == [];
  }

  lemma PlayTwo(cfg: Config, s: System, a: Step, b: Step)
    ensures Play(cfg, s, [a, b]) == Apply(cfg, Apply(cfg, s, a), b)
  {
    PlayOne(cfg, s, a);
    assert [a, b][..1] == [a];
  }

  lemma PlayThree(cfg: Config, s: System, a: Step, b: Step, c: Step)
    ensures Play(cfg, s, [a, b, c]) == Apply(cfg, Apply(cfg, Apply(cfg, s, a), b), c)
  {
    PlayTwo(cfg, s, a, b);
    assert [a, b, c][..2] == [a, b];
  }

  lemma PlayFour(cfg: Config, s: System, a: Step, b: Step, c: Step, d: Step)
    ensures Play(cfg, s, [a, b, c, d]) == Apply(cfg, Apply(cfg, Apply(cfg, Apply(cfg, s, a), b), c), d)
  {
    PlayThree(cfg, s, a, b, c);
    assert [a, b, c, d][..3] == [a, b, c];
  }

  /**
   From any run in which the source is remediable and has no artifact yet, the steps of an
   undisturbed request end in exactly this: one artifact, one event and one answer more.
   */
  lemma CleanRequestIsApproved(cfg: Config, steps: seq<Step>, p: Plan)
    requires Deployed(cfg) && Ready(cfg, Run(cfg, steps), p)
    ensures Run(cfg, steps + Schedule(p)) == Approved(cfg, Run(cfg, steps), p)
  {
    var s := Run(cfg, steps);
    SourceEligible(cfg, steps, p.source, p.pageCount);
    RenderingPlays(cfg, s, p);
    StoringPlays(cfg, s, p);
    AnalyzingPlays(cfg, s, p);
    ApprovingPlays(cfg, s, p);
    RunFour(cfg, steps, Rendering(p), Storing(p), Analyzing(p), Approving(p));
  }

  /** A continuation in four parts. */
  lemma RunFour(cfg: Config, steps: seq<Step>, a: seq<Step>, b: seq<Step>, c: seq<Step>, d: seq<Step>)
    ensures Run(cfg, steps + (a + b + c + d)) == Play(cfg, Play(cfg, Play(cfg, Play(cfg, Run(cfg, steps), a), b), c), d)
  {
    RunPlays(cfg, steps, a + b + c + d);
    PlayParts(cfg, Run(cfg, steps), a + b + c, d);
    PlayParts(cfg, Run(cfg, steps), a + b, c);
    PlayParts(cfg, Run(cfg, steps), a, b);
  }

  // ---------------------------------------------------------------- reuse, and plain uploads

  lemma Reuses(cfg: Config, b: System, r: RequestId, source: ScanId, sanitizer: Sanitizer, a: ArtifactId)
    requires r !in b.requests && Reusable(cfg, b, a) && SamePair(b.artifacts[a], source, sanitizer)
    ensures Apply(cfg, At(b, r, CdrAccepted(source, sanitizer)), FindExisting(r, Some(a)))
            == b.(answers := b.answers + {Approval(source, sanitizer, a)})
  {
    assert b.requests[r := CdrAccepted(source, sanitizer)] - {r} == b.requests;
  }

  /** A later request for the same pair is answered with the artifact that is there, and changes nothing else. */
  lemma LaterRequestReuses(
    cfg: Config, steps: seq<Step>, r: RequestId, source: ScanId, sanitizer: Sanitizer, pageCount: int, a: ArtifactId)
    requires Deployed(cfg) && r !in Run(cfg, steps).requests && 1 <= pageCount <= cfg.maxPages
    requires source in Run(cfg, steps).scans && Remediable(Run(cfg, steps).scans[source])
    requires Reusable(cfg, Run(cfg, steps), a) && SamePair(Run(cfg, steps).artifacts[a], source, sanitizer)
    ensures var s := Run(cfg, steps);
            Run(cfg, steps + [RequestCdr(r, source, sanitizer), CheckEligibility(r, Some(pageCount), true),
                              FindExisting(r, Some(a))])
            == s.(answers := s.answers + {Approval(source, sanitizer, a)})
  {
    var s := Run(cfg, steps);
    SourceEligible(cfg, steps, source, pageCount);
    Accepts(cfg, s, r, source, sanitizer, pageCount);
    Reuses(cfg, s, r, source, sanitizer, a);
    var request, check := RequestCdr(r, source, sanitizer), CheckEligibility(r, Some(pageCount), true);
    RunPlays(cfg, steps, [request, check, FindExisting(r, Some(a))]);
    PlayThree(cfg, s, request, check, FindExisting(r, Some(a)));
  }

  lemma UploadRegisters(cfg: Config, b: System, r: RequestId, key: StorageKey, bytes: Bytes, id: ScanId)
    requires r !in b.requests && key !in b.keys && bytes != [] && id !in b.scans
    ensures var q := Draw(b.(quarantine := b.quarantine[key := bytes]), key);
            Apply(cfg, Apply(cfg, b, Upload(r, key, bytes)), Register(r, id))
            == At(q.(scans := b.scans[id := RegisteredRow(UPLOAD, None, key, cfg.Hash(bytes), |bytes|)]), r,
                  UploadRegistered(id))
  {
    var q := Draw(b.(quarantine := b.quarantine[key := bytes]), key);
    AtTwice(q.(scans := b.scans[id := RegisteredRow(UPLOAD, None, key, cfg.Hash(bytes), |bytes|)]), r,
            Uploaded(key, cfg.Hash(bytes), |bytes|), UploadRegistered(id));
  }

  lemma UploadFinishes(cfg: Config, b: System, r: RequestId, id: ScanId, outcome: Outcome)
    requires r !in b.requests && id in b.scans
    ensures Apply(cfg, Apply(cfg, At(b, r, UploadRegistered(id)), Begin(r)), Finish(r, outcome))
            == b.(scans := b.scans[id := cfg.Finished(AnalyzingRow(b.scans[id]), outcome)])
  {
    var analyzing := b.scans[id := AnalyzingRow(b.scans[id])];
    AtTwice(b.(scans := analyzing), r, UploadRegistered(id), UploadAnalyzing(id));
    Rewritten(b.scans, id, AnalyzingRow(b.scans[id]), cfg.Finished(AnalyzingRow(b.scans[id]), outcome));
    assert b.requests[r := UploadAnalyzing(id)] - {r} == b.requests;
  }

  /** An undisturbed upload leaves its file in quarantine and its row as the outcome judged it, and no request. */
  lemma CleanUploadIsJudged(
    cfg: Config, steps: seq<Step>, r: RequestId, key: StorageKey, bytes: Bytes, id: ScanId, outcome: Outcome)
    requires Deployed(cfg) && bytes != []
    requires var s := Run(cfg, steps); r !in s.requests && key !in s.keys && id !in s.scans
    ensures var s := Run(cfg, steps);
            var row := FinishedRow(AnalyzingRow(RegisteredRow(UPLOAD, None, key, cfg.Hash(bytes), |bytes|)), outcome);
            Run(cfg, steps + [Upload(r, key, bytes), Register(r, id), Begin(r), Finish(r, outcome)])
            == s.(quarantine := s.quarantine[key := bytes], keys := s.keys + {key}, scans := s.scans[id := row])
  {
    var s := Run(cfg, steps);
    var first := RegisteredRow(UPLOAD, None, key, cfg.Hash(bytes), |bytes|);
    var q := Draw(s.(quarantine := s.quarantine[key := bytes]), key);
    UploadRegisters(cfg, s, r, key, bytes, id);
    UploadFinishes(cfg, q.(scans := s.scans[id := first]), r, id, outcome);
    Rewritten(s.scans, id, first, FinishedRow(AnalyzingRow(first), outcome));
    RunPlays(cfg, steps, [Upload(r, key, bytes), Register(r, id), Begin(r), Finish(r, outcome)]);
    PlayFour(cfg, s, Upload(r, key, bytes), Register(r, id), Begin(r), Finish(r, outcome));
  }

  lemma SourceEligible(cfg: Config, steps: seq<Step>, source: ScanId, pageCount: int)
    requires Deployed(cfg) && source in Run(cfg, steps).scans && Remediable(Run(cfg, steps).scans[source])
    requires 1 <= pageCount <= cfg.maxPages
    ensures EligibilityReasons(Some(Run(cfg, steps).scans[source]), Some(pageCount), cfg.maxPages, true) == {}
  {
    RunInv(cfg, steps);
    RunEvaluations(cfg, steps);
    EligibleExactly(Run(cfg, steps).scans[source], Some(pageCount), cfg.maxPages, true);
  }
}
