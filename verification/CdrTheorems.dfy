/**
 The gateway's safety theorems, over every run of the transition system.
 */
module CdrTheorems {
  import opened Wrappers
  import opened PolicyEngine
  import opened PolicyProperties
  import opened ShippedPolicy
  import opened ScanRecords
  import opened CdrProtocol
  import opened CdrSafety
  import opened CdrHistory
  import opened CdrRuns

  // ---------------------------------------------------------------- recovery is final

  /**
   Once recovery has taken a stale scan, whatever happens later, a late worker's SUCCESS
   included, the scan stays quarantined, unreleased, and ineligible for CDR.
   */
  lemma RecoveryIsFinal(cfg: Config, steps: seq<Step>, id: ScanId, later: seq<Step>)
    requires Deployed(cfg)
    requires id in Run(cfg, steps).scans && Run(cfg, steps).scans[id].state == ANALYZING
    ensures var s := Run(cfg, steps + [Recover(id)] + later);
            && id in s.scans && Recovered(s.scans[id])
            && forall pageCount, intact ::
                 EligibilityReasons(Some(s.scans[id]), pageCount, cfg.maxPages, intact) != {}
  {
    RunStep(cfg, steps, Recover(id));
    RunAccumulates(cfg, steps + [Recover(id)], later);
    RunInv(cfg, steps + [Recover(id)] + later);
    var s := Run(cfg, steps + [Recover(id)] + later);
    assert id in s.recoveries;
    forall pageCount, intact
      ensures EligibilityReasons(Some(s.scans[id]), pageCount, cfg.maxPages, intact) != {}
    {
      RecoveredIneligible(s.scans[id], pageCount, cfg.maxPages, intact);
    }
  }

  lemma RecoveredIneligible(row: ScanRow, pageCount: Option<int>, maxPages: int, intact: bool)
    requires Recovered(row)
    ensures AnalysisIncomplete in EligibilityReasons(Some(row), pageCount, maxPages, intact)
  {
  }

  // ---------------------------------------------------------------- judged rows are final

  lemma JudgedKept(cfg: Config, s: System, s': System, step: Step, id: ScanId)
    requires Inv(cfg, s) && s' == Apply(cfg, s, step) && id in s.scans && Judged(s.scans[id])
    ensures id in s'.scans && s'.scans[id] == s.scans[id]
  {
    RowsWritten(cfg, s, s', step, id);
    if (step.Begin? || step.Finish?) && PendingAt(s, step.r) == Some(id) {
      assert RequestValid(cfg, s.scans, s.requests[step.r]);
    }
  }

  /** A row with a recorded evaluation is never written again. */
  lemma {:induction false} JudgedIsFinal(cfg: Config, steps: seq<Step>, later: seq<Step>, id: ScanId)
    requires Deployed(cfg)
    requires id in Run(cfg, steps).scans && Judged(Run(cfg, steps).scans[id])
    ensures id in Run(cfg, steps + later).scans
    ensures Run(cfg, steps + later).scans[id] == Run(cfg, steps).scans[id]
  {
    if later == [] {
      assert steps + later == steps;
    } else {
      var before := later[..|later| - 1];
      JudgedIsFinal(cfg, steps, before, id);
      RunInv(cfg, steps + before);
      Continue(cfg, steps, later);
      JudgedKept(cfg, Run(cfg, steps + before), Run(cfg, steps + later), later[|later| - 1], id);
    }
  }

  // ---------------------------------------------------------------- lineage

  /** In every run, every artifact row passes the download-time lineage check. */
  lemma LineageHolds(cfg: Config, steps: seq<Step>, a: ArtifactId)
    requires Deployed(cfg) && a in Run(cfg, steps).artifacts
    ensures var s := Run(cfg, steps);
            var artifact := s.artifacts[a];
            && artifact.scan in s.scans && artifact.derived in s.scans && artifact.scan != artifact.derived
            && ValidLineage(artifact, artifact.scan, artifact.derived, s.scans[artifact.derived])
  {
    RunInv(cfg, steps);
  }

  /** No step taken for a CDR request writes the row of its source scan. */
  lemma SourceUntouched(cfg: Config, steps: seq<Step>, step: Step, r: RequestId, source: ScanId)
    requires Deployed(cfg)
    requires Actor(step) == Some(r) && r in Run(cfg, steps).requests
    requires SourceOf(Run(cfg, steps).requests[r]) == Some(source) && source in Run(cfg, steps).scans
    ensures source in Run(cfg, steps + [step]).scans
    ensures Run(cfg, steps + [step]).scans[source] == Run(cfg, steps).scans[source]
  {
    var s := Run(cfg, steps);
    RunInv(cfg, steps);
    RunStep(cfg, steps, step);
    RowsWritten(cfg, s, Run(cfg, steps + [step]), step, source);
    assert RequestValid(cfg, s.scans, s.requests[r]);
  }

  // ---------------------------------------------------------------- only remediable sources

  /** In every run, every CDR request past its eligibility check has a remediable source, whose row is final. */
  lemma RequestsAreRemediable(cfg: Config, steps: seq<Step>, r: RequestId)
    requires Deployed(cfg) && r in Run(cfg, steps).requests
    ensures var s := Run(cfg, steps);
            var source := SourceOf(s.requests[r]);
            source.Some? && !s.requests[r].CdrRequested? ==>
              source.value in s.scans && Judged(s.scans[source.value]) && Remediable(s.scans[source.value])
  {
    RunInv(cfg, steps);
    assert RequestValid(cfg, Run(cfg, steps).scans, Run(cfg, steps).requests[r]);
  }

  /** So has every artifact row, in the run that inserted it and in every continuation. */
  lemma ArtifactsAreRemediable(cfg: Config, steps: seq<Step>, later: seq<Step>, a: ArtifactId)
    requires Deployed(cfg) && a in Run(cfg, steps).artifacts
    ensures var source := Run(cfg, steps).artifacts[a].scan;
            && source in Run(cfg, steps).scans && Remediable(Run(cfg, steps).scans[source])
            && source in Run(cfg, steps + later).scans
            && Run(cfg, steps + later).scans[source] == Run(cfg, steps).scans[source]
  {
    RunInv(cfg, steps);
    assert ArtifactValid(Run(cfg, steps).scans, Run(cfg, steps).artifacts[a]);
    JudgedIsFinal(cfg, steps, later, Run(cfg, steps).artifacts[a].scan);
  }

  /** And every approved answer ever given. */
  lemma AnswersAreRemediable(cfg: Config, steps: seq<Step>, x: Approval)
    requires Deployed(cfg) && x in Run(cfg, steps).answers
    ensures x.source in Run(cfg, steps).scans && Remediable(Run(cfg, steps).scans[x.source])
  {
    AnswerNamesRow(cfg, steps, x);
    ArtifactsAreRemediable(cfg, steps, [], x.artifact);
  }

  /**
   The eligibility check, exactly: a request goes on when its source is remediable, its page
   count within range and its file intact, and ends otherwise.
   */
  lemma EligibilityDecides(
    cfg: Config, steps: seq<Step>, r: RequestId, source: ScanId, sanitizer: Sanitizer, pageCount: Option<int>, intact: bool)
    requires Deployed(cfg) && r in Run(cfg, steps).requests
    requires Run(cfg, steps).requests[r] == CdrRequested(source, sanitizer)
    ensures var s, s' := Run(cfg, steps), Run(cfg, steps + [CheckEligibility(r, pageCount, intact)]);
            if && source in s.scans && Remediable(s.scans[source])
               && pageCount.Some? && 1 <= pageCount.value <= cfg.maxPages && intact
            then s' == At(s, r, CdrAccepted(source, sanitizer)) else s' == End(s, r)
  {
    var s := Run(cfg, steps);
    RunInv(cfg, steps);
    RunEvaluations(cfg, steps);
    RunStep(cfg, steps, CheckEligibility(r, pageCount, intact));
    if source in s.scans {
      EligibleExactly(s.scans[source], pageCount, cfg.maxPages, intact);
    } else {
      assert EligibilityReasons(None, pageCount, cfg.maxPages, intact) == {ScanNotFound};
    }
  }

  // ---------------------------------------------------------------- persisted policy agreement

  lemma StepEvaluations(cfg: Config, s: System, s': System, step: Step)
    requires Deployed(cfg) && EvaluationsValid(s) && s' == Apply(cfg, s, step)
    ensures EvaluationsValid(s')
  {
    forall id | id in s'.scans ensures EvaluationValid(s'.scans[id]) {
      RowsWritten(cfg, s, s', step, id);
      if step.Finish? && id in s.scans {
        assert cfg.Finished(s.scans[id], step.outcome) == FinishedRow(s.scans[id], step.outcome);
        FinishedRowJudged(s.scans[id], step.outcome);
      }
    }
  }

  lemma {:induction false} RunEvaluations(cfg: Config, steps: seq<Step>)
    requires Deployed(cfg)
    ensures EvaluationsValid(Run(cfg, steps))
  {
    if steps != [] {
      var before := steps[..|steps| - 1];
      RunEvaluations(cfg, before);
      StepEvaluations(cfg, Run(cfg, before), Run(cfg, steps), steps[|steps| - 1]);
    }
  }

  /**
   In every run a scan row is unjudged, quarantined by default and unreleased, or its policy
   columns are its stored evaluation's, released exactly for ALLOW and COMPLETED exactly for
   ALLOW or REVIEW; either way the API accepts what was stored.
   */
  lemma PersistedAgreement(cfg: Config, steps: seq<Step>, id: ScanId)
    requires Deployed(cfg) && id in Run(cfg, steps).scans
    ensures var row := Run(cfg, steps).scans[id];
            && PersistedEvaluation(row) == row.evaluation
            && (row.releaseEligible <==> row.decision == ALLOW)
            && (row.state == COMPLETED <==> row.decision == ALLOW || row.decision == REVIEW)
            && (row.evaluation == None ==> row.decision == QUARANTINE && !row.releaseEligible)
            && (row.evaluation.Some? ==> Judged(row))
  {
    RunInv(cfg, steps);
    RunEvaluations(cfg, steps);
    NeverRejected(Run(cfg, steps).scans[id]);
  }

  // ---------------------------------------------------------------- files, rows, events and answers

  function StoredKeys(s: System): set<StorageKey> {
    set a | a in s.artifacts :: s.artifacts[a].storageKey
  }

  /** Rows and CDR_APPROVED events are one-to-one, with at most one row for a pair. */
  lemma OneRowOneEvent(cfg: Config, steps: seq<Step>)
    requires Deployed(cfg)
    ensures var s := Run(cfg, steps);
            && (forall a :: a in s.approved <==> a in s.artifacts)
            && |s.approved| == |s.artifacts|
            && (forall a, b ::
                  (a in s.artifacts && b in s.artifacts
                   && SamePair(s.artifacts[a], s.artifacts[b].scan, s.artifacts[b].sanitizer)) ==> a == b)
  {
    RunInv(cfg, steps);
    var s := Run(cfg, steps);
    DistinctCount(s.approved, s.artifacts.Keys);
  }

  lemma {:induction false} DistinctCount(xs: seq<ArtifactId>, keys: set<ArtifactId>)
    requires forall i, j :: 0 <= i < j < |xs| ==> xs[i] != xs[j]
    requires forall a :: a in xs <==> a in keys
    ensures |xs| == |keys|
  {
    if xs == [] {
      assert keys == {} by { forall a ensures a !in keys { assert a !in xs; } }
    } else {
      assert xs == [xs[0]] + xs[1..];
      forall a ensures a in xs[1..] <==> a in keys - {xs[0]} { assert a in xs <==> a in keys; }
      assert xs[0] in keys;
      DistinctCount(xs[1..], keys - {xs[0]});
    }
  }

  /** The file an artifact row names is always there. */
  lemma RowsHaveFiles(cfg: Config, steps: seq<Step>)
    requires Deployed(cfg)
    ensures StoredKeys(Run(cfg, steps)) <= Run(cfg, steps).sanitized.Keys
  {
    RunInv(cfg, steps);
  }

  /** No step of the run leaves a file behind that no row names. */
  ghost predicate NothingStranded(cfg: Config, steps: seq<Step>) {
    steps == []
    || (NothingStranded(cfg, steps[..|steps| - 1])
        && !Strands(Run(cfg, steps[..|steps| - 1]), steps[|steps| - 1]))
  }

  /** The history flag says exactly that. */
  lemma {:induction false} OrderlyExactly(cfg: Config, steps: seq<Step>)
    ensures Run(cfg, steps).orderly <==> NothingStranded(cfg, steps)
  {
    if steps != [] {
      var before := steps[..|steps| - 1];
      OrderlyExactly(cfg, before);
      RowsWritten(cfg, Run(cfg, before), Run(cfg, steps), steps[|steps| - 1], 0);
    }
  }

  /**
   With no request in flight and no file stranded on the way, the sanitized files and the
   artifact rows correspond exactly.
   */
  lemma StoreAgreesWithDatabase(cfg: Config, steps: seq<Step>)
    requires Deployed(cfg)
    requires Run(cfg, steps).requests == map[] && NothingStranded(cfg, steps)
    ensures Run(cfg, steps).sanitized.Keys == StoredKeys(Run(cfg, steps))
    ensures |Run(cfg, steps).sanitized.Keys| == |Run(cfg, steps).artifacts.Keys|
  {
    RunInv(cfg, steps);
    OrderlyExactly(cfg, steps);
    SettledStore(cfg, Run(cfg, steps));
  }

  lemma SettledStore(cfg: Config, s: System)
    requires FilesValid(cfg, s) && s.requests == map[] && s.orderly
    ensures s.sanitized.Keys == StoredKeys(s) && |s.sanitized.Keys| == |s.artifacts.Keys|
  {
    forall key | key in s.sanitized ensures key in StoredKeys(s) {
      assert !Held(s, key);
      assert Stored(s, key);
    }
    KeyCount(s.artifacts, s.artifacts.Keys);
  }

  lemma {:induction false} KeyCount(artifacts: map<ArtifactId, ArtifactRow>, ids: set<ArtifactId>)
    requires ids <= artifacts.Keys
    requires forall a, b :: a in artifacts && b in artifacts && a != b ==>
               artifacts[a].storageKey != artifacts[b].storageKey
    ensures |set a | a in ids :: artifacts[a].storageKey| == |ids|
  {
    var image := set a | a in ids :: artifacts[a].storageKey;
    if ids == {} {
      assert image == {};
    } else {
      var a :| a in ids;
      KeyCount(artifacts, ids - {a});
      var rest := set b | b in ids - {a} :: artifacts[b].storageKey;
      assert image == rest + {artifacts[a].storageKey};
    }
  }

  /** Every approved answer ever given for a pair, first or reused, names the same lasting row. */
  lemma AnswersAgree(cfg: Config, steps: seq<Step>, later: seq<Step>, x: Approval, y: Approval)
    requires Deployed(cfg)
    requires x in Run(cfg, steps).answers && y in Run(cfg, steps + later).answers
    requires x.source == y.source && x.sanitizer == y.sanitizer
    ensures x.artifact == y.artifact && x.artifact in Run(cfg, steps).artifacts
    ensures x.artifact in Run(cfg, steps + later).artifacts
    ensures Run(cfg, steps + later).artifacts[x.artifact] == Run(cfg, steps).artifacts[x.artifact]
  {
    AnswerNamesRow(cfg, steps, x);
    AnswerNamesRow(cfg, steps + later, y);
    RunAccumulates(cfg, steps, later);
    OneRowOneEvent(cfg, steps + later);
  }

  lemma AnswerNamesRow(cfg: Config, steps: seq<Step>, x: Approval)
    requires Deployed(cfg) && x in Run(cfg, steps).answers
    ensures x.artifact in Run(cfg, steps).artifacts
    ensures SamePair(Run(cfg, steps).artifacts[x.artifact], x.source, x.sanitizer)
  {
    RunInv(cfg, steps);
  }
}
