/**
 Every step of the transition system keeps the invariant, so it holds in every run.
 */
module CdrRuns {
  import opened Wrappers
  import opened PolicyEngine
  import opened ShippedPolicy
  import opened ScanRecords
  import opened CdrProtocol
  import opened CdrSafety

  // ---------------------------------------------------------------- the invariant holds in every run

  lemma UploadStepKeeps(cfg: Config, s: System, r: RequestId, key: StorageKey, bytes: Bytes)
    requires Inv(cfg, s)
    ensures Inv(cfg, Apply(cfg, s, Upload(r, key, bytes)))
  {
    if !(r in s.requests || key in s.keys || bytes == []) {
      UploadKeeps(cfg, s, r, key, bytes);
    }
  }

  lemma UploadKeeps(cfg: Config, s: System, r: RequestId, key: StorageKey, bytes: Bytes)
    requires Inv(cfg, s) && r !in s.requests
    ensures Inv(cfg, At(Draw(s.(quarantine := s.quarantine[key := bytes]), key), r,
                        Uploaded(key, cfg.Hash(bytes), |bytes|)))
  {
    SetQuarantine(cfg, s, s.quarantine[key := bytes], key);
    MoveTo(cfg, Draw(s.(quarantine := s.quarantine[key := bytes]), key), r, Uploaded(key, cfg.Hash(bytes), |bytes|));
  }

  lemma RegisterStepKeeps(cfg: Config, s: System, r: RequestId, id: ScanId)
    requires Inv(cfg, s)
    ensures Inv(cfg, Apply(cfg, s, Register(r, id)))
  {
    if r in s.requests && id !in s.scans { RegisterKeeps(cfg, s, r, id); }
  }

  lemma BeginStepKeeps(cfg: Config, s: System, r: RequestId)
    requires Inv(cfg, s)
    ensures Inv(cfg, Apply(cfg, s, Begin(r)))
  {
    if r in s.requests { BeginKeeps(cfg, s, r); }
  }

  lemma FinishStepKeeps(cfg: Config, s: System, r: RequestId, outcome: Outcome)
    requires Inv(cfg, s) && FinishSound(cfg)
    ensures Inv(cfg, Apply(cfg, s, Finish(r, outcome)))
  {
    if r in s.requests { FinishKeeps(cfg, s, r, outcome); }
  }

  lemma RecoverStepKeeps(cfg: Config, s: System, id: ScanId)
    requires Inv(cfg, s)
    ensures Inv(cfg, Apply(cfg, s, Recover(id)))
  {
    if id in s.scans && s.scans[id].state == ANALYZING { RecoverKeeps(cfg, s, id); }
  }

  lemma RequestCdrStepKeeps(cfg: Config, s: System, r: RequestId, source: ScanId, sanitizer: Sanitizer)
    requires Inv(cfg, s)
    ensures Inv(cfg, Apply(cfg, s, RequestCdr(r, source, sanitizer)))
  {
    if r !in s.requests { MoveTo(cfg, s, r, CdrRequested(source, sanitizer)); }
  }

  lemma CheckEligibilityStepKeeps(cfg: Config, s: System, r: RequestId, pageCount: Option<int>, intact: bool)
    requires Inv(cfg, s)
    ensures Inv(cfg, Apply(cfg, s, CheckEligibility(r, pageCount, intact)))
  {
    if r in s.requests { CheckEligibilityKeeps(cfg, s, r, pageCount, intact); }
  }

  lemma CheckEligibilityKeeps(cfg: Config, s: System, r: RequestId, pageCount: Option<int>, intact: bool)
    requires Inv(cfg, s) && r in s.requests
    ensures Inv(cfg, CheckEligibilityStep(cfg, s, r, pageCount, intact))
  {
    CheckEligibilityShape(cfg, s, r, pageCount, intact);
    var s' := CheckEligibilityStep(cfg, s, r, pageCount, intact);
    if s' != s {
      CheckedFits(cfg, s, r, pageCount, intact);
      StepsKeep(cfg, s, s', r);
    }
  }

  /** A request is accepted only for a source that is fit. */
  lemma CheckedFits(cfg: Config, s: System, r: RequestId, pageCount: Option<int>, intact: bool)
    requires ScansValid(s) && r in s.requests && s.requests[r].CdrRequested?
    ensures var s' := CheckEligibilityStep(cfg, s, r, pageCount, intact);
            s' == End(s, r) || SourceFit(s.scans, s.requests[r].source)
  {
    var source := s.requests[r].source;
    if source in s.scans {
      EligibleExactly(s.scans[source], pageCount, cfg.maxPages, intact);
    } else {
      assert EligibilityReasons(None, pageCount, cfg.maxPages, intact) == {ScanNotFound};
    }
  }

  lemma FindExistingStepKeeps(cfg: Config, s: System, r: RequestId, found: Option<ArtifactId>)
    requires Inv(cfg, s)
    ensures Inv(cfg, Apply(cfg, s, FindExisting(r, found)))
  {
    if r in s.requests { FindExistingKeeps(cfg, s, FindExistingStep(cfg, s, r, found), r, found); }
  }

  lemma FindExistingKeeps(cfg: Config, s: System, s': System, r: RequestId, found: Option<ArtifactId>)
    requires Inv(cfg, s) && r in s.requests && s' == FindExistingStep(cfg, s, r, found)
    ensures Inv(cfg, s')
  {
    FindExistingShape(cfg, s, r, found);
    if s' != s {
      if Steps(s, s', r) {
        StepsKeep(cfg, s, s', r);
      } else {
        var source, sanitizer, a :|
          HeldAt(s, r) == None && a in s.artifacts && SamePair(s.artifacts[a], source, sanitizer)
          && s' == Answer(s, r, source, sanitizer, a);
        AnswerKeeps(cfg, s, r, source, sanitizer, a);
      }
    }
  }

  lemma RenderStepKeeps(cfg: Config, s: System, r: RequestId, output: Bytes)
    requires Inv(cfg, s)
    ensures Inv(cfg, Apply(cfg, s, Render(r, output)))
  {
    if r in s.requests { RenderKeeps(cfg, s, r, output); }
  }

  lemma StoreDerivedStepKeeps(cfg: Config, s: System, r: RequestId, key: StorageKey, copied: Bytes)
    requires Inv(cfg, s)
    ensures Inv(cfg, Apply(cfg, s, StoreDerived(r, key, copied)))
  {
    if r in s.requests && key !in s.keys { StoreDerivedKeeps(cfg, s, r, key, copied); }
  }

  lemma ReadDerivedStepKeeps(cfg: Config, s: System, r: RequestId)
    requires Inv(cfg, s)
    ensures Inv(cfg, Apply(cfg, s, ReadDerived(r)))
  {
    if r in s.requests { ReadDerivedKeeps(cfg, s, r); }
  }

  lemma PromoteStepKeeps(cfg: Config, s: System, r: RequestId, key: StorageKey, copied: Bytes)
    requires Inv(cfg, s) && CollisionFree(cfg)
    ensures Inv(cfg, Apply(cfg, s, Promote(r, key, copied)))
  {
    if r in s.requests && key !in s.keys { PromoteKeeps(cfg, s, r, key, copied); }
  }

  lemma StrandCopyStepKeeps(cfg: Config, s: System, r: RequestId, key: StorageKey, copied: Bytes)
    requires Inv(cfg, s)
    ensures Inv(cfg, Apply(cfg, s, StrandCopy(r, key, copied)))
  {
    if r in s.requests && s.requests[r].CdrApprovable? && key !in s.keys {
      AddFileKeeps(cfg, s, Apply(cfg, s, StrandCopy(r, key, copied)), r, None, key, copied);
    }
  }

  lemma ApproveStepKeeps(cfg: Config, s: System, r: RequestId, artifact: ArtifactId, unlinked: bool)
    requires Inv(cfg, s)
    ensures Inv(cfg, Apply(cfg, s, Approve(r, artifact, unlinked)))
  {
    if r in s.requests && artifact !in s.artifacts { ApproveKeeps(cfg, s, r, artifact, unlinked); }
  }

  lemma FailStepKeeps(cfg: Config, s: System, r: RequestId, unlinked: bool)
    requires Inv(cfg, s)
    ensures Inv(cfg, Apply(cfg, s, Fail(r, unlinked)))
  {
    if r in s.requests {
      FailShape(s, r, unlinked);
      FailKeeps(cfg, s, FailStep(s, r, unlinked), r, unlinked);
    }
  }

  lemma CrashStepKeeps(cfg: Config, s: System, r: RequestId)
    requires Inv(cfg, s)
    ensures Inv(cfg, Apply(cfg, s, Crash(r)))
  {
    if r in s.requests { CrashKeeps(cfg, s, r); }
  }

  lemma DamageStepKeeps(cfg: Config, s: System, key: StorageKey, bytes: Bytes)
    requires Inv(cfg, s)
    ensures Inv(cfg, Apply(cfg, s, Damage(key, bytes)))
  {
    if key in s.sanitized { DamageKeeps(cfg, s, Apply(cfg, s, Damage(key, bytes)), key, bytes); }
  }

  lemma StepKeeps(cfg: Config, s: System, step: Step)
    requires Inv(cfg, s) && CollisionFree(cfg) && FinishSound(cfg)
    ensures Inv(cfg, Apply(cfg, s, step))
  {
    match step
    case Upload(r, key, bytes) => UploadStepKeeps(cfg, s, r, key, bytes);
    case Register(r, id) => RegisterStepKeeps(cfg, s, r, id);
    case Begin(r) => BeginStepKeeps(cfg, s, r);
    case Finish(r, outcome) => FinishStepKeeps(cfg, s, r, outcome);
    case Recover(id) => RecoverStepKeeps(cfg, s, id);
    case RequestCdr(r, source, sanitizer) => RequestCdrStepKeeps(cfg, s, r, source, sanitizer);
    case CheckEligibility(r, pageCount, intact) => CheckEligibilityStepKeeps(cfg, s, r, pageCount, intact);
    case FindExisting(r, found) => FindExistingStepKeeps(cfg, s, r, found);
    case Render(r, output) => RenderStepKeeps(cfg, s, r, output);
    case StoreDerived(r, key, copied) => StoreDerivedStepKeeps(cfg, s, r, key, copied);
    case ReadDerived(r) => ReadDerivedStepKeeps(cfg, s, r);
    case Promote(r, key, copied) => PromoteStepKeeps(cfg, s, r, key, copied);
    case StrandCopy(r, key, copied) => StrandCopyStepKeeps(cfg, s, r, key, copied);
    case Approve(r, artifact, unlinked) => ApproveStepKeeps(cfg, s, r, artifact, unlinked);
    case Fail(r, unlinked) => FailStepKeeps(cfg, s, r, unlinked);
    case Crash(r) => CrashStepKeeps(cfg, s, r);
    case Damage(key, bytes) => DamageStepKeeps(cfg, s, key, bytes);
  }

  lemma {:induction false} SoundRunInv(cfg: Config, steps: seq<Step>)
    requires CollisionFree(cfg) && FinishSound(cfg)
    ensures Inv(cfg, Run(cfg, steps))
  {
    if steps != [] {
      var before := steps[..|steps| - 1];
      SoundRunInv(cfg, before);
      StepKeeps(cfg, Run(cfg, before), steps[|steps| - 1]);
    }
  }

  /** The invariant holds after every run of the deployed system. */
  lemma RunInv(cfg: Config, steps: seq<Step>)
    requires Deployed(cfg)
    ensures Inv(cfg, Run(cfg, steps))
  {
    DeployedFinishSound(cfg);
    SoundRunInv(cfg, steps);
  }
}
