/**
 Properties of the policy engine for every registry its own validation accepts.
 */
module PolicyProperties {
  import opened Wrappers
  import opened Ordering
  import opened PolicyEngine

  // ---------------------------------------------------------------- meaning of an evaluation

  ghost predicate HasHardBlock<C(!new)>(reg: Registry<C>, codes: seq<C>)
    requires Registered(reg, codes)
  {
    exists code :: code in codes && reg.findings[code].hardBlock
  }

  ghost predicate HasQuarantineMinimum<C(!new)>(reg: Registry<C>, codes: seq<C>)
    requires Registered(reg, codes)
  {
    || (exists code :: code in codes && reg.findings[code].minimum == Some(QUARANTINE))
    || (exists k :: k in reg.compounds && Fires(k, codes) && k.minimum == Some(QUARANTINE))
  }

  /** The uncapped score: what the findings and the compound rules they fire contribute. */
  ghost function Points<C>(reg: Registry<C>, codes: seq<C>): int
    requires Registered(reg, codes)
  {
    Total(CodePoints(reg, codes)) + Total(CompoundPoints(Triggered(reg.compounds, codes)))
  }

  lemma {:induction false} WithMinimumMembers<C(!new)>(reg: Registry<C>, codes: seq<C>, m: Decision)
    requires Registered(reg, codes)
    ensures forall x :: x in WithMinimum(reg, codes, m) <==> x in codes && reg.findings[x].minimum == Some(m)
    ensures |WithMinimum(reg, codes, m)| <= |codes|
  {
    if codes != [] {
      WithMinimumMembers(reg, codes[1..], m);
      assert codes == [codes[0]] + codes[1..];
    }
  }

  lemma {:induction false} HardBlockingMembers<C(!new)>(reg: Registry<C>, codes: seq<C>)
    requires Registered(reg, codes)
    ensures forall x :: x in HardBlocking(reg, codes) <==> x in codes && reg.findings[x].hardBlock
  {
    if codes != [] {
      HardBlockingMembers(reg, codes[1..]);
      assert codes == [codes[0]] + codes[1..];
    }
  }

  lemma {:induction false} QuarantineNamesMembers<C(!new)>(ks: seq<CompoundPolicy<C>>)
    ensures forall x :: x in QuarantineNames(ks) <==> exists k :: k in ks && k.name == x && k.minimum == Some(QUARANTINE)
    ensures |QuarantineNames(ks)| <= |ks|
  {
    if ks != [] {
      QuarantineNamesMembers(ks[1..]);
      assert ks == [ks[0]] + ks[1..];
    }
  }

  lemma NonEmpty<C(!new)>(s: seq<C>)
    ensures s != [] <==> exists x :: x in s
  {
    if s != [] { assert s[0] in s; }
  }

  lemma QuarantineMinimumNames<C(!new)>(reg: Registry<C>, codes: seq<C>)
    requires Registered(reg, codes)
    ensures HasQuarantineMinimum(reg, codes) <==>
            WithMinimum(reg, codes, QUARANTINE) != [] || QuarantineNames(Triggered(reg.compounds, codes)) != []
  {
    var triggered := Triggered(reg.compounds, codes);
    WithMinimumMembers(reg, codes, QUARANTINE);
    NonEmpty(WithMinimum(reg, codes, QUARANTINE));
    QuarantineNamesMembers(triggered);
    NonEmpty(QuarantineNames(triggered));
    TriggeredCorrect(reg.compounds, codes);
    forall k | k in reg.compounds && Fires(k, codes) && k.minimum == Some(QUARANTINE)
      ensures QuarantineNames(triggered) != []
    {
      assert k in triggered;
      assert k.name in QuarantineNames(triggered);
    }
  }

  lemma MandatoryMeaning<C(!new)>(reg: Registry<C>, codes: seq<C>, reasons: seq<C>)
    requires Ordered(reg) && Registered(reg, codes)
    ensures SortUnique(reg.before, MandatoryNames(reg, codes, reasons)) != []
       <==> HasQuarantineMinimum(reg, codes) || reasons != []
  {
    var names := MandatoryNames(reg, codes, reasons);
    QuarantineMinimumNames(reg, codes);
    SortUniqueCorrect(reg.before, names);
    NonEmpty(names);
    NonEmpty(SortUnique(reg.before, names));
  }

  /** What decides score, band, completeness and decision, in terms of the code set alone. */
  lemma AssessMeaning<C(!new)>(
    reg: Registry<C>, result: Option<AnalysisResult<C>>, failure: Option<FailureCode>, state: ScanState)
    requires Ordered(reg) && ValidRegistry(reg) && Registered(reg, FindingCodes(reg, result))
    ensures
      var e := Assess(reg, result, failure, state);
      var codes := FindingCodes(reg, result);
      && e.score == Min(100, Points(reg, codes)) && e.score >= 0
      && (e.complete <==> CompletenessReasons(reg, result, failure, state) == [])
      && (e.hardBlocks != [] <==> HasHardBlock(reg, codes))
      && e.decision == Decide(
           HasHardBlock(reg, codes), HasQuarantineMinimum(reg, codes) || !e.complete, e.score)
  {
    var codes := FindingCodes(reg, result);
    var triggered := Triggered(reg.compounds, codes);
    MandatoryMeaning(reg, codes, ReasonNames(reg, CompletenessReasons(reg, result, failure, state)));
    HardBlockingMembers(reg, codes);
    SortUniqueCorrect(reg.before, HardBlocking(reg, codes));
    NonEmpty(HardBlocking(reg, codes));
    NonEmpty(SortUnique(reg.before, HardBlocking(reg, codes)));
    TotalOfSort((a: Contribution<C>, b: Contribution<C>) => reg.before(a.code, b.code),
                CodePoints(reg, codes) + CompoundPoints(triggered));
    TotalOfConcat(CodePoints(reg, codes), CompoundPoints(triggered));
    TotalNonNegative(reg, codes, triggered);
  }

  /** Some compound rule of this name fires. */
  ghost predicate FiredAs<C(!new)>(reg: Registry<C>, codes: seq<C>, name: C) {
    exists k :: k in reg.compounds && Fires(k, codes) && k.name == name
  }

  /** Some compound rule of this name fires and quarantines. */
  ghost predicate QuarantinesAs<C(!new)>(reg: Registry<C>, codes: seq<C>, name: C) {
    exists k :: k in reg.compounds && Fires(k, codes) && k.name == name && k.minimum == Some(QUARANTINE)
  }

  /** This is the name of a reason for incompleteness. */
  ghost predicate IncompleteAs<C(!new)>(reg: Registry<C>, reasons: seq<AnalysisReason>, name: C) {
    exists i :: 0 <= i < |reasons| && reg.reasonName(reasons[i]) == name
  }

  /** The band and the four lists of names of an evaluation, as sets of codes. */
  lemma AssessNames<C(!new)>(
    reg: Registry<C>, result: Option<AnalysisResult<C>>, failure: Option<FailureCode>, state: ScanState)
    requires Ordered(reg) && ValidRegistry(reg) && Registered(reg, FindingCodes(reg, result))
    ensures
      var e := Assess(reg, result, failure, state);
      var codes := FindingCodes(reg, result);
      var reasons := CompletenessReasons(reg, result, failure, state);
      && (e.band == LOW <==> e.score < 20) && (e.band == MODERATE <==> 20 <= e.score < 40)
      && (e.band == HIGH <==> 40 <= e.score < 70) && (e.band == CRITICAL <==> 70 <= e.score)
      && (forall c :: c in e.hardBlocks <==> c in codes && reg.findings[c].hardBlock)
      && (forall c :: c in e.mandatory <==>
            || (c in codes && reg.findings[c].minimum == Some(QUARANTINE))
            || QuarantinesAs(reg, codes, c) || IncompleteAs(reg, reasons, c))
      && (forall c :: c in e.compoundRules <==> FiredAs(reg, codes, c))
      && (forall c :: c in e.decisionReasons <==> c in codes || FiredAs(reg, codes, c) || IncompleteAs(reg, reasons, c))
  {
    var codes := FindingCodes(reg, result);
    var triggered := Triggered(reg.compounds, codes);
    var reasons := CompletenessReasons(reg, result, failure, state);
    HardBlockingMembers(reg, codes);
    SortUniqueCorrect(reg.before, HardBlocking(reg, codes));
    MandatoryMembers(reg, codes, reasons);
    SortUniqueCorrect(reg.before, MandatoryNames(reg, codes, ReasonNames(reg, reasons)));
    NamesMembers(reg, codes);
    SortPermutes(reg.before, Names(triggered));
    ReasonMembers(reg, reasons);
    SortPermutes(reg.before, codes + Names(triggered) + ReasonNames(reg, reasons));
  }

  lemma NamesMembers<C(!new)>(reg: Registry<C>, codes: seq<C>)
    ensures forall c :: c in Names(Triggered(reg.compounds, codes)) <==> FiredAs(reg, codes, c)
  {
    var triggered := Triggered(reg.compounds, codes);
    TriggeredCorrect(reg.compounds, codes);
    forall c ensures c in Names(triggered) <==> FiredAs(reg, codes, c) {
      if k :| k in reg.compounds && Fires(k, codes) && k.name == c {
        assert k in triggered;
        var i :| 0 <= i < |triggered| && triggered[i] == k;
        assert Names(triggered)[i] == c;
      }
      if i :| 0 <= i < |Names(triggered)| && Names(triggered)[i] == c {
        assert triggered[i] in triggered;
      }
    }
  }

  lemma ReasonMembers<C(!new)>(reg: Registry<C>, reasons: seq<AnalysisReason>)
    ensures forall c :: c in ReasonNames(reg, reasons) <==> IncompleteAs(reg, reasons, c)
  {
    forall c ensures c in ReasonNames(reg, reasons) <==> IncompleteAs(reg, reasons, c) {
      if i :| 0 <= i < |reasons| && reg.reasonName(reasons[i]) == c {
        assert ReasonNames(reg, reasons)[i] == c;
      }
    }
  }

  lemma MandatoryMembers<C(!new)>(reg: Registry<C>, codes: seq<C>, reasons: seq<AnalysisReason>)
    requires Registered(reg, codes)
    ensures forall c :: c in MandatoryNames(reg, codes, ReasonNames(reg, reasons)) <==>
              || (c in codes && reg.findings[c].minimum == Some(QUARANTINE))
              || QuarantinesAs(reg, codes, c) || IncompleteAs(reg, reasons, c)
  {
    WithMinimumMembers(reg, codes, QUARANTINE);
    QuarantineNamesMembers(Triggered(reg.compounds, codes));
    TriggeredCorrect(reg.compounds, codes);
    ReasonMembers(reg, reasons);
  }

  /** Completeness, without the list of reasons. */
  lemma CompletenessMeaning<C(!new)>(
    reg: Registry<C>, result: Option<AnalysisResult<C>>, failure: Option<FailureCode>, state: ScanState)
    ensures CompletenessReasons(reg, result, failure, state) == [] <==>
      && result.Some? && result.value.status == SUCCESS
      && result.value.detectedType.Some? && result.value.detectedType.value in SUPPORTED_RELEASE_TYPES
      && (forall code :: code in result.value.findings ==> !reg.incomplete(code))
      && failure == None && (state == ANALYZING || state == COMPLETED)
  {
  }

  // ---------------------------------------------------------------- dependence on the code set

  lemma SameCompleteness<C(!new)>(
    reg: Registry<C>, a: AnalysisResult<C>, b: AnalysisResult<C>,
    failure: Option<FailureCode>, state: ScanState)
    requires a.status == b.status && a.detectedType == b.detectedType
    requires forall c :: c in a.findings <==> c in b.findings
    ensures CompletenessReasons(reg, Some(a), failure, state) == CompletenessReasons(reg, Some(b), failure, state)
  {
    assert (exists code | code in a.findings :: reg.incomplete(code))
        == (exists code | code in b.findings :: reg.incomplete(code));
  }

  /** Order and repetition of findings never matter: only the set of codes does. */
  lemma OutcomeDependsOnCodeSet<C(!new)>(
    reg: Registry<C>, a: AnalysisResult<C>, b: AnalysisResult<C>,
    failure: Option<FailureCode>, state: ScanState)
    requires Ordered(reg)
    requires a.status == b.status && a.detectedType == b.detectedType
    requires forall c :: c in a.findings <==> c in b.findings
    ensures Evaluate(reg, Some(a), failure, state) == Evaluate(reg, Some(b), failure, state)
  {
    SortUniqueOfSet(reg.before, a.findings, b.findings);
    assert FindingCodes(reg, Some(a)) == FindingCodes(reg, Some(b));
    SameCompleteness(reg, a, b, failure, state);
  }

  // ---------------------------------------------------------------- monotonicity

  lemma {:induction false} CodePointsMonotone<C(!new)>(reg: Registry<C>, s: seq<C>, t: seq<C>)
    requires Ordered(reg) && ValidRegistry(reg) && Registered(reg, s) && Registered(reg, t)
    requires Ascending(reg.before, s) && Ascending(reg.before, t)
    requires forall x :: x in s ==> x in t
    ensures Total(CodePoints(reg, s)) <= Total(CodePoints(reg, t))
    decreases |t|
  {
    assert s != [] ==> s[0] in t;
    if t != [] {
      assert t[0] in t;
      assert CodePoints(reg, t)[1..] == CodePoints(reg, t[1..]);
      if s == [] {
        CodePointsMonotone(reg, s, t[1..]);
      } else {
        assert s[0] in s;
        AscendingTail(reg.before, s, t);
        if s[0] == t[0] {
          assert CodePoints(reg, s)[1..] == CodePoints(reg, s[1..]);
          CodePointsMonotone(reg, s[1..], t[1..]);
        } else {
          CodePointsMonotone(reg, s, t[1..]);
        }
      }
    }
  }

  lemma {:induction false} CompoundPointsMonotone<C(!new)>(
    compounds: seq<CompoundPolicy<C>>, s: seq<C>, t: seq<C>)
    requires forall k :: k in compounds ==> k.contribution >= 0
    requires forall x :: x in s ==> x in t
    ensures Total(CompoundPoints(Triggered(compounds, s))) <= Total(CompoundPoints(Triggered(compounds, t)))
  {
    if compounds != [] {
      var k, rest := compounds[0], compounds[1..];
      assert k in compounds;
      CompoundPointsMonotone(rest, s, t);
      CompoundPointsCons(k, Triggered(rest, s));
      CompoundPointsCons(k, Triggered(rest, t));
      assert [] + Triggered(rest, s) == Triggered(rest, s);
      assert [] + Triggered(rest, t) == Triggered(rest, t);
    }
  }

  lemma CompoundPointsCons<C>(k: CompoundPolicy<C>, rest: seq<CompoundPolicy<C>>)
    ensures Total(CompoundPoints([k] + rest)) == k.contribution + Total(CompoundPoints(rest))
  {
    assert CompoundPoints([k] + rest)[1..] == CompoundPoints(rest);
  }

  lemma PointsMonotone<C(!new)>(reg: Registry<C>, s: seq<C>, t: seq<C>)
    requires Ordered(reg) && ValidRegistry(reg) && Registered(reg, s) && Registered(reg, t)
    requires Ascending(reg.before, s) && Ascending(reg.before, t)
    requires forall x :: x in s ==> x in t
    ensures Points(reg, s) <= Points(reg, t)
  {
    CodePointsMonotone(reg, s, t);
    CompoundPointsMonotone(reg.compounds, s, t);
  }

  lemma MinimumsMonotone<C(!new)>(reg: Registry<C>, s: seq<C>, t: seq<C>)
    requires Registered(reg, s) && Registered(reg, t)
    requires forall x :: x in s ==> x in t
    ensures HasHardBlock(reg, s) ==> HasHardBlock(reg, t)
    ensures HasQuarantineMinimum(reg, s) ==> HasQuarantineMinimum(reg, t)
  {
    forall k | Fires(k, s) ensures Fires(k, t) { }
  }

  /** Adding findings never lowers the score or the decision, and never completes an analysis. */
  lemma AddingFindingsNeverLowers<C(!new)>(
    reg: Registry<C>, a: AnalysisResult<C>, b: AnalysisResult<C>,
    failure: Option<FailureCode>, state: ScanState)
    requires Ordered(reg) && ValidRegistry(reg)
    requires a.status == b.status && a.detectedType == b.detectedType
    requires forall c :: c in a.findings ==> c in b.findings
    requires forall c :: c in b.findings ==> c in reg.findings
    ensures Registered(reg, FindingCodes(reg, Some(a))) && Registered(reg, FindingCodes(reg, Some(b)))
    ensures
      var ea := Assess(reg, Some(a), failure, state);
      var eb := Assess(reg, Some(b), failure, state);
      && ea.score <= eb.score
      && ea.decision.Rank() <= eb.decision.Rank()
      && (eb.complete ==> ea.complete)
      && (eb.release ==> ea.release)
  {
    SortUniqueCorrect(reg.before, a.findings);
    SortUniqueCorrect(reg.before, b.findings);
    AssessMeaning(reg, Some(a), failure, state);
    AssessMeaning(reg, Some(b), failure, state);
    var s, t := FindingCodes(reg, Some(a)), FindingCodes(reg, Some(b));
    PointsMonotone(reg, s, t);
    MinimumsMonotone(reg, s, t);
    CompletenessMeaning(reg, Some(a), failure, state);
    CompletenessMeaning(reg, Some(b), failure, state);
  }

  // ---------------------------------------------------------------- minimums

  ghost predicate MinimumTriggered<C(!new)>(reg: Registry<C>, codes: seq<C>, m: Decision)
    requires Registered(reg, codes)
  {
    || (exists code :: code in codes && reg.findings[code].minimum == Some(m))
    || (exists k :: k in reg.compounds && Fires(k, codes) && k.minimum == Some(m))
  }

  /** Every triggered QUARANTINE or BLOCK minimum is honoured. */
  lemma MinimumsHonoured<C(!new)>(
    reg: Registry<C>, result: Option<AnalysisResult<C>>,
    failure: Option<FailureCode>, state: ScanState, m: Decision)
    requires Ordered(reg) && ValidRegistry(reg) && Registered(reg, FindingCodes(reg, result))
    requires MinimumTriggered(reg, FindingCodes(reg, result), m) && m != REVIEW
    ensures m.Rank() <= Assess(reg, result, failure, state).decision.Rank()
  {
    AssessMeaning(reg, result, failure, state);
  }

  /**
   The engine never reads a REVIEW minimum, which validation accepts: a triggered one is
   honoured exactly when the score or another rule already asks for more than ALLOW.
   */
  lemma ReviewMinimumHonouredExactly<C(!new)>(
    reg: Registry<C>, result: Option<AnalysisResult<C>>, failure: Option<FailureCode>, state: ScanState)
    requires Ordered(reg) && ValidRegistry(reg) && Registered(reg, FindingCodes(reg, result))
    requires MinimumTriggered(reg, FindingCodes(reg, result), REVIEW)
    ensures
      var codes := FindingCodes(reg, result);
      (REVIEW.Rank() <= Assess(reg, result, failure, state).decision.Rank()) <==>
      (|| Points(reg, codes) >= 20 || HasHardBlock(reg, codes) || HasQuarantineMinimum(reg, codes)
       || CompletenessReasons(reg, result, failure, state) != [])
  {
    AssessMeaning(reg, result, failure, state);
  }

  /** A table of one finding, 0. */
  function OneEntry(points: int, minimum: Option<Decision>, incomplete: bool): Registry<int> {
    Registry("1.0.0", "", {0}, map[0 := FindingPolicy(0, points, minimum, minimum == Some(BLOCK))], [],
             IntLess, (c: int) => incomplete, (r: AnalysisReason) => 1)
  }

  function OneFinding(): AnalysisResult<int> { AnalysisResult(SUCCESS, Some("PDF"), [0]) }

  lemma OneEntryValid(points: int, minimum: Option<Decision>, incomplete: bool)
    requires 0 <= points <= 100 && minimum != Some(ALLOW)
    ensures var reg := OneEntry(points, minimum, incomplete);
            && ValidRegistry(reg) && Ordered(reg) && FindingCodes(reg, Some(OneFinding())) == [0] && Registered(reg, [0])
  {
    var reg := OneEntry(points, minimum, incomplete);
    assert SortUnique(reg.before, [0][1..]) == [];
  }

  lemma OneEntryPoints(points: int, minimum: Option<Decision>, incomplete: bool)
    requires Registered(OneEntry(points, minimum, incomplete), [0])
    ensures Points(OneEntry(points, minimum, incomplete), [0]) == points
  {
    var reg := OneEntry(points, minimum, incomplete);
    var found := CodePoints(reg, [0]);
    assert Triggered(reg.compounds, [0]) == [];
    assert Total(found) == found[0].points + Total(found[1..]);
  }

  /** A table, edited together with its fingerprint, whose REVIEW minimum is not honoured. */
  lemma ReviewMinimumIgnored()
    ensures
      var reg, result := OneEntry(5, Some(REVIEW), false), Some(OneFinding());
      && ValidRegistry(reg) && Ordered(reg) && Registered(reg, FindingCodes(reg, result))
      && MinimumTriggered(reg, FindingCodes(reg, result), REVIEW)
      && Assess(reg, result, None, ANALYZING).decision == ALLOW
  {
    var reg, result := OneEntry(5, Some(REVIEW), false), Some(OneFinding());
    OneEntryValid(5, Some(REVIEW), false);
    OneEntryPoints(5, Some(REVIEW), false);
    assert reg.findings[0].minimum == Some(REVIEW) && 0 in FindingCodes(reg, result);
    AllowExactly(reg, result, None, ANALYZING);
  }

  // ---------------------------------------------------------------- neutral findings

  lemma {:induction false} CodePointsInsert<C(!new)>(reg: Registry<C>, x: C, s: seq<C>)
    requires Ordered(reg) && Registered(reg, s) && x in reg.findings && x !in s
    requires Registered(reg, InsertUnique(reg.before, x, s))
    ensures Total(CodePoints(reg, InsertUnique(reg.before, x, s)))
         == reg.findings[x].contribution + Total(CodePoints(reg, s))
  {
    var r := InsertUnique(reg.before, x, s);
    assert r[0] in r;
    assert CodePoints(reg, r)[1..] == CodePoints(reg, r[1..]);
    if s != [] {
      assert s[0] in s;
      assert CodePoints(reg, s)[1..] == CodePoints(reg, s[1..]);
      if reg.before(x, s[0]) {
        assert r[1..] == s;
      } else {
        assert r[1..] == InsertUnique(reg.before, x, s[1..]);
        assert forall y :: y in r[1..] ==> y in r;
        CodePointsInsert(reg, x, s[1..]);
      }
    }
  }

  lemma {:induction false} TriggeredIgnores<C(!new)>(
    compounds: seq<CompoundPolicy<C>>, x: C, s: seq<C>, t: seq<C>)
    requires forall k :: k in compounds ==> x !in k.required
    requires forall y :: y in t <==> y == x || y in s
    ensures Triggered(compounds, s) == Triggered(compounds, t)
  {
    if compounds != [] {
      assert compounds[0] in compounds;
      TriggeredIgnores(compounds[1..], x, s, t);
      assert Fires(compounds[0], s) == Fires(compounds[0], t);
    }
  }

  /** A code with no contribution, no minimum and no compound rule. */
  ghost predicate Neutral<C(!new)>(reg: Registry<C>, code: C) {
    && code in reg.findings
    && reg.findings[code].contribution == 0 && reg.findings[code].minimum == None
    && forall k :: k in reg.compounds ==> code !in k.required
  }

  lemma NeutralLeavesRules<C(!new)>(reg: Registry<C>, code: C, s: seq<C>, t: seq<C>)
    requires Ordered(reg) && ValidRegistry(reg) && Neutral(reg, code)
    requires Registered(reg, s) && Registered(reg, t)
    requires Ascending(reg.before, s) && t == InsertUnique(reg.before, code, s)
    ensures Points(reg, t) == Points(reg, s)
    ensures HasHardBlock(reg, t) == HasHardBlock(reg, s)
    ensures HasQuarantineMinimum(reg, t) == HasQuarantineMinimum(reg, s)
  {
    InsertUniqueCorrect(reg.before, code, s);
    TriggeredIgnores(reg.compounds, code, s, t);
    if code in s {
      AscendingUnique(reg.before, s, t);
    } else {
      CodePointsInsert(reg, code, s);
    }
    assert forall k :: k in reg.compounds ==> Fires(k, s) == Fires(k, t);
  }

  lemma AddedCode<C(!new)>(reg: Registry<C>, a: AnalysisResult<C>, b: AnalysisResult<C>, code: C)
    requires Ordered(reg) && code in reg.findings && b == a.(findings := [code] + a.findings)
    requires forall c :: c in a.findings ==> c in reg.findings
    ensures Registered(reg, FindingCodes(reg, Some(a))) && Registered(reg, FindingCodes(reg, Some(b)))
    ensures FindingCodes(reg, Some(b)) == InsertUnique(reg.before, code, FindingCodes(reg, Some(a)))
    ensures Ascending(reg.before, FindingCodes(reg, Some(a)))
  {
    SortUniqueCorrect(reg.before, a.findings);
    SortUniqueCorrect(reg.before, b.findings);
    assert b.findings[1..] == a.findings;
  }

  /**
   Adding a neutral code (`a` becomes `b`) never changes the score. It changes the decision
   exactly when its name marks incomplete analysis although the analysis is otherwise complete
   and nothing else quarantines or blocks: then the contradiction check quarantines.
   */
  lemma NeutralCodeExactly<C(!new)>(
    reg: Registry<C>, a: AnalysisResult<C>, b: AnalysisResult<C>, code: C,
    failure: Option<FailureCode>, state: ScanState)
    requires Ordered(reg) && ValidRegistry(reg) && Neutral(reg, code)
    requires forall c :: c in a.findings ==> c in reg.findings
    requires b == a.(findings := [code] + a.findings)
    ensures Registered(reg, FindingCodes(reg, Some(a))) && Registered(reg, FindingCodes(reg, Some(b)))
    ensures
      var codes := FindingCodes(reg, Some(a));
      var before, after := Assess(reg, Some(a), failure, state), Assess(reg, Some(b), failure, state);
      && after.score == before.score && after.complete == (before.complete && !reg.incomplete(code))
      && (after.decision != before.decision <==>
          && reg.incomplete(code) && CompletenessReasons(reg, Some(a), failure, state) == []
          && !HasHardBlock(reg, codes) && !HasQuarantineMinimum(reg, codes) && Points(reg, codes) < 40)
      && (after.decision != before.decision ==> after.decision == QUARANTINE)
      && (after.release != before.release ==> after.decision != before.decision)
  {
    AddedCode(reg, a, b, code);
    NeutralLeavesRules(reg, code, FindingCodes(reg, Some(a)), FindingCodes(reg, Some(b)));
    AssessMeaning(reg, Some(a), failure, state);
    AssessMeaning(reg, Some(b), failure, state);
    NeutralCompleteness(reg, a, b, code, failure, state);
  }

  lemma NoFindings(reg: Registry<int>, a: AnalysisResult<int>)
    requires a.findings == [] && reg.compounds == []
    ensures FindingCodes(reg, Some(a)) == [] && Points(reg, []) == 0
    ensures !HasHardBlock(reg, []) && !HasQuarantineMinimum(reg, [])
  {
  }

  /** A table with a neutral code that turns ALLOW into QUARANTINE. */
  lemma NeutralCodeQuarantines()
    ensures
      var reg, a := OneEntry(0, None, true), AnalysisResult(SUCCESS, Some("PDF"), []);
      && ValidRegistry(reg) && Ordered(reg) && Neutral(reg, 0)
      && Registered(reg, FindingCodes(reg, Some(a))) && Registered(reg, FindingCodes(reg, Some(OneFinding())))
      && Assess(reg, Some(a), None, ANALYZING).decision == ALLOW
      && Assess(reg, Some(OneFinding()), None, ANALYZING).decision == QUARANTINE
  {
    var reg, a := OneEntry(0, None, true), AnalysisResult(SUCCESS, Some("PDF"), []);
    OneEntryValid(0, None, true);
    NoFindings(reg, a);
    assert OneFinding() == a.(findings := [0] + a.findings);
    AllowExactly(reg, Some(a), None, ANALYZING);
    NeutralCodeExactly(reg, a, OneFinding(), 0, None, ANALYZING);
  }

  lemma NeutralCompleteness<C(!new)>(
    reg: Registry<C>, a: AnalysisResult<C>, b: AnalysisResult<C>, code: C,
    failure: Option<FailureCode>, state: ScanState)
    requires b == a.(findings := [code] + a.findings)
    ensures (CompletenessReasons(reg, Some(b), failure, state) == []) <==>
            (CompletenessReasons(reg, Some(a), failure, state) == [] && !reg.incomplete(code))
    ensures CompletenessReasons(reg, Some(a), failure, state) == [] ==> a.status == SUCCESS
  {
    CompletenessMeaning(reg, Some(a), failure, state);
    CompletenessMeaning(reg, Some(b), failure, state);
  }

  // ---------------------------------------------------------------- what ALLOW means

  /** ALLOW in full: nothing quarantining was found, and the analysis was complete and regular. */
  lemma AllowExactly<C(!new)>(
    reg: Registry<C>, result: Option<AnalysisResult<C>>, failure: Option<FailureCode>, state: ScanState)
    requires Ordered(reg) && ValidRegistry(reg) && Registered(reg, FindingCodes(reg, result))
    ensures
      var codes := FindingCodes(reg, result);
      Assess(reg, result, failure, state).decision == ALLOW <==>
      && Points(reg, codes) < 20
      && !HasHardBlock(reg, codes) && !HasQuarantineMinimum(reg, codes)
      && result.Some? && result.value.status == SUCCESS
      && result.value.detectedType.Some? && result.value.detectedType.value in SUPPORTED_RELEASE_TYPES
      && failure == None && (state == ANALYZING || state == COMPLETED)
      && (forall code :: code in result.value.findings ==> !reg.incomplete(code))
  {
    AssessMeaning(reg, result, failure, state);
  }

  /** Incomplete or late analyses are never released, whatever was found. */
  lemma IncompleteNeverReleased<C(!new)>(
    reg: Registry<C>, result: Option<AnalysisResult<C>>, failure: Option<FailureCode>, state: ScanState,
    e: Evaluation<C>)
    requires Ordered(reg) && Evaluate(reg, result, failure, state) == Some(e)
    ensures ValidEvaluation(reg, e)
    ensures e.complete <==> CompletenessReasons(reg, result, failure, state) == []
    ensures !e.complete ==> !e.release && (e.decision == QUARANTINE || e.decision == BLOCK)
    ensures e.decision == ALLOW ==> e.hardBlocks == [] && e.mandatory == []
  {
    AssessMeaning(reg, result, failure, state);
    MandatoryMeaning(reg, FindingCodes(reg, result),
                     ReasonNames(reg, CompletenessReasons(reg, result, failure, state)));
  }

  lemma FailClosedIsValid<C(!new)>(reg: Registry<C>)
    requires 1 <= |reg.version| <= 32 && |reg.fingerprint| == 64
    ensures ValidEvaluation(reg, FailClosed(reg))
    ensures FailClosed(reg).decision == QUARANTINE && !FailClosed(reg).release && !FailClosed(reg).complete
  {
    var r := reg.reasonName(EvaluationFailure);
    assert SortUnique(reg.before, [r]) == [r] by { assert [r][1..] == []; }
  }
}
