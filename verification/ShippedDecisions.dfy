/**
 What the shipped policy decides, finding by finding and in the findings' own names, without
 reference to the table that holds the points and minimums (app/policies/registry.py).
 */
module ShippedDecisions {
  import opened Wrappers
  import opened Ordering
  import opened PolicyEngine
  import opened PolicyProperties
  import opened ShippedPolicy

  /** Findings that a released document may show. */
  predicate Harmless(c: Code) {
    match c
    case FILE_CLIENT_MIME_MISMATCH | PDF_OPEN_ACTION | PDF_ADDITIONAL_ACTION | PDF_ACROFORM | PDF_EXTERNAL_URI
       | PDF_EXTERNAL_SUBMISSION | PDF_ENCRYPTED | PDF_FALLBACK_INDICATOR | OFFICE_MACRO_ENABLED | OFFICE_VBA_MACRO
       | OFFICE_EXTERNAL_RELATIONSHIP | OFFICE_ENCRYPTED | ARCHIVE_ENCRYPTED => true
    case _ => false
  }

  /** Findings that alone ask for a review. */
  predicate Suspicious(c: Code) {
    match c
    case FILE_DOUBLE_EXTENSION | FILE_BIDI_OVERRIDE | FILE_TYPE_MISMATCH | PDF_JAVASCRIPT | PDF_EMBEDDED_FILE | PDF_XFA
       | OFFICE_VBA_AUTOEXEC | OFFICE_VBA_EXECUTION_INDICATOR | OFFICE_EMBEDDED_OBJECT | OFFICE_ACTIVEX
       | ARCHIVE_DUPLICATE_MEMBER | ARCHIVE_MEMBER_DOUBLE_EXTENSION | ARCHIVE_MEMBER_BIDI_OVERRIDE => true
    case _ => false
  }

  /** Findings that alone quarantine. */
  predicate Quarantining(c: Code) {
    match c
    case PDF_LAUNCH_ACTION | PDF_PARTIAL_ANALYSIS | PDF_MALFORMED | OFFICE_EXTERNAL_TEMPLATE | OFFICE_PARTIAL_ANALYSIS
       | OFFICE_MALFORMED | ARCHIVE_DANGEROUS_MEMBER | ARCHIVE_NESTING_LIMIT | ARCHIVE_RESOURCE_LIMIT | ARCHIVE_MALFORMED
       | ARCHIVE_PARTIAL_ANALYSIS | YARA_HEURISTIC_MATCH | YARA_PARTIAL_ANALYSIS => true
    case _ => false
  }

  /** Findings that alone block. */
  predicate Blocking(c: Code) {
    match c
    case FILE_EXECUTABLE_MASQUERADE | ARCHIVE_PATH_TRAVERSAL | ARCHIVE_ABSOLUTE_PATH | ARCHIVE_SYMLINK
       | YARA_TEST_SIGNATURE | YARA_SIGNATURE_MATCH => true
    case _ => false
  }

  /** Findings that quarantine only together. */
  ghost predicate QuarantinesTogether(codes: seq<Code>) {
    || (PDF_JAVASCRIPT in codes && PDF_OPEN_ACTION in codes)
    || (OFFICE_VBA_MACRO in codes && OFFICE_VBA_AUTOEXEC in codes && OFFICE_VBA_EXECUTION_INDICATOR in codes)
    || (OFFICE_VBA_AUTOEXEC in codes && YARA_HEURISTIC_MATCH in codes)
    || (ARCHIVE_DANGEROUS_MEMBER in codes && ARCHIVE_MEMBER_DOUBLE_EXTENSION in codes)
    || (FILE_DOUBLE_EXTENSION in codes && FILE_TYPE_MISMATCH in codes)
  }

  lemma HarmlessPolicy(c: Code)
    ensures Harmless(c) <==> IsFinding(c) && Policy(c).minimum == None && Policy(c).contribution < 20
  {
  }

  lemma SuspiciousPolicy(c: Code)
    ensures Suspicious(c) <==> IsFinding(c) && Policy(c).minimum == None && Policy(c).contribution >= 20
    ensures Suspicious(c) ==> Policy(c).contribution < 40
  {
  }

  lemma QuarantiningPolicy(c: Code)
    ensures Quarantining(c) <==> IsFinding(c) && Policy(c).minimum == Some(QUARANTINE)
  {
  }

  lemma BlockingPolicy(c: Code)
    ensures Blocking(c) <==> IsFinding(c) && Policy(c).hardBlock
  {
  }

  /** Every registered finding is of exactly one kind. */
  lemma FindingKinds(c: Code)
    ensures IsFinding(c) <==> Harmless(c) || Suspicious(c) || Quarantining(c) || Blocking(c)
  {
    HarmlessPolicy(c);
    SuspiciousPolicy(c);
    QuarantiningPolicy(c);
    BlockingPolicy(c);
    NoReviewMinimum(c);
  }

  // ---------------------------------------------------------------- hard blocks and minimums

  lemma HardBlockNamed(codes: seq<Code>)
    requires Registered(SHIPPED, codes)
    ensures HasHardBlock(SHIPPED, codes) <==> exists c :: c in codes && Blocking(c)
  {
    forall c | c in codes ensures SHIPPED.findings[c].hardBlock == Blocking(c) {
      BlockingPolicy(c);
      assert SHIPPED.findings[c] == Policy(c);
    }
  }

  lemma RulesNamedTogether(codes: seq<Code>)
    ensures QuarantinesTogether(codes) <==> exists k :: k in SHIPPED.compounds && Fires(k, codes)
  {
    var rules := SHIPPED.compounds;
    assert Fires(rules[0], codes) <==> PDF_JAVASCRIPT in codes && PDF_OPEN_ACTION in codes;
    assert Fires(rules[1], codes) <==>
           OFFICE_VBA_MACRO in codes && OFFICE_VBA_AUTOEXEC in codes && OFFICE_VBA_EXECUTION_INDICATOR in codes;
    assert Fires(rules[2], codes) <==> OFFICE_VBA_AUTOEXEC in codes && YARA_HEURISTIC_MATCH in codes;
    assert Fires(rules[3], codes) <==> ARCHIVE_DANGEROUS_MEMBER in codes && ARCHIVE_MEMBER_DOUBLE_EXTENSION in codes;
    assert Fires(rules[4], codes) <==> FILE_DOUBLE_EXTENSION in codes && FILE_TYPE_MISMATCH in codes;
    assert rules[0] in rules && rules[1] in rules && rules[2] in rules && rules[3] in rules && rules[4] in rules;
  }

  lemma MinimumNamed(codes: seq<Code>)
    requires Registered(SHIPPED, codes)
    ensures HasQuarantineMinimum(SHIPPED, codes) <==>
            QuarantinesTogether(codes) || exists c :: c in codes && Quarantining(c)
  {
    RulesNamedTogether(codes);
    NoReviewRule();
    forall c | c in codes ensures (SHIPPED.findings[c].minimum == Some(QUARANTINE)) == Quarantining(c) {
      QuarantiningPolicy(c);
      assert SHIPPED.findings[c] == Policy(c);
    }
  }

  // ---------------------------------------------------------------- decisions

  lemma CodesOfResult(result: Result)
    ensures forall c :: c in FindingCodes(SHIPPED, Some(result)) <==> c in result.findings
    ensures Ascending(Before, FindingCodes(SHIPPED, Some(result)))
  {
    ShippedOrdered();
    SortUniqueCorrect(Before, result.findings);
  }

  lemma SameTogether(a: seq<Code>, b: seq<Code>)
    requires forall c :: c in a <==> c in b
    ensures QuarantinesTogether(a) == QuarantinesTogether(b)
  {
  }

  /** BLOCK exactly for the six blocking findings. */
  lemma BlocksExactly(result: Result, failure: Option<FailureCode>, state: ScanState)
    requires ValidRegistry(SHIPPED) && Registered(SHIPPED, FindingCodes(SHIPPED, Some(result)))
    ensures Assess(SHIPPED, Some(result), failure, state).decision == BLOCK <==>
            exists c :: c in result.findings && Blocking(c)
  {
    ShippedOrdered();
    CodesOfResult(result);
    HardBlockNamed(FindingCodes(SHIPPED, Some(result)));
    AssessMeaning(SHIPPED, Some(result), failure, state);
  }

  /** At least QUARANTINE for a quarantining finding and for the findings of each rule together. */
  lemma QuarantinesAtLeast(result: Result, failure: Option<FailureCode>, state: ScanState)
    requires ValidRegistry(SHIPPED) && Registered(SHIPPED, FindingCodes(SHIPPED, Some(result)))
    requires QuarantinesTogether(result.findings) || exists c :: c in result.findings && Quarantining(c)
    ensures QUARANTINE.Rank() <= Assess(SHIPPED, Some(result), failure, state).decision.Rank()
  {
    ShippedOrdered();
    CodesOfResult(result);
    SameTogether(result.findings, FindingCodes(SHIPPED, Some(result)));
    MinimumNamed(FindingCodes(SHIPPED, Some(result)));
    AssessMeaning(SHIPPED, Some(result), failure, state);
  }

  /** At least REVIEW for a suspicious finding. */
  lemma ReviewsAtLeast(result: Result, failure: Option<FailureCode>, state: ScanState, c: Code)
    requires ValidRegistry(SHIPPED) && Registered(SHIPPED, FindingCodes(SHIPPED, Some(result)))
    requires c in result.findings && Suspicious(c)
    ensures REVIEW.Rank() <= Assess(SHIPPED, Some(result), failure, state).decision.Rank()
  {
    ShippedOrdered();
    CodesOfResult(result);
    SuspiciousPolicy(c);
    PointsAtLeast(FindingCodes(SHIPPED, Some(result)), c);
    AssessMeaning(SHIPPED, Some(result), failure, state);
  }

  /** At least QUARANTINE for any two suspicious findings. */
  lemma TwoQuarantine(result: Result, failure: Option<FailureCode>, state: ScanState, c: Code, d: Code)
    requires ValidRegistry(SHIPPED) && Registered(SHIPPED, FindingCodes(SHIPPED, Some(result)))
    requires c in result.findings && d in result.findings && c != d && Suspicious(c) && Suspicious(d)
    ensures QUARANTINE.Rank() <= Assess(SHIPPED, Some(result), failure, state).decision.Rank()
  {
    ShippedOrdered();
    CodesOfResult(result);
    var codes := FindingCodes(SHIPPED, Some(result));
    if Before(c, d) {
      PairPoints(codes, c, d);
    } else {
      PairPoints(codes, d, c);
    }
    AssessMeaning(SHIPPED, Some(result), failure, state);
  }

  lemma PairPoints(codes: seq<Code>, c: Code, d: Code)
    requires ValidRegistry(SHIPPED) && Registered(SHIPPED, codes) && Ascending(Before, codes)
    requires c in codes && d in codes && Before(c, d) && Suspicious(c) && Suspicious(d)
    ensures Points(SHIPPED, codes) >= 40
  {
    ShippedOrdered();
    SuspiciousPolicy(c);
    SuspiciousPolicy(d);
    CodePointsMonotone(SHIPPED, [c, d], codes);
    TotalCons([c, d]);
    TotalCons([d]);
    assert [c, d][1..] == [d] && [d][1..] == [] && CodePoints(SHIPPED, []) == [];
    RulesAddNothingNegative(codes);
  }

  lemma RulesAddNothingNegative(codes: seq<Code>)
    ensures Total(CompoundPoints(Triggered(SHIPPED.compounds, codes))) >= 0
  {
    TriggeredCorrect(SHIPPED.compounds, codes);
    var fired := CompoundPoints(Triggered(SHIPPED.compounds, codes));
    forall i | 0 <= i < |fired| ensures fired[i].points >= 0 {
      RuleValid(Triggered(SHIPPED.compounds, codes)[i]);
    }
    TotalOfNonNegative(fired);
  }

  /** ALLOW says that every finding is harmless. */
  lemma AllowsHarmlessOnly(result: Option<Result>, failure: Option<FailureCode>, state: ScanState)
    requires var e := Evaluate(SHIPPED, result, failure, state); e.Some? && e.value.decision == ALLOW
    ensures result.Some? && forall c :: c in result.value.findings ==> Harmless(c)
  {
    ShippedAllow(result, failure, state);
    forall c | c in result.value.findings ensures Harmless(c) {
      HarmlessPolicy(c);
    }
  }

  // ---------------------------------------------------------------- the points of harmless findings

  /** The harmless findings of eight points. */
  predicate Passive(c: Code) {
    match c
    case PDF_ACROFORM | PDF_EXTERNAL_URI | PDF_ENCRYPTED | OFFICE_MACRO_ENABLED | OFFICE_EXTERNAL_RELATIONSHIP
       | OFFICE_ENCRYPTED | ARCHIVE_ENCRYPTED => true
    case _ => false
  }

  function Passives(codes: seq<Code>): nat {
    if codes == [] then 0 else (if Passive(codes[0]) then 1 else 0) + Passives(codes[1..])
  }

  function Once(codes: seq<Code>, c: Code): nat { if c in codes then 1 else 0 }

  function HarmlessPoints(codes: seq<Code>): nat {
    8 * Passives(codes) + 2 * Once(codes, FILE_CLIENT_MIME_MISMATCH) + 16 * Once(codes, PDF_OPEN_ACTION)
    + 18 * Once(codes, PDF_ADDITIONAL_ACTION) + 18 * Once(codes, OFFICE_VBA_MACRO)
  }

  lemma HarmlessPoint(c: Code)
    requires Harmless(c)
    ensures Policy(c).contribution == HarmlessPoints([c])
  {
    assert Passives([c]) == (if Passive(c) then 1 else 0) + Passives([c][1..]);
  }

  lemma {:induction false} HarmlessTotal(codes: seq<Code>)
    requires Ascending(Before, codes) && Registered(SHIPPED, codes) && forall c :: c in codes ==> Harmless(c)
    ensures Total(CodePoints(SHIPPED, codes)) == HarmlessPoints(codes)
  {
    if codes != [] {
      var first, rest := codes[0], codes[1..];
      assert first in codes && forall c :: c in rest ==> c in codes;
      FirstIsLess(codes);
      HarmlessTotal(rest);
      HarmlessPoint(first);
      HarmlessPointsCons(codes);
      TotalCons(codes);
    }
  }

  lemma TotalCons(codes: seq<Code>)
    requires codes != [] && Registered(SHIPPED, codes)
    ensures Registered(SHIPPED, codes[1..])
    ensures Total(CodePoints(SHIPPED, codes)) == Policy(codes[0]).contribution + Total(CodePoints(SHIPPED, codes[1..]))
  {
    assert codes[0] in codes;
    assert SHIPPED.findings[codes[0]] == Policy(codes[0]);
    assert CodePoints(SHIPPED, codes)[1..] == CodePoints(SHIPPED, codes[1..]);
  }

  lemma HarmlessPointsCons(codes: seq<Code>)
    requires codes != [] && codes[0] !in codes[1..]
    ensures HarmlessPoints(codes) == HarmlessPoints([codes[0]]) + HarmlessPoints(codes[1..])
  {
    OnceCons(codes, FILE_CLIENT_MIME_MISMATCH);
    OnceCons(codes, PDF_OPEN_ACTION);
    OnceCons(codes, PDF_ADDITIONAL_ACTION);
    OnceCons(codes, OFFICE_VBA_MACRO);
    assert Passives([codes[0]]) == (if Passive(codes[0]) then 1 else 0) + Passives([codes[0]][1..]);
  }

  lemma OnceCons(codes: seq<Code>, c: Code)
    requires codes != [] && codes[0] !in codes[1..]
    ensures Once(codes, c) == Once([codes[0]], c) + Once(codes[1..], c)
  {
    assert codes == [codes[0]] + codes[1..];
  }

  lemma FirstIsLess(codes: seq<Code>)
    requires codes != [] && Ascending(Before, codes)
    ensures codes[0] !in codes[1..] && Ascending(Before, codes[1..])
  {
    ShippedOrdered();
  }

  lemma HarmlessFiresNothing(codes: seq<Code>)
    requires Registered(SHIPPED, codes) && forall c :: c in codes ==> Harmless(c)
    ensures Points(SHIPPED, codes) == Total(CodePoints(SHIPPED, codes))
    ensures !HasHardBlock(SHIPPED, codes) && !HasQuarantineMinimum(SHIPPED, codes)
  {
    HarmlessApart(codes);
    HardBlockNamed(codes);
    MinimumNamed(codes);
    NothingTriggered(codes);
  }

  lemma HarmlessApart(codes: seq<Code>)
    requires forall c :: c in codes ==> Harmless(c)
    ensures !QuarantinesTogether(codes)
    ensures forall c :: c in codes ==> !Quarantining(c) && !Blocking(c)
  {
    forall c | c in codes ensures !Quarantining(c) && !Blocking(c) {
      KindsApart(c);
    }
  }

  lemma KindsApart(c: Code)
    requires Harmless(c)
    ensures !Suspicious(c) && !Quarantining(c) && !Blocking(c)
  {
    HarmlessPolicy(c);
    SuspiciousPolicy(c);
    QuarantiningPolicy(c);
    BlockingPolicy(c);
    NoReviewMinimum(c);
  }

  lemma NothingTriggered(codes: seq<Code>)
    requires Registered(SHIPPED, codes) && !QuarantinesTogether(codes)
    ensures Points(SHIPPED, codes) == Total(CodePoints(SHIPPED, codes))
  {
    RulesNamedTogether(codes);
    TriggeredCorrect(SHIPPED.compounds, codes);
    NonEmpty(Triggered(SHIPPED.compounds, codes));
  }

  /**
   A regular, complete analysis with harmless findings only is released exactly when they sum
   to less than 20: passive findings count 8 each, a client type mismatch 2, an open action 16,
   additional actions and a VBA project 18 each, and the explanatory findings nothing.
   */
  lemma HarmlessAllowedExactly(result: Result, state: ScanState)
    requires ValidRegistry(SHIPPED) && forall c :: c in result.findings ==> Harmless(c)
    requires result.status == SUCCESS && result.detectedType.Some?
    requires result.detectedType.value in SUPPORTED_RELEASE_TYPES && (state == ANALYZING || state == COMPLETED)
    ensures Registered(SHIPPED, FindingCodes(SHIPPED, Some(result)))
    ensures var e := Assess(SHIPPED, Some(result), None, state);
            var points := HarmlessPoints(FindingCodes(SHIPPED, Some(result)));
            && e.score == Min(100, points) && (e.decision == ALLOW <==> points < 20)
            && (e.decision == REVIEW <==> 20 <= points < 40)
  {
    var codes := FindingCodes(SHIPPED, Some(result));
    ShippedOrdered();
    CodesOfResult(result);
    forall c | c in result.findings ensures c in SHIPPED.findings && !SHIPPED.incomplete(c) {
      HarmlessPolicy(c);
      HarmlessComplete(c);
    }
    HarmlessTotal(codes);
    HarmlessFiresNothing(codes);
    CompletenessMeaning(SHIPPED, Some(result), None, state);
    AssessMeaning(SHIPPED, Some(result), None, state);
  }

  lemma HarmlessComplete(c: Code)
    requires Harmless(c)
    ensures !IncompleteName(c)
  {
  }
}
