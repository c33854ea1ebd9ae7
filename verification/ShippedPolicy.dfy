/**
 The policy table that ships (app/policies/registry.py), as an instance of the engine.
 */
module ShippedPolicy {
  import opened Wrappers
  import opened Ordering
  import opened PolicyEngine
  import opened PolicyProperties

  /** Every finding code, compound rule name and completeness reason, in string order. */
  datatype Code =
    | ARCHIVE_ABSOLUTE_PATH | ARCHIVE_DANGEROUS_MEMBER | ARCHIVE_DUPLICATE_MEMBER
    | ARCHIVE_ENCRYPTED | ARCHIVE_MALFORMED | ARCHIVE_MEMBER_BIDI_OVERRIDE
    | ARCHIVE_MEMBER_DOUBLE_EXTENSION | ARCHIVE_NESTING_LIMIT | ARCHIVE_PARTIAL_ANALYSIS
    | ARCHIVE_PATH_TRAVERSAL | ARCHIVE_RESOURCE_LIMIT | ARCHIVE_SYMLINK | FILE_BIDI_OVERRIDE
    | FILE_CLIENT_MIME_MISMATCH | FILE_DOUBLE_EXTENSION | FILE_EXECUTABLE_MASQUERADE
    | FILE_TYPE_MISMATCH | OFFICE_ACTIVEX | OFFICE_EMBEDDED_OBJECT | OFFICE_ENCRYPTED
    | OFFICE_EXTERNAL_RELATIONSHIP | OFFICE_EXTERNAL_TEMPLATE | OFFICE_MACRO_ENABLED
    | OFFICE_MALFORMED | OFFICE_PARTIAL_ANALYSIS | OFFICE_VBA_AUTOEXEC
    | OFFICE_VBA_EXECUTION_INDICATOR | OFFICE_VBA_MACRO | PDF_ACROFORM | PDF_ADDITIONAL_ACTION
    | PDF_EMBEDDED_FILE | PDF_ENCRYPTED | PDF_EXTERNAL_SUBMISSION | PDF_EXTERNAL_URI
    | PDF_FALLBACK_INDICATOR | PDF_JAVASCRIPT | PDF_LAUNCH_ACTION | PDF_MALFORMED
    | PDF_OPEN_ACTION | PDF_PARTIAL_ANALYSIS | PDF_XFA | POLICY_ANALYSIS_CONTRADICTION
    | POLICY_ANALYSIS_FAILURE | POLICY_ANALYSIS_RESULT_MISSING | POLICY_ANALYSIS_STATUS_FAILED
    | POLICY_ANALYSIS_STATUS_TIMEOUT | POLICY_ANALYSIS_STATUS_UNSUPPORTED
    | POLICY_COMPOUND_ARCHIVE_MEMBER_MASQUERADE | POLICY_COMPOUND_FILE_IDENTITY_DECEPTION
    | POLICY_COMPOUND_OFFICE_AUTOEXEC_YARA | POLICY_COMPOUND_OFFICE_MACRO_EXECUTION_CHAIN
    | POLICY_COMPOUND_PDF_AUTO_JS | POLICY_EVALUATION_FAILURE | POLICY_LIFECYCLE_INCONSISTENCY
    | POLICY_UNSUPPORTED_DETECTED_TYPE | YARA_HEURISTIC_MATCH | YARA_PARTIAL_ANALYSIS
    | YARA_SIGNATURE_MATCH | YARA_TEST_SIGNATURE

  /** The position of a name in string order. */
  function Position(code: Code): nat {
    match code
    case ARCHIVE_ABSOLUTE_PATH => 0 case ARCHIVE_DANGEROUS_MEMBER => 1
    case ARCHIVE_DUPLICATE_MEMBER => 2 case ARCHIVE_ENCRYPTED => 3 case ARCHIVE_MALFORMED => 4
    case ARCHIVE_MEMBER_BIDI_OVERRIDE => 5 case ARCHIVE_MEMBER_DOUBLE_EXTENSION => 6
    case ARCHIVE_NESTING_LIMIT => 7 case ARCHIVE_PARTIAL_ANALYSIS => 8
    case ARCHIVE_PATH_TRAVERSAL => 9 case ARCHIVE_RESOURCE_LIMIT => 10 case ARCHIVE_SYMLINK => 11
    case FILE_BIDI_OVERRIDE => 12 case FILE_CLIENT_MIME_MISMATCH => 13
    case FILE_DOUBLE_EXTENSION => 14 case FILE_EXECUTABLE_MASQUERADE => 15
    case FILE_TYPE_MISMATCH => 16 case OFFICE_ACTIVEX => 17 case OFFICE_EMBEDDED_OBJECT => 18
    case OFFICE_ENCRYPTED => 19 case OFFICE_EXTERNAL_RELATIONSHIP => 20
    case OFFICE_EXTERNAL_TEMPLATE => 21 case OFFICE_MACRO_ENABLED => 22
    case OFFICE_MALFORMED => 23 case OFFICE_PARTIAL_ANALYSIS => 24 case OFFICE_VBA_AUTOEXEC => 25
    case OFFICE_VBA_EXECUTION_INDICATOR => 26 case OFFICE_VBA_MACRO => 27 case PDF_ACROFORM => 28
    case PDF_ADDITIONAL_ACTION => 29 case PDF_EMBEDDED_FILE => 30 case PDF_ENCRYPTED => 31
    case PDF_EXTERNAL_SUBMISSION => 32 case PDF_EXTERNAL_URI => 33
    case PDF_FALLBACK_INDICATOR => 34 case PDF_JAVASCRIPT => 35 case PDF_LAUNCH_ACTION => 36
    case PDF_MALFORMED => 37 case PDF_OPEN_ACTION => 38 case PDF_PARTIAL_ANALYSIS => 39
    case PDF_XFA => 40 case POLICY_ANALYSIS_CONTRADICTION => 41 case POLICY_ANALYSIS_FAILURE => 42
    case POLICY_ANALYSIS_RESULT_MISSING => 43 case POLICY_ANALYSIS_STATUS_FAILED => 44
    case POLICY_ANALYSIS_STATUS_TIMEOUT => 45 case POLICY_ANALYSIS_STATUS_UNSUPPORTED => 46
    case POLICY_COMPOUND_ARCHIVE_MEMBER_MASQUERADE => 47
    case POLICY_COMPOUND_FILE_IDENTITY_DECEPTION => 48
    case POLICY_COMPOUND_OFFICE_AUTOEXEC_YARA => 49
    case POLICY_COMPOUND_OFFICE_MACRO_EXECUTION_CHAIN => 50 case POLICY_COMPOUND_PDF_AUTO_JS => 51
    case POLICY_EVALUATION_FAILURE => 52 case POLICY_LIFECYCLE_INCONSISTENCY => 53
    case POLICY_UNSUPPORTED_DETECTED_TYPE => 54 case YARA_HEURISTIC_MATCH => 55
    case YARA_PARTIAL_ANALYSIS => 56 case YARA_SIGNATURE_MATCH => 57
    case YARA_TEST_SIGNATURE => 58
  }

  predicate Before(a: Code, b: Code) { Position(a) < Position(b) }

  /** The names that end in `_PARTIAL_ANALYSIS` or `_MALFORMED`. */
  predicate IncompleteName(code: Code) {
    match code
    case ARCHIVE_MALFORMED | ARCHIVE_PARTIAL_ANALYSIS | OFFICE_MALFORMED | OFFICE_PARTIAL_ANALYSIS
       | PDF_MALFORMED | PDF_PARTIAL_ANALYSIS | YARA_PARTIAL_ANALYSIS => true
    case _ => false
  }

  function ReasonCode(reason: AnalysisReason): Code {
    match reason
    case ResultMissing => POLICY_ANALYSIS_RESULT_MISSING
    case StatusFailed => POLICY_ANALYSIS_STATUS_FAILED
    case StatusTimeout => POLICY_ANALYSIS_STATUS_TIMEOUT
    case StatusUnsupported => POLICY_ANALYSIS_STATUS_UNSUPPORTED
    case AnalysisFailure => POLICY_ANALYSIS_FAILURE
    case LifecycleInconsistency => POLICY_LIFECYCLE_INCONSISTENCY
    case UnsupportedDetectedType => POLICY_UNSUPPORTED_DETECTED_TYPE
    case AnalysisContradiction => POLICY_ANALYSIS_CONTRADICTION
    case EvaluationFailure => POLICY_EVALUATION_FAILURE
  }

  /** Contribution and minimum decision of each registered finding. */
  function Table(code: Code): Option<(int, Option<Decision>)> {
    match code
    case FILE_DOUBLE_EXTENSION => Some((24, None))
    case FILE_BIDI_OVERRIDE => Some((24, None))
    case FILE_TYPE_MISMATCH => Some((28, None))
    case FILE_EXECUTABLE_MASQUERADE => Some((50, Some(BLOCK)))
    case FILE_CLIENT_MIME_MISMATCH => Some((2, None))
    case PDF_JAVASCRIPT => Some((20, None))
    case PDF_OPEN_ACTION => Some((16, None))
    case PDF_ADDITIONAL_ACTION => Some((18, None))
    case PDF_LAUNCH_ACTION => Some((45, Some(QUARANTINE)))
    case PDF_EMBEDDED_FILE => Some((24, None))
    case PDF_ACROFORM => Some((8, None))
    case PDF_XFA => Some((24, None))
    case PDF_EXTERNAL_URI => Some((8, None))
    case PDF_EXTERNAL_SUBMISSION => Some((0, None))
    case PDF_ENCRYPTED => Some((8, None))
    case PDF_PARTIAL_ANALYSIS => Some((25, Some(QUARANTINE)))
    case PDF_MALFORMED => Some((45, Some(QUARANTINE)))
    case PDF_FALLBACK_INDICATOR => Some((0, None))
    case OFFICE_MACRO_ENABLED => Some((8, None))
    case OFFICE_VBA_MACRO => Some((18, None))
    case OFFICE_VBA_AUTOEXEC => Some((28, None))
    case OFFICE_VBA_EXECUTION_INDICATOR => Some((30, None))
    case OFFICE_EXTERNAL_RELATIONSHIP => Some((8, None))
    case OFFICE_EXTERNAL_TEMPLATE => Some((42, Some(QUARANTINE)))
    case OFFICE_EMBEDDED_OBJECT => Some((24, None))
    case OFFICE_ACTIVEX => Some((24, None))
    case OFFICE_ENCRYPTED => Some((8, None))
    case OFFICE_PARTIAL_ANALYSIS => Some((25, Some(QUARANTINE)))
    case OFFICE_MALFORMED => Some((45, Some(QUARANTINE)))
    case ARCHIVE_PATH_TRAVERSAL => Some((50, Some(BLOCK)))
    case ARCHIVE_ABSOLUTE_PATH => Some((50, Some(BLOCK)))
    case ARCHIVE_SYMLINK => Some((45, Some(BLOCK)))
    case ARCHIVE_DUPLICATE_MEMBER => Some((20, None))
    case ARCHIVE_DANGEROUS_MEMBER => Some((42, Some(QUARANTINE)))
    case ARCHIVE_MEMBER_DOUBLE_EXTENSION => Some((32, None))
    case ARCHIVE_MEMBER_BIDI_OVERRIDE => Some((28, None))
    case ARCHIVE_ENCRYPTED => Some((8, None))
    case ARCHIVE_NESTING_LIMIT => Some((25, Some(QUARANTINE)))
    case ARCHIVE_RESOURCE_LIMIT => Some((35, Some(QUARANTINE)))
    case ARCHIVE_MALFORMED => Some((45, Some(QUARANTINE)))
    case ARCHIVE_PARTIAL_ANALYSIS => Some((25, Some(QUARANTINE)))
    case YARA_TEST_SIGNATURE => Some((50, Some(BLOCK)))
    case YARA_SIGNATURE_MATCH => Some((50, Some(BLOCK)))
    case YARA_HEURISTIC_MATCH => Some((42, Some(QUARANTINE)))
    case YARA_PARTIAL_ANALYSIS => Some((25, Some(QUARANTINE)))
    case _ => None
  }

  predicate IsFinding(code: Code) { Table(code).Some? }

  function Policy(code: Code): FindingPolicy<Code> {
    var row := Table(code);
    if row.None? then FindingPolicy(code, 0, None, false)
    else FindingPolicy(code, row.value.0, row.value.1, row.value.1 == Some(BLOCK))
  }

  const COMPOUND_POLICIES: seq<CompoundPolicy<Code>> := [
    CompoundPolicy(POLICY_COMPOUND_PDF_AUTO_JS,
      {PDF_JAVASCRIPT, PDF_OPEN_ACTION}, 20, Some(QUARANTINE)),
    CompoundPolicy(POLICY_COMPOUND_OFFICE_MACRO_EXECUTION_CHAIN,
      {OFFICE_VBA_MACRO, OFFICE_VBA_AUTOEXEC, OFFICE_VBA_EXECUTION_INDICATOR}, 25, Some(QUARANTINE)),
    CompoundPolicy(POLICY_COMPOUND_OFFICE_AUTOEXEC_YARA,
      {OFFICE_VBA_AUTOEXEC, YARA_HEURISTIC_MATCH}, 15, Some(QUARANTINE)),
    CompoundPolicy(POLICY_COMPOUND_ARCHIVE_MEMBER_MASQUERADE,
      {ARCHIVE_DANGEROUS_MEMBER, ARCHIVE_MEMBER_DOUBLE_EXTENSION}, 18, Some(QUARANTINE)),
    CompoundPolicy(POLICY_COMPOUND_FILE_IDENTITY_DECEPTION,
      {FILE_DOUBLE_EXTENSION, FILE_TYPE_MISMATCH}, 18, Some(QUARANTINE))]

  const SHIPPED: Registry<Code> := Registry(
    "1.0.2",
    "c6d18b6f67b79a91151567c99c8844c741820935ab9d4ad32bb131a30412469b",
    set c: Code | IsFinding(c),
    map c: Code | IsFinding(c) :: Policy(c),
    COMPOUND_POLICIES,
    Before,
    IncompleteName,
    ReasonCode)

  type Result = AnalysisResult<Code>

  // ---------------------------------------------------------------- the shipped table is valid

  lemma ShippedOrdered()
    ensures Ordered(SHIPPED)
  {
  }

  lemma PolicyValid(code: Code)
    requires IsFinding(code)
    ensures ValidFinding(code, Policy(code))
  {
  }

  lemma RulesNamed()
    ensures forall i, j :: 0 <= i < j < |COMPOUND_POLICIES| ==> COMPOUND_POLICIES[i].name != COMPOUND_POLICIES[j].name
  {
  }

  lemma RuleValid(compound: CompoundPolicy<Code>)
    requires compound in COMPOUND_POLICIES
    ensures ValidCompound(compound, SHIPPED.known)
  {
  }

  lemma ShippedValid()
    ensures ValidRegistry(SHIPPED)
  {
    forall code | code in SHIPPED.findings ensures ValidFinding(code, SHIPPED.findings[code]) {
      PolicyValid(code);
    }
    RulesNamed();
    forall compound | compound in SHIPPED.compounds ensures ValidCompound(compound, SHIPPED.known) {
      RuleValid(compound);
    }
  }

  /** No row of the shipped table asks for REVIEW, and those that ask for BLOCK are hard blocks. */
  lemma NoReviewMinimum(c: Code)
    ensures Policy(c).minimum == None || Policy(c).minimum == Some(QUARANTINE)
            || (Policy(c).minimum == Some(BLOCK) && Policy(c).hardBlock)
  {
  }

  /**
   In the shipped table every triggered minimum is honoured: the exception that validation
   leaves open, a REVIEW minimum, does not occur.
   */
  lemma ShippedMinimumsHonoured(result: Option<Result>, failure: Option<FailureCode>, state: ScanState, m: Decision)
    requires ValidRegistry(SHIPPED) && Registered(SHIPPED, FindingCodes(SHIPPED, result))
    requires MinimumTriggered(SHIPPED, FindingCodes(SHIPPED, result), m)
    ensures m.Rank() <= Assess(SHIPPED, result, failure, state).decision.Rank()
  {
    ShippedOrdered();
    if m == REVIEW {
      forall c | c in FindingCodes(SHIPPED, result) ensures SHIPPED.findings[c].minimum != Some(REVIEW) {
        NoReviewMinimum(c);
        assert SHIPPED.findings[c] == Policy(c);
      }
      NoReviewRule();
    } else {
      MinimumsHonoured(SHIPPED, result, failure, state, m);
    }
  }

  lemma NoReviewRule()
    ensures forall k :: k in SHIPPED.compounds ==> k.minimum == Some(QUARANTINE)
  {
  }

  /** The two findings the registry keeps for explanation only. */
  predicate Explanatory(code: Code) { code == PDF_EXTERNAL_SUBMISSION || code == PDF_FALLBACK_INDICATOR }

  lemma ExplanatoryIsNeutral(code: Code)
    requires Explanatory(code)
    ensures Neutral(SHIPPED, code) && !SHIPPED.incomplete(code)
  {
    assert SHIPPED.findings[code] == Policy(code);
  }

  /** Adding one of them never changes score, decision, release or completeness. */
  lemma ExplanatoryChangesNothing(
    a: Result, b: Result, code: Code, failure: Option<FailureCode>, state: ScanState)
    requires Explanatory(code) && b == a.(findings := [code] + a.findings)
    requires forall c :: c in a.findings ==> IsFinding(c)
    ensures ValidRegistry(SHIPPED)
    ensures Registered(SHIPPED, FindingCodes(SHIPPED, Some(a))) && Registered(SHIPPED, FindingCodes(SHIPPED, Some(b)))
    ensures var before := Assess(SHIPPED, Some(a), failure, state);
            var after := Assess(SHIPPED, Some(b), failure, state);
            && after.score == before.score && after.decision == before.decision
            && after.release == before.release && after.complete == before.complete
  {
    ShippedOrdered();
    ShippedValid();
    ExplanatoryIsNeutral(code);
    NeutralCodeExactly(SHIPPED, a, b, code, failure, state);
  }

  // ---------------------------------------------------------------- lengths

  /** Names with increasing indices below `n` number at most `n`. */
  lemma {:induction false} IndexedLength(codes: seq<Code>, index: Code -> int, n: nat)
    requires forall i :: 0 <= i < |codes| ==> 0 <= index(codes[i]) < n
    requires forall i, j :: 0 <= i < j < |codes| ==> index(codes[i]) < index(codes[j])
    ensures |codes| <= n
  {
    if codes != [] {
      var last := |codes| - 1;
      IndexedLength(codes[..last], index, index(codes[last]));
    }
  }

  /** The position of a finding code among the finding codes: the other names are contiguous. */
  function FindingIndex(c: Code): int {
    if Position(c) < 41 then Position(c) else Position(c) - 14
  }

  lemma FindingCount(codes: seq<Code>)
    requires Ascending(Before, codes)
    requires forall c :: c in codes ==> IsFinding(c)
    ensures |codes| <= 45
  {
    forall i | 0 <= i < |codes|
      ensures 0 <= FindingIndex(codes[i]) < 45
      ensures !(41 <= Position(codes[i]) < 55)
    {
      assert codes[i] in codes;
    }
    IndexedLength(codes, FindingIndex, 45);
  }

  function HardBlockIndex(c: Code): int {
    match c
    case ARCHIVE_ABSOLUTE_PATH => 0 case ARCHIVE_PATH_TRAVERSAL => 1 case ARCHIVE_SYMLINK => 2
    case FILE_EXECUTABLE_MASQUERADE => 3 case YARA_SIGNATURE_MATCH => 4
    case YARA_TEST_SIGNATURE => 5 case _ => 6
  }

  lemma HardBlockCount(codes: seq<Code>)
    requires Ascending(Before, codes)
    requires forall c :: c in codes ==> IsFinding(c) && Policy(c).hardBlock
    ensures |codes| <= 6
  {
    forall i | 0 <= i < |codes| ensures 0 <= HardBlockIndex(codes[i]) < 6 {
      assert codes[i] in codes;
    }
    forall i, j | 0 <= i < j < |codes| ensures HardBlockIndex(codes[i]) < HardBlockIndex(codes[j]) {
      assert Before(codes[i], codes[j]);
    }
    IndexedLength(codes, HardBlockIndex, 6);
  }

  /** The position of a name among those that can be mandatory quarantine reasons. */
  function MandatoryIndex(c: Code): int {
    match c
    case ARCHIVE_DANGEROUS_MEMBER => 0 case ARCHIVE_MALFORMED => 1 case ARCHIVE_NESTING_LIMIT => 2
    case ARCHIVE_PARTIAL_ANALYSIS => 3 case ARCHIVE_RESOURCE_LIMIT => 4
    case OFFICE_EXTERNAL_TEMPLATE => 5 case OFFICE_MALFORMED => 6
    case OFFICE_PARTIAL_ANALYSIS => 7 case PDF_LAUNCH_ACTION => 8 case PDF_MALFORMED => 9
    case PDF_PARTIAL_ANALYSIS => 10 case POLICY_ANALYSIS_CONTRADICTION => 11
    case POLICY_ANALYSIS_FAILURE => 12 case POLICY_ANALYSIS_RESULT_MISSING => 13
    case POLICY_ANALYSIS_STATUS_FAILED => 14 case POLICY_ANALYSIS_STATUS_TIMEOUT => 15
    case POLICY_ANALYSIS_STATUS_UNSUPPORTED => 16
    case POLICY_COMPOUND_ARCHIVE_MEMBER_MASQUERADE => 17
    case POLICY_COMPOUND_FILE_IDENTITY_DECEPTION => 18
    case POLICY_COMPOUND_OFFICE_AUTOEXEC_YARA => 19
    case POLICY_COMPOUND_OFFICE_MACRO_EXECUTION_CHAIN => 20 case POLICY_COMPOUND_PDF_AUTO_JS => 21
    case POLICY_EVALUATION_FAILURE => 22 case POLICY_LIFECYCLE_INCONSISTENCY => 23
    case POLICY_UNSUPPORTED_DETECTED_TYPE => 24 case YARA_HEURISTIC_MATCH => 25
    case YARA_PARTIAL_ANALYSIS => 26 case _ => 27
  }

  lemma MandatoryCount(codes: seq<Code>)
    requires Ascending(Before, codes)
    requires forall c :: c in codes ==> MandatoryIndex(c) < 27
    ensures |codes| <= 27
  {
    forall i | 0 <= i < |codes| ensures 0 <= MandatoryIndex(codes[i]) < 27 {
      assert codes[i] in codes;
    }
    forall i, j | 0 <= i < j < |codes| ensures MandatoryIndex(codes[i]) < MandatoryIndex(codes[j]) {
      assert Before(codes[i], codes[j]);
    }
    IndexedLength(codes, MandatoryIndex, 27);
  }

  // ---------------------------------------------------------------- totality

  lemma MandatoryFinding(c: Code)
    requires IsFinding(c) && Policy(c).minimum == Some(QUARANTINE)
    ensures MandatoryIndex(c) < 27
  {
    match c
    case ARCHIVE_ABSOLUTE_PATH => case ARCHIVE_DANGEROUS_MEMBER => case ARCHIVE_DUPLICATE_MEMBER =>
    case ARCHIVE_ENCRYPTED => case ARCHIVE_MALFORMED => case ARCHIVE_MEMBER_BIDI_OVERRIDE =>
    case ARCHIVE_MEMBER_DOUBLE_EXTENSION => case ARCHIVE_NESTING_LIMIT => case ARCHIVE_PARTIAL_ANALYSIS =>
    case ARCHIVE_PATH_TRAVERSAL => case ARCHIVE_RESOURCE_LIMIT => case ARCHIVE_SYMLINK =>
    case FILE_BIDI_OVERRIDE => case FILE_CLIENT_MIME_MISMATCH => case FILE_DOUBLE_EXTENSION =>
    case FILE_EXECUTABLE_MASQUERADE => case FILE_TYPE_MISMATCH => case OFFICE_ACTIVEX =>
    case OFFICE_EMBEDDED_OBJECT => case OFFICE_ENCRYPTED => case OFFICE_EXTERNAL_RELATIONSHIP =>
    case OFFICE_EXTERNAL_TEMPLATE => case OFFICE_MACRO_ENABLED => case OFFICE_MALFORMED =>
    case OFFICE_PARTIAL_ANALYSIS => case OFFICE_VBA_AUTOEXEC => case OFFICE_VBA_EXECUTION_INDICATOR =>
    case OFFICE_VBA_MACRO => case PDF_ACROFORM => case PDF_ADDITIONAL_ACTION => case PDF_EMBEDDED_FILE =>
    case PDF_ENCRYPTED => case PDF_EXTERNAL_SUBMISSION => case PDF_EXTERNAL_URI =>
    case PDF_FALLBACK_INDICATOR => case PDF_JAVASCRIPT => case PDF_LAUNCH_ACTION => case PDF_MALFORMED =>
    case PDF_OPEN_ACTION => case PDF_PARTIAL_ANALYSIS => case PDF_XFA => case POLICY_ANALYSIS_CONTRADICTION =>
    case POLICY_ANALYSIS_FAILURE => case POLICY_ANALYSIS_RESULT_MISSING =>
    case POLICY_ANALYSIS_STATUS_FAILED => case POLICY_ANALYSIS_STATUS_TIMEOUT =>
    case POLICY_ANALYSIS_STATUS_UNSUPPORTED => case POLICY_COMPOUND_ARCHIVE_MEMBER_MASQUERADE =>
    case POLICY_COMPOUND_FILE_IDENTITY_DECEPTION => case POLICY_COMPOUND_OFFICE_AUTOEXEC_YARA =>
    case POLICY_COMPOUND_OFFICE_MACRO_EXECUTION_CHAIN => case POLICY_COMPOUND_PDF_AUTO_JS =>
    case POLICY_EVALUATION_FAILURE => case POLICY_LIFECYCLE_INCONSISTENCY =>
    case POLICY_UNSUPPORTED_DETECTED_TYPE => case YARA_HEURISTIC_MATCH => case YARA_PARTIAL_ANALYSIS =>
    case YARA_SIGNATURE_MATCH => case YARA_TEST_SIGNATURE =>
  }

  lemma MandatoryRule(k: CompoundPolicy<Code>)
    requires k in COMPOUND_POLICIES
    ensures MandatoryIndex(k.name) < 27
  {
  }

  lemma MandatoryReason(r: AnalysisReason)
    ensures MandatoryIndex(SHIPPED.reasonName(r)) < 27
  {
  }

  lemma MandatoryOrigin<C(!new)>(reg: Registry<C>, codes: seq<C>, reasons: seq<AnalysisReason>, c: C)
    requires Registered(reg, codes) && c in MandatoryNames(reg, codes, ReasonNames(reg, reasons))
    ensures || (c in codes && reg.findings[c].minimum == Some(QUARANTINE))
            || (exists k :: k in reg.compounds && k.name == c)
            || (exists r :: r in reasons && reg.reasonName(r) == c)
  {
    var triggered := Triggered(reg.compounds, codes);
    WithMinimumMembers(reg, codes, QUARANTINE);
    QuarantineNamesMembers(triggered);
    TriggeredCorrect(reg.compounds, codes);
    if c in ReasonNames(reg, reasons) {
      var i :| 0 <= i < |reasons| && ReasonNames(reg, reasons)[i] == c;
      assert reasons[i] in reasons;
    }
  }

  lemma MandatoryMembers(codes: seq<Code>, reasons: seq<AnalysisReason>, c: Code)
    requires Registered(SHIPPED, codes)
    requires c in MandatoryNames(SHIPPED, codes, ReasonNames(SHIPPED, reasons))
    ensures MandatoryIndex(c) < 27
  {
    MandatoryOrigin(SHIPPED, codes, reasons, c);
    if c in codes && SHIPPED.findings[c].minimum == Some(QUARANTINE) {
      MandatoryFinding(c);
    } else {
      MandatoryName(reasons, c);
    }
  }

  lemma MandatoryName(reasons: seq<AnalysisReason>, c: Code)
    requires || (exists k :: k in SHIPPED.compounds && k.name == c)
             || (exists r :: r in reasons && SHIPPED.reasonName(r) == c)
    ensures MandatoryIndex(c) < 27
  {
    if k :| k in SHIPPED.compounds && k.name == c {
      MandatoryRule(k);
    } else {
      var r :| r in reasons && SHIPPED.reasonName(r) == c;
      MandatoryReason(r);
    }
  }

  ghost predicate DistinctNames<C>(compounds: seq<CompoundPolicy<C>>) {
    forall i, j :: 0 <= i < j < |compounds| ==> compounds[i].name != compounds[j].name
  }

  lemma {:induction false} TriggeredNamesDistinct<C(!new)>(compounds: seq<CompoundPolicy<C>>, codes: seq<C>)
    requires DistinctNames(compounds)
    ensures DistinctNames(Triggered(compounds, codes))
  {
    if compounds != [] {
      var rest := Triggered(compounds[1..], codes);
      TriggeredNamesDistinct(compounds[1..], codes);
      TriggeredCorrect(compounds[1..], codes);
      forall j | 0 <= j < |rest| ensures rest[j].name != compounds[0].name {
        var k :| 0 <= k < |compounds[1..]| && compounds[1..][k] == rest[j];
        assert compounds[k + 1] == rest[j];
      }
    }
  }

  lemma {:induction false} CompoundRulesSorted<C(!new)>(reg: Registry<C>, codes: seq<C>)
    requires Ordered(reg) && ValidRegistry(reg)
    ensures var rules := Sort(reg.before, Names(Triggered(reg.compounds, codes)));
            SortUnique(reg.before, rules) == rules && |rules| <= |reg.compounds|
  {
    var names := Names(Triggered(reg.compounds, codes));
    TriggeredNamesDistinct(reg.compounds, codes);
    var t := Triggered(reg.compounds, codes);
    assert DistinctNames(t);
    forall i, j | 0 <= i < j < |names| ensures names[i] != names[j] {
      assert t[i].name != t[j].name;
    }
    SortIsSortUnique(reg.before, names);
    SortUniqueCorrect(reg.before, names);
    AscendingIsSorted(reg.before, SortUnique(reg.before, names));
    TriggeredCorrect(reg.compounds, codes);
  }

  lemma ContributionsBounded<C(!new)>(reg: Registry<C>, codes: seq<C>, triggered: seq<CompoundPolicy<C>>)
    requires ValidRegistry(reg) && Registered(reg, codes)
    requires forall k :: k in triggered ==> k in reg.compounds
    ensures forall c :: c in CodePoints(reg, codes) + CompoundPoints(triggered) ==> 0 <= c.points <= 100
  {
    forall c | c in CodePoints(reg, codes) ensures 0 <= c.points <= 100 {
      var i :| 0 <= i < |codes| && CodePoints(reg, codes)[i] == c;
      assert codes[i] in codes;
    }
    forall c | c in CompoundPoints(triggered) ensures 0 <= c.points <= 100 {
      var i :| 0 <= i < |triggered| && CompoundPoints(triggered)[i] == c;
      assert triggered[i] in triggered;
    }
  }

  /** The two `code`-sorted lists of an evaluation respect the lengths and ranges of the result model. */
  lemma ShippedLists(codes: seq<Code>, reasons: seq<AnalysisReason>, lt: (Contribution<Code>, Contribution<Code>) -> bool)
    requires ValidRegistry(SHIPPED) && Registered(SHIPPED, codes) && |codes| <= 45 && |reasons| <= 5
    ensures var triggered := Triggered(SHIPPED.compounds, codes);
            var points := Sort(lt, CodePoints(SHIPPED, codes) + CompoundPoints(triggered));
            && |Sort(Before, codes + Names(triggered) + ReasonNames(SHIPPED, reasons))| <= 64
            && |points| <= 64 && forall c :: c in points ==> 0 <= c.points <= 100
  {
    var triggered := Triggered(SHIPPED.compounds, codes);
    TriggeredCorrect(SHIPPED.compounds, codes);
    assert |SHIPPED.compounds| == 5;
    SortPermutes(Before, codes + Names(triggered) + ReasonNames(SHIPPED, reasons));
    ContributionsBounded(SHIPPED, codes, triggered);
    SortPermutes(lt, CodePoints(SHIPPED, codes) + CompoundPoints(triggered));
  }

  lemma ShippedTuples(codes: seq<Code>, reasons: seq<AnalysisReason>)
    requires Ascending(Before, codes) && Registered(SHIPPED, codes) && |reasons| <= 5
    ensures var hard := SortUnique(Before, HardBlocking(SHIPPED, codes));
            |hard| <= 16 && SortUnique(Before, hard) == hard
    ensures var must := SortUnique(Before, MandatoryNames(SHIPPED, codes, ReasonNames(SHIPPED, reasons)));
            |must| <= 32 && SortUnique(Before, must) == must
    ensures |codes| <= 45
  {
    ShippedOrdered();
    FindingCount(codes);
    HardBlockingMembers(SHIPPED, codes);
    SortUniqueCorrect(Before, HardBlocking(SHIPPED, codes));
    var hard := SortUnique(Before, HardBlocking(SHIPPED, codes));
    HardBlockCount(hard);
    AscendingIsSorted(Before, hard);
    var names := MandatoryNames(SHIPPED, codes, ReasonNames(SHIPPED, reasons));
    SortUniqueCorrect(Before, names);
    var must := SortUnique(Before, names);
    forall c | c in must ensures MandatoryIndex(c) < 27 { MandatoryMembers(codes, reasons, c); }
    MandatoryCount(must);
    AscendingIsSorted(Before, must);
  }

  /** The tuples `Assess` builds, apart from its scalar fields. */
  ghost predicate TuplesFit<C(!new)>(reg: Registry<C>, codes: seq<C>, reasons: seq<AnalysisReason>)
    requires Registered(reg, codes)
  {
    var triggered := Triggered(reg.compounds, codes);
    var hard := SortUnique(reg.before, HardBlocking(reg, codes));
    var must := SortUnique(reg.before, MandatoryNames(reg, codes, ReasonNames(reg, reasons)));
    var rules := Sort(reg.before, Names(triggered));
    var points := Sort((a: Contribution<C>, b: Contribution<C>) => reg.before(a.code, b.code),
                       CodePoints(reg, codes) + CompoundPoints(triggered));
    && |hard| <= 16 && SortUnique(reg.before, hard) == hard
    && |must| <= 32 && SortUnique(reg.before, must) == must
    && |rules| <= 16 && SortUnique(reg.before, rules) == rules
    && |Sort(reg.before, codes + Names(triggered) + ReasonNames(reg, reasons))| <= 64
    && |points| <= 64 && (forall c :: c in points ==> 0 <= c.points <= 100)
  }

  lemma AssessmentValid<C(!new)>(
    reg: Registry<C>, result: Option<AnalysisResult<C>>, failure: Option<FailureCode>, state: ScanState)
    requires Ordered(reg) && ValidRegistry(reg) && Registered(reg, FindingCodes(reg, result))
    requires 1 <= |reg.version| <= 32 && |reg.fingerprint| == 64
    requires TuplesFit(reg, FindingCodes(reg, result), CompletenessReasons(reg, result, failure, state))
    ensures ValidEvaluation(reg, Assess(reg, result, failure, state))
  {
    AssessMeaning(reg, result, failure, state);
  }

  lemma ShippedAssessmentValid(
    result: Option<Result>, failure: Option<FailureCode>, state: ScanState)
    requires Registered(SHIPPED, FindingCodes(SHIPPED, result)) && ValidRegistry(SHIPPED)
    ensures ValidEvaluation(SHIPPED, Assess(SHIPPED, result, failure, state))
  {
    ShippedOrdered();
    var codes := FindingCodes(SHIPPED, result);
    var reasons := CompletenessReasons(SHIPPED, result, failure, state);
    if result.Some? { SortUniqueCorrect(Before, result.value.findings); }
    assert TuplesFit(SHIPPED, codes, reasons) by {
      ShippedTuples(codes, reasons);
      CompoundRulesSorted(SHIPPED, codes);
      assert |SHIPPED.compounds| == 5;
      ShippedLists(codes, reasons,
                   (a: Contribution<Code>, b: Contribution<Code>) => SHIPPED.before(a.code, b.code));
    }
    AssessmentValid(SHIPPED, result, failure, state);
  }

  /**
   Totality: with the shipped table, any registered findings, status, failure code and
   lifecycle state give an evaluation that passes every validator of the result model.
   An unregistered finding is the only way to fail.
   */
  lemma ShippedTotal(result: Option<Result>, failure: Option<FailureCode>, state: ScanState)
    ensures Evaluate(SHIPPED, result, failure, state).Some? <==>
            (result.Some? ==> forall c :: c in result.value.findings ==> IsFinding(c))
    ensures Evaluate(SHIPPED, result, failure, state).Some? ==>
            Registered(SHIPPED, FindingCodes(SHIPPED, result)) &&
            Evaluate(SHIPPED, result, failure, state).value == Assess(SHIPPED, result, failure, state)
  {
    ShippedOrdered();
    ShippedValid();
    if result.Some? { SortUniqueCorrect(Before, result.value.findings); }
    if Registered(SHIPPED, FindingCodes(SHIPPED, result)) {
      ShippedAssessmentValid(result, failure, state);
    }
  }

  /**
   What an ALLOW from the shipped policy says: a regular, successful, complete analysis of a
   supported type whose findings each contribute less than 20 and carry no minimum.
   */
  lemma ShippedAllow(result: Option<Result>, failure: Option<FailureCode>, state: ScanState)
    requires var e := Evaluate(SHIPPED, result, failure, state);
             e.Some? && e.value.decision == ALLOW
    ensures Evaluate(SHIPPED, result, failure, state).value.score < 20
    ensures result.Some? && result.value.status == SUCCESS && failure == None
    ensures result.value.detectedType.Some? && result.value.detectedType.value in SUPPORTED_RELEASE_TYPES
    ensures state == ANALYZING || state == COMPLETED
    ensures forall c :: c in result.value.findings ==>
              IsFinding(c) && Policy(c).minimum == None && Policy(c).contribution < 20 && !IncompleteName(c)
  {
    ShippedOrdered();
    ShippedValid();
    ShippedTotal(result, failure, state);
    AllowExactly(SHIPPED, result, failure, state);
    AssessMeaning(SHIPPED, result, failure, state);
    SortUniqueCorrect(Before, result.value.findings);
    forall c | c in result.value.findings
      ensures IsFinding(c) && Policy(c).minimum == None && Policy(c).contribution < 20
    {
      AllowedFinding(FindingCodes(SHIPPED, result), c);
    }
  }

  /** A finding without hard block or quarantine minimum, in a set scoring below 20. */
  lemma AllowedFinding(codes: seq<Code>, c: Code)
    requires ValidRegistry(SHIPPED) && Registered(SHIPPED, codes) && Ascending(Before, codes) && c in codes
    requires !HasHardBlock(SHIPPED, codes) && !HasQuarantineMinimum(SHIPPED, codes) && Points(SHIPPED, codes) < 20
    ensures IsFinding(c) && Policy(c).minimum == None && Policy(c).contribution < 20
  {
    PointsAtLeast(codes, c);
    NoReviewMinimum(c);
    assert SHIPPED.findings[c] == Policy(c);
  }

  /** One finding alone already contributes its points. */
  lemma PointsAtLeast(codes: seq<Code>, c: Code)
    requires ValidRegistry(SHIPPED) && Registered(SHIPPED, codes) && Ascending(Before, codes) && c in codes
    ensures Policy(c).contribution <= Points(SHIPPED, codes)
  {
    ShippedOrdered();
    PointsMonotone(SHIPPED, [c], codes);
    assert CodePoints(SHIPPED, [c]) == [Contribution(c, Policy(c).contribution)];
    assert Total(CodePoints(SHIPPED, [c])) == Policy(c).contribution + Total(CodePoints(SHIPPED, [c])[1..]);
    TotalNonNegative(SHIPPED, [], Triggered(SHIPPED.compounds, []));
    TriggeredCorrect(SHIPPED.compounds, [c]);
    var fired := CompoundPoints(Triggered(SHIPPED.compounds, [c]));
    forall i | 0 <= i < |fired| ensures fired[i].points >= 0 {
      assert Triggered(SHIPPED.compounds, [c])[i] in SHIPPED.compounds;
    }
    TotalOfNonNegative(fired);
  }
}
