/**
 The trusted policy engine (app/policies/engine.py, registry.py and models.py), for any
 registry over any type `C` of finding and rule names. Explanations and timestamps are
 not part of the model.
 */
module PolicyEngine {
  import opened Wrappers
  import opened Ordering

  datatype Decision = ALLOW | REVIEW | QUARANTINE | BLOCK {
    function Rank(): nat {
      match this case ALLOW => 0 case REVIEW => 1 case QUARANTINE => 2 case BLOCK => 3
    }
  }

  datatype RiskBand = LOW | MODERATE | HIGH | CRITICAL

  datatype AnalysisStatus = SUCCESS | UNSUPPORTED | FAILED | TIMEOUT

  datatype ScanState = STORED | ANALYZING | COMPLETED | QUARANTINED | FAILED

  datatype FailureCode =
    | IsolationUnavailable | Timeout | NonZeroExit | OutputLimitExceeded
    | MalformedOutput | WorkerFailed | Unsupported

  datatype AnalysisReason =
    | ResultMissing | StatusFailed | StatusTimeout | StatusUnsupported | AnalysisFailure
    | LifecycleInconsistency | UnsupportedDetectedType | AnalysisContradiction
    | EvaluationFailure

  datatype FindingPolicy<C> = FindingPolicy(
    findingCode: C, contribution: int, minimum: Option<Decision>, hardBlock: bool)

  datatype CompoundPolicy<C> = CompoundPolicy(
    name: C, required: set<C>, contribution: int, minimum: Option<Decision>)

  /**
   `known` is the set of registered finding definitions, `before` the string order on
   names, `incomplete` the suffix test for partial and malformed findings, and `reasonName`
   the name of each completeness reason.
   */
  datatype Registry<!C> = Registry(
    version: string,
    fingerprint: string,
    known: set<C>,
    findings: map<C, FindingPolicy<C>>,
    compounds: seq<CompoundPolicy<C>>,
    before: (C, C) -> bool,
    incomplete: C -> bool,
    reasonName: AnalysisReason -> C)

  datatype AnalysisResult<C> = AnalysisResult(
    status: AnalysisStatus, detectedType: Option<string>, findings: seq<C>)

  datatype Contribution<C> = Contribution(code: C, points: int)

  datatype Evaluation<C> = Evaluation(
    version: string,
    fingerprint: string,
    score: int,
    band: RiskBand,
    decision: Decision,
    release: bool,
    complete: bool,
    hardBlocks: seq<C>,
    mandatory: seq<C>,
    compoundRules: seq<C>,
    decisionReasons: seq<C>,
    contributions: seq<Contribution<C>>)

  const SUPPORTED_RELEASE_TYPES: set<string> := {
    "PDF", "ZIP", "TEXT",
    "OFFICE_WORD_OOXML", "OFFICE_EXCEL_OOXML", "OFFICE_POWERPOINT_OOXML",
    "OFFICE_WORD_OLE", "OFFICE_EXCEL_OLE", "OFFICE_POWERPOINT_OLE"}

  // ---------------------------------------------------------------- registry validation

  predicate ValidFinding<C(==)>(code: C, policy: FindingPolicy<C>) {
    && policy.findingCode == code
    && 0 <= policy.contribution <= 100
    && policy.minimum != Some(ALLOW)
    && policy.hardBlock == (policy.minimum == Some(BLOCK))
  }

  predicate ValidCompound<C(==)>(compound: CompoundPolicy<C>, known: set<C>) {
    && compound.required != {} && compound.required <= known
    && 0 <= compound.contribution <= 100
    && compound.minimum != Some(ALLOW) && compound.minimum != Some(BLOCK)
  }

  predicate ValidRegistry<C(==)>(reg: Registry<C>) {
    && reg.findings.Keys == reg.known
    && (forall code | code in reg.findings :: ValidFinding(code, reg.findings[code]))
    && (forall i, j | 0 <= i < j < |reg.compounds| :: reg.compounds[i].name != reg.compounds[j].name)
    && (forall compound | compound in reg.compounds :: ValidCompound(compound, reg.known))
  }

  /** The names are ordered as strings are: the assumption behind every `sorted` call. */
  ghost predicate Ordered<C(!new)>(reg: Registry<C>) {
    StrictOrder(reg.before)
  }

  // ---------------------------------------------------------------- evaluation

  function RiskBandForScore(score: int): (band: RiskBand)
    requires 0 <= score <= 100
    ensures band == CRITICAL <==> 70 <= score
    ensures band == LOW <==> score < 20
    ensures band == HIGH <==> 40 <= score < 70
  {
    if score >= 70 then CRITICAL else if score >= 40 then HIGH
    else if score >= 20 then MODERATE else LOW
  }

  function FindingCodes<C(==)>(reg: Registry<C>, result: Option<AnalysisResult<C>>): seq<C> {
    match result case None => [] case Some(r) => SortUnique(reg.before, r.findings)
  }

  predicate Registered<C(==)>(reg: Registry<C>, codes: seq<C>) {
    forall code | code in codes :: code in reg.findings
  }

  predicate Fires<C(==)>(compound: CompoundPolicy<C>, codes: seq<C>) {
    forall code | code in compound.required :: code in codes
  }

  function Triggered<C(==)>(compounds: seq<CompoundPolicy<C>>, codes: seq<C>): seq<CompoundPolicy<C>> {
    if compounds == [] then []
    else (if Fires(compounds[0], codes) then [compounds[0]] else []) + Triggered(compounds[1..], codes)
  }

  function Names<C>(compounds: seq<CompoundPolicy<C>>): seq<C> {
    seq(|compounds|, i requires 0 <= i < |compounds| => compounds[i].name)
  }

  function QuarantineNames<C>(compounds: seq<CompoundPolicy<C>>): seq<C> {
    if compounds == [] then []
    else (if compounds[0].minimum == Some(QUARANTINE) then [compounds[0].name] else [])
         + QuarantineNames(compounds[1..])
  }

  function WithMinimum<C(==)>(reg: Registry<C>, codes: seq<C>, minimum: Decision): seq<C>
    requires Registered(reg, codes)
  {
    if codes == [] then []
    else (assert codes[0] in codes;
          if reg.findings[codes[0]].minimum == Some(minimum) then [codes[0]] else [])
         + WithMinimum(reg, codes[1..], minimum)
  }

  function HardBlocking<C(==)>(reg: Registry<C>, codes: seq<C>): seq<C>
    requires Registered(reg, codes)
  {
    if codes == [] then []
    else (assert codes[0] in codes;
          if reg.findings[codes[0]].hardBlock then [codes[0]] else [])
         + HardBlocking(reg, codes[1..])
  }

  function CodePoints<C(==)>(reg: Registry<C>, codes: seq<C>): seq<Contribution<C>>
    requires Registered(reg, codes)
  {
    seq(|codes|, i requires 0 <= i < |codes| =>
      assert codes[i] in codes; Contribution(codes[i], reg.findings[codes[i]].contribution))
  }

  function CompoundPoints<C>(compounds: seq<CompoundPolicy<C>>): seq<Contribution<C>> {
    seq(|compounds|, i requires 0 <= i < |compounds| =>
      Contribution(compounds[i].name, compounds[i].contribution))
  }

  function Total<C>(contributions: seq<Contribution<C>>): int {
    if contributions == [] then 0 else contributions[0].points + Total(contributions[1..])
  }

  function CompletenessReasons<C(==)>(
    reg: Registry<C>, result: Option<AnalysisResult<C>>,
    failure: Option<FailureCode>, state: ScanState): seq<AnalysisReason>
  {
    (match result
     case None => [ResultMissing]
     case Some(r) =>
       (match r.status
        case SUCCESS => []
        case FAILED => [StatusFailed]
        case TIMEOUT => [StatusTimeout]
        case UNSUPPORTED => [StatusUnsupported])
       + (if r.detectedType.Some? && r.detectedType.value in SUPPORTED_RELEASE_TYPES
          then [] else [UnsupportedDetectedType])
       + (if r.status == SUCCESS && exists code | code in r.findings :: reg.incomplete(code)
          then [AnalysisContradiction] else []))
    + (if failure.Some? then [AnalysisFailure] else [])
    + (if state != ANALYZING && state != COMPLETED then [LifecycleInconsistency] else [])
  }

  function ReasonNames<C>(reg: Registry<C>, reasons: seq<AnalysisReason>): seq<C> {
    seq(|reasons|, i requires 0 <= i < |reasons| => reg.reasonName(reasons[i]))
  }

  function Decide(blocked: bool, mandatory: bool, score: int): Decision {
    if blocked then BLOCK
    else if mandatory || score >= 40 then QUARANTINE
    else if score >= 20 then REVIEW
    else ALLOW
  }

  function MandatoryNames<C(==)>(reg: Registry<C>, codes: seq<C>, reasons: seq<C>): seq<C>
    requires Registered(reg, codes)
  {
    WithMinimum(reg, codes, QUARANTINE) + QuarantineNames(Triggered(reg.compounds, codes)) + reasons
  }

  function Min(a: int, b: int): int { if a <= b then a else b }

  /** The evaluation the engine constructs, before the result model validates it. */
  function Assess<C(==)>(
    reg: Registry<C>, result: Option<AnalysisResult<C>>,
    failure: Option<FailureCode>, state: ScanState): Evaluation<C>
    requires ValidRegistry(reg) && Registered(reg, FindingCodes(reg, result))
  {
    var codes := FindingCodes(reg, result);
    var triggered := Triggered(reg.compounds, codes);
    var contributions :=
      Sort((a: Contribution<C>, b: Contribution<C>) => reg.before(a.code, b.code),
           CodePoints(reg, codes) + CompoundPoints(triggered));
    TotalNonNegative(reg, codes, triggered);
    TotalOfSort((a: Contribution<C>, b: Contribution<C>) => reg.before(a.code, b.code),
                CodePoints(reg, codes) + CompoundPoints(triggered));
    var score := Min(100, Total(contributions));
    var reasons := ReasonNames(reg, CompletenessReasons(reg, result, failure, state));
    var hardBlocks := SortUnique(reg.before, HardBlocking(reg, codes));
    var mandatory := SortUnique(reg.before, MandatoryNames(reg, codes, reasons));
    var decision := Decide(hardBlocks != [], mandatory != [], score);
    Evaluation(
      reg.version, reg.fingerprint, score, RiskBandForScore(score), decision, decision == ALLOW,
      reasons == [], hardBlocks, mandatory, Sort(reg.before, Names(triggered)),
      Sort(reg.before, codes + Names(triggered) + reasons), contributions)
  }

  /** The validators of the stored result model. */
  predicate ValidEvaluation<C(==)>(reg: Registry<C>, e: Evaluation<C>) {
    && 1 <= |e.version| <= 32 && |e.fingerprint| == 64
    && 0 <= e.score <= 100
    && |e.hardBlocks| <= 16 && |e.mandatory| <= 32 && |e.compoundRules| <= 16
    && |e.decisionReasons| <= 64 && |e.contributions| <= 64
    && (forall c | c in e.contributions :: 0 <= c.points <= 100)
    && SortUnique(reg.before, e.hardBlocks) == e.hardBlocks
    && SortUnique(reg.before, e.mandatory) == e.mandatory
    && SortUnique(reg.before, e.compoundRules) == e.compoundRules
    && e.release == (e.decision == ALLOW)
    && (e.hardBlocks != [] ==> e.decision == BLOCK)
    && (e.decision == ALLOW ==> e.complete)
  }

  /** `evaluate_policy`: `None` stands for any of its exceptions. */
  function Evaluate<C(==)>(
    reg: Registry<C>, result: Option<AnalysisResult<C>>,
    failure: Option<FailureCode>, state: ScanState): Option<Evaluation<C>>
  {
    if !ValidRegistry(reg) || !Registered(reg, FindingCodes(reg, result)) then None
    else
      var e := Assess(reg, result, failure, state);
      if ValidEvaluation(reg, e) then Some(e) else None
  }

  function FailClosed<C>(reg: Registry<C>): Evaluation<C> {
    Evaluation(reg.version, reg.fingerprint, 0, LOW, QUARANTINE, false, false, [],
               [reg.reasonName(EvaluationFailure)], [], [reg.reasonName(EvaluationFailure)], [])
  }

  // ---------------------------------------------------------------- totals

  lemma {:induction false} TotalOfConcat<C>(a: seq<Contribution<C>>, b: seq<Contribution<C>>)
    ensures Total(a + b) == Total(a) + Total(b)
  {
    if a == [] {
      assert a + b == b;
    } else {
      assert (a + b)[1..] == a[1..] + b;
      TotalOfConcat(a[1..], b);
    }
  }

  lemma {:induction false} TotalOfInsert<C>(
    lt: (Contribution<C>, Contribution<C>) -> bool, x: Contribution<C>, s: seq<Contribution<C>>)
    ensures Total(Insert(lt, x, s)) == x.points + Total(s)
  {
    if s != [] && lt(s[0], x) {
      TotalOfInsert(lt, x, s[1..]);
      var r := Insert(lt, x, s);
      assert r[1..] == Insert(lt, x, s[1..]);
    } else {
      assert ([x] + s)[1..] == s;
    }
  }

  lemma {:induction false} TotalOfSort<C>(
    lt: (Contribution<C>, Contribution<C>) -> bool, s: seq<Contribution<C>>)
    ensures Total(Sort(lt, s)) == Total(s)
  {
    if s != [] {
      TotalOfSort(lt, s[1..]);
      TotalOfInsert(lt, s[0], Sort(lt, s[1..]));
    }
  }

  lemma {:induction false} TotalOfNonNegative<C>(s: seq<Contribution<C>>)
    requires forall i :: 0 <= i < |s| ==> s[i].points >= 0
    ensures Total(s) >= 0
  {
    if s != [] { TotalOfNonNegative(s[1..]); }
  }

  lemma {:induction false} TriggeredCorrect<C>(compounds: seq<CompoundPolicy<C>>, codes: seq<C>)
    ensures |Triggered(compounds, codes)| <= |compounds|
    ensures forall k :: k in Triggered(compounds, codes) <==> k in compounds && Fires(k, codes)
    ensures var t := Triggered(compounds, codes); forall i :: 0 <= i < |t| ==> t[i] in compounds
  {
    if compounds != [] {
      assert compounds == [compounds[0]] + compounds[1..];
      TriggeredCorrect(compounds[1..], codes);
    }
  }

  lemma TotalNonNegative<C>(reg: Registry<C>, codes: seq<C>, triggered: seq<CompoundPolicy<C>>)
    requires ValidRegistry(reg) && Registered(reg, codes)
    requires triggered == Triggered(reg.compounds, codes)
    ensures Total(CodePoints(reg, codes) + CompoundPoints(triggered)) >= 0
  {
    TriggeredCorrect(reg.compounds, codes);
    var all := CodePoints(reg, codes) + CompoundPoints(triggered);
    forall i | 0 <= i < |all| ensures all[i].points >= 0 {
      if i < |codes| {
        assert codes[i] in codes;
      } else {
        assert triggered[i - |codes|] in triggered;
      }
    }
    TotalOfNonNegative(all);
  }
}
