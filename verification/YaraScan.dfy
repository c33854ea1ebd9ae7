/**
 From YARA matches to finding metadata in the worker (worker/yara_engine.py), against the
 validators the trusted side applies to it (app/models/domain.py).
 */
module YaraScan {
  import opened Wrappers
  import opened Ordering

  const MAX_STRING_IDS: nat := 16
  const MAX_OFFSETS: nat := 16
  const MAX_MATCH_COUNT: nat := 1_000_000

  /** One matched string: its identifier and the offsets of its instances. */
  datatype StringMatch = StringMatch(identifier: string, offsets: seq<int>)

  datatype RuleMatch = RuleMatch(rule: string, space: string, strings: seq<StringMatch>)

  /** The reasons for a partial scan, in the order of their names. */
  datatype Reason =
    | EngineMatchWarning | EngineWarning | InternalTimeout | MatchInstanceLimit | MatchedRuleLimit
    | MetadataLimit | OffsetLimit | ScannerError | StringIdentifierLimit
  {
    function Position(): nat {
      match this
      case EngineMatchWarning => 0 case EngineWarning => 1 case InternalTimeout => 2
      case MatchInstanceLimit => 3 case MatchedRuleLimit => 4 case MetadataLimit => 5
      case OffsetLimit => 6 case ScannerError => 7 case StringIdentifierLimit => 8
    }
  }

  predicate Before(a: Reason, b: Reason) { a.Position() < b.Position() }

  const REASONS: seq<Reason> := [
    EngineMatchWarning, EngineWarning, InternalTimeout, MatchInstanceLimit, MatchedRuleLimit,
    MetadataLimit, OffsetLimit, ScannerError, StringIdentifierLimit]

  /** How the engine's `match` call ended; only the first warning is kept. */
  datatype Engine = TimedOut | Failed | Matched(matches: seq<RuleMatch>, warning: Option<Reason>)

  /** The varying part of a match's metadata; the rest is copied from the shared rule registry. */
  datatype Metadata = Metadata(rule: string, matchCount: int, stringIds: seq<string>, offsets: seq<int>)

  datatype LimitSettings = LimitSettings(
    maxMatchedRules: nat, maxInstances: nat, maxStringIds: nat, maxOffsets: nat, maxMetadataBytes: nat)

  /** `YaraScanLimits` refuses limits beyond the trusted contract. */
  predicate ValidLimits(l: LimitSettings) {
    && 0 < l.maxMatchedRules && 0 < l.maxInstances <= MAX_MATCH_COUNT && 0 < l.maxStringIds <= MAX_STRING_IDS
    && 0 < l.maxOffsets <= MAX_OFFSETS && 0 < l.maxMetadataBytes
  }

  const DEFAULT_LIMITS := LimitSettings(32, 4_096, MAX_STRING_IDS, MAX_OFFSETS, 12 * 1024)

  type Limits = l: LimitSettings | ValidLimits(l) witness DEFAULT_LIMITS

  /** The rule pack both sides know, and the encoded size of a metadata object. */
  datatype Pack = Pack(space: string, rules: set<string>, size: Metadata -> nat) {
    function Size(m: Metadata): nat { size(m) }
  }

  datatype Result =
    | Rejected    // a match outside the trusted manifest
    | Analysis(complete: bool, findings: seq<Metadata>, reasons: seq<Reason>, matchedRules: nat)

  // ---------------------------------------------------------------- the trusted validators

  predicate ValidIdentifier(id: string) { id != "" && id[0] == '$' && |id| <= 128 }

  /** `_validate_yara_match_metadata`. */
  ghost predicate ValidMatch(pack: Pack, m: Metadata) {
    && m.rule in pack.rules
    && 1 <= m.matchCount <= MAX_MATCH_COUNT
    && |m.stringIds| <= MAX_STRING_IDS && (forall id :: id in m.stringIds ==> ValidIdentifier(id))
    && m.stringIds == SortUnique(StringLess, m.stringIds)
    && |m.offsets| <= MAX_OFFSETS && (forall o :: o in m.offsets ==> o >= 0)
    && m.offsets == SortUnique(IntLess, m.offsets)
  }

  /** `_validate_yara_partial_metadata`. */
  predicate ValidPartial(reasons: seq<Reason>) {
    reasons != [] && |reasons| <= |REASONS| && reasons == SortUnique(Before, reasons)
  }

  // ---------------------------------------------------------------- what a match should report

  function Offsets(strings: seq<StringMatch>): seq<int> {
    if strings == [] then [] else Offsets(strings[..|strings| - 1]) + strings[|strings| - 1].offsets
  }

  function Identifiers(strings: seq<StringMatch>): seq<string> {
    seq(|strings|, i requires 0 <= i < |strings| => strings[i].identifier)
  }

  function Least(a: nat, b: nat): nat { if a <= b then a else b }

  function First<T>(s: seq<T>, n: nat): seq<T> { if |s| <= n then s else s[..n] }

  /** The metadata of a match within the limits. */
  function Reported(limits: Limits, m: RuleMatch): Metadata {
    var offsets := Offsets(m.strings);
    Metadata(m.rule, Least(|offsets|, limits.maxInstances),
             First(SortUnique(StringLess, Identifiers(m.strings)), limits.maxStringIds),
             SortUnique(IntLess, First(offsets, limits.maxOffsets)))
  }

  /** The metadata of a match with nothing left out. */
  function Full(m: RuleMatch): Metadata {
    Metadata(m.rule, |Offsets(m.strings)|, SortUnique(StringLess, Identifiers(m.strings)),
             SortUnique(IntLess, Offsets(m.strings)))
  }

  function Losses(limits: Limits, m: RuleMatch): set<Reason> {
    (if |SortUnique(StringLess, Identifiers(m.strings))| > limits.maxStringIds then {StringIdentifierLimit} else {})
    + (if |Offsets(m.strings)| > limits.maxInstances then {MatchInstanceLimit} else {})
    + (if |Offsets(m.strings)| > limits.maxOffsets then {OffsetLimit} else {})
  }

  /** What the engine promises of a match: instances, `$` identifiers, offsets from the start. */
  ghost predicate WellFormed(m: RuleMatch) {
    && Offsets(m.strings) != []
    && (forall o :: o in Offsets(m.strings) ==> o >= 0)
    && (forall s :: s in m.strings ==> ValidIdentifier(s.identifier))
  }

  lemma PrefixSorted<T(!new)>(lt: (T, T) -> bool, s: seq<T>, n: nat)
    requires StrictOrder(lt)
    ensures var r := First(SortUnique(lt, s), n);
            r == SortUnique(lt, r) && |r| <= n && |r| <= |s| && forall x :: x in r ==> x in s
  {
    SortUniqueCorrect(lt, s);
    AscendingIsSorted(lt, First(SortUnique(lt, s), n));
  }

  lemma IntLessStrict()
    ensures StrictOrder(IntLess)
  {
  }

  lemma ReportedOffsetsValid(limits: Limits, m: RuleMatch)
    requires forall o :: o in Offsets(m.strings) ==> o >= 0
    ensures var offsets := Reported(limits, m).offsets;
            |offsets| <= MAX_OFFSETS && (forall o :: o in offsets ==> o >= 0) && offsets == SortUnique(IntLess, offsets)
  {
    IntLessStrict();
    var kept := First(Offsets(m.strings), limits.maxOffsets);
    assert forall o :: o in kept ==> o in Offsets(m.strings);
    PrefixSorted(IntLess, kept, |SortUnique(IntLess, kept)|);
  }

  lemma ReportedIdsValid(limits: Limits, m: RuleMatch)
    requires forall s :: s in m.strings ==> ValidIdentifier(s.identifier)
    ensures var ids := Reported(limits, m).stringIds;
            |ids| <= MAX_STRING_IDS && (forall id :: id in ids ==> ValidIdentifier(id)) && ids == SortUnique(StringLess, ids)
  {
    StringLessStrict();
    var all := Identifiers(m.strings);
    PrefixSorted(StringLess, all, limits.maxStringIds);
    forall id | id in all ensures ValidIdentifier(id) {
      var i :| 0 <= i < |all| && all[i] == id;
      assert m.strings[i] in m.strings;
    }
  }

  /** Every metadata the worker emits for a well-formed match of the pack passes the validator. */
  lemma ReportedIsValid(pack: Pack, limits: Limits, m: RuleMatch)
    requires WellFormed(m) && m.rule in pack.rules
    ensures ValidMatch(pack, Reported(limits, m))
  {
    ReportedOffsetsValid(limits, m);
    ReportedIdsValid(limits, m);
  }

  /** Without a loss reason nothing of the match is missing. */
  lemma LosslessIsFull(limits: Limits, m: RuleMatch)
    requires Losses(limits, m) == {}
    ensures Reported(limits, m) == Full(m)
  {
    assert StringIdentifierLimit !in Losses(limits, m) && MatchInstanceLimit !in Losses(limits, m);
    assert OffsetLimit !in Losses(limits, m);
  }

  // ---------------------------------------------------------------- the result loop

  /** One match: its offsets are collected string by string while there is room. */
  method Describe(limits: Limits, m: RuleMatch) returns (metadata: Metadata, losses: set<Reason>)
    ensures metadata == Reported(limits, m) && losses == Losses(limits, m)
  {
    losses := {};
    var stringIds := SortUnique(StringLess, Identifiers(m.strings));
    if |stringIds| > limits.maxStringIds {
      losses := losses + {StringIdentifierLimit};
      stringIds := stringIds[..limits.maxStringIds];
    }
    var offsets: seq<int>, count := [], 0;
    for i := 0 to |m.strings|
      invariant count == |Offsets(m.strings[..i])| && offsets == First(Offsets(m.strings[..i]), limits.maxOffsets)
    {
      assert m.strings[..i + 1][..i] == m.strings[..i];
      count := count + |m.strings[i].offsets|;
      var remaining := limits.maxOffsets - |offsets|;
      if remaining > 0 {
        offsets := offsets + First(m.strings[i].offsets, remaining);
      }
    }
    assert m.strings[..|m.strings|] == m.strings;
    if count > limits.maxInstances { losses := losses + {MatchInstanceLimit}; }
    if count > |offsets| { losses := losses + {OffsetLimit}; }
    IntLessStrict();
    SortUniqueCorrect(IntLess, offsets);
    metadata := Metadata(m.rule, Least(count, limits.maxInstances), stringIds,
                         First(SortUnique(IntLess, offsets), limits.maxOffsets));
  }

  function Sizes(pack: Pack, limits: Limits, ms: seq<RuleMatch>): nat {
    if ms == [] then 0 else Sizes(pack, limits, ms[..|ms| - 1]) + pack.Size(Reported(limits, ms[|ms| - 1]))
  }

  lemma {:induction false} SizesGrow(pack: Pack, limits: Limits, ms: seq<RuleMatch>, i: nat)
    requires i <= |ms|
    ensures Sizes(pack, limits, ms[..i]) <= Sizes(pack, limits, ms)
    decreases |ms| - i
  {
    if i < |ms| {
      assert ms[..i + 1][..i] == ms[..i];
      SizesGrow(pack, limits, ms, i + 1);
    } else {
      assert ms[..i] == ms;
    }
  }

  predicate AllLossless(limits: Limits, ms: seq<RuleMatch>) {
    forall m | m in ms :: Losses(limits, m) == {}
  }

  /** The reasons for loss in any of these matches. */
  function LossesIn(limits: Limits, ms: seq<RuleMatch>): set<Reason> {
    if ms == [] then {} else LossesIn(limits, ms[..|ms| - 1]) + Losses(limits, ms[|ms| - 1])
  }

  /** The findings are those of the longest run of matches from the first that fits the budget. */
  ghost predicate LongestFitting(pack: Pack, limits: Limits, ordered: seq<RuleMatch>, findings: seq<Metadata>) {
    var n := |findings|;
    && n <= |ordered| && (forall i :: 0 <= i < n ==> findings[i] == Reported(limits, ordered[i]))
    && Sizes(pack, limits, ordered[..n]) <= limits.maxMetadataBytes
    && (n < |ordered| ==> Sizes(pack, limits, ordered[..n + 1]) > limits.maxMetadataBytes)
  }

  /** What was lost in the matches looked at: those reported, and one more that did not fit. */
  function Shortfalls(limits: Limits, ordered: seq<RuleMatch>, reported: nat): set<Reason> {
    if reported >= |ordered| then LossesIn(limits, ordered)
    else LossesIn(limits, ordered[..reported + 1]) + {MetadataLimit}
  }

  /** What the engine itself lost, or the limit on matched rules. */
  function EngineLosses(limits: Limits, engine: Engine): set<Reason> {
    match engine
    case TimedOut => {InternalTimeout}
    case Failed => {ScannerError}
    case Matched(matches, warning) =>
      (if warning.Some? then {warning.value} else {})
      + if |matches| > limits.maxMatchedRules then {MatchedRuleLimit} else {}
  }

  predicate RuleLess(a: RuleMatch, b: RuleMatch) { StringLess(a.rule, b.rule) }

  predicate Trusted(pack: Pack, m: RuleMatch) { m.space == pack.space && m.rule in pack.rules }

  /** `sorted(partial_reasons)`: the reasons in the order of `all`. */
  function Listed(reasons: set<Reason>, all: seq<Reason>): seq<Reason> {
    if all == [] then []
    else (if all[0] in reasons then [all[0]] else []) + Listed(reasons, all[1..])
  }

  lemma {:induction false} ListedCorrect(reasons: set<Reason>, all: seq<Reason>)
    requires Ascending(Before, all)
    ensures var r := Listed(reasons, all);
            |r| <= |all| && Ascending(Before, r) && forall x :: x in r <==> x in reasons && x in all
  {
    if all != [] {
      ListedCorrect(reasons, all[1..]);
      assert all == [all[0]] + all[1..];
      var rest := Listed(reasons, all[1..]);
      forall j | 0 <= j < |rest| ensures Before(all[0], rest[j]) {
        assert rest[j] in all[1..];
      }
    }
  }

  lemma ReasonListed(r: Reason)
    ensures REASONS[r.Position()] == r
  {
  }

  lemma ReasonsOrdered()
    ensures StrictOrder(Before) && Ascending(Before, REASONS) && forall r: Reason :: r in REASONS
  {
    assert forall i :: 0 <= i < |REASONS| ==> REASONS[i].Position() == i;
    forall r: Reason ensures r in REASONS {
      ReasonListed(r);
    }
    forall a: Reason, b: Reason ensures a == b || Before(a, b) || Before(b, a) {
      ReasonListed(a);
      ReasonListed(b);
    }
  }

  lemma ListedValid(reasons: set<Reason>)
    ensures reasons != {} ==> ValidPartial(Listed(reasons, REASONS))
    ensures reasons == {} ==> Listed(reasons, REASONS) == []
    ensures forall x :: x in Listed(reasons, REASONS) <==> x in reasons
  {
    var r := Listed(reasons, REASONS);
    ReasonsOrdered();
    ListedCorrect(reasons, REASONS);
    AscendingIsSorted(Before, r);
    assert r != [] ==> r[0] in r;
    if reasons != {} {
      var x :| x in reasons;
      assert x in r;
    }
  }

  /** `_result`. */
  method Conclude(findings: seq<Metadata>, reasons: set<Reason>, matchedRules: nat) returns (r: Result)
    ensures r == Analysis(reasons == {}, findings, Listed(reasons, REASONS), matchedRules)
    ensures r.complete || ValidPartial(r.reasons)
    ensures forall x :: x in r.reasons <==> x in reasons
  {
    ListedValid(reasons);
    r := Analysis(reasons == {}, findings, Listed(reasons, REASONS), matchedRules);
  }

  /** The matches that the rule limit leaves, in rule order. */
  function Considered(limits: Limits, matches: seq<RuleMatch>): seq<RuleMatch> {
    First(Sort(RuleLess, matches), limits.maxMatchedRules)
  }

  /** Everything matched is reported in full. */
  ghost predicate Lossless(pack: Pack, limits: Limits, engine: Engine) {
    && engine.Matched? && engine.warning == None && |engine.matches| <= limits.maxMatchedRules
    && AllLossless(limits, engine.matches)
    && Sizes(pack, limits, Considered(limits, engine.matches)) <= limits.maxMetadataBytes
  }

  /**
   `scan_top_level_file`. Every emitted finding passes the trusted validator; a scan is COMPLETE
   exactly when nothing had to be left out, and then there is one finding for each match,
   carrying all its identifiers and offsets. In any case the findings are those of as many
   matches, in rule order, as fit, and the reasons name everything that was lost.
   */
  method ScanTopLevelFile(pack: Pack, limits: Limits, engine: Engine) returns (r: Result)
    requires engine.Matched? ==> engine.warning in {None, Some(EngineWarning), Some(EngineMatchWarning)}
    ensures r.Rejected? ==> engine.Matched? && exists m :: m in engine.matches && !Trusted(pack, m)
    ensures r.Analysis? ==> (r.complete || ValidPartial(r.reasons))
    ensures r.Analysis? && engine.Matched? && (forall m :: m in engine.matches ==> WellFormed(m)) ==>
              forall f :: f in r.findings ==> ValidMatch(pack, f)
    ensures r.Analysis? ==> (r.complete <==> Lossless(pack, limits, engine))
    ensures r.Analysis? && r.complete ==>
              var ordered := Sort(RuleLess, engine.matches);
              && multiset(ordered) == multiset(engine.matches) && |r.findings| == |ordered| == |engine.matches|
              && forall i :: 0 <= i < |r.findings| ==> r.findings[i] == Full(ordered[i])
    ensures r.Analysis? ==>
              if engine.Matched? then
                && LongestFitting(pack, limits, Considered(limits, engine.matches), r.findings)
                && forall i :: 0 <= i < |r.findings| ==> Trusted(pack, Considered(limits, engine.matches)[i])
              else r.findings == []
    ensures r.Analysis? ==> forall x :: x in r.reasons <==> x in LossReasons(limits, engine, |r.findings|)
  {
    match engine
    case TimedOut => r := Conclude([], {InternalTimeout}, 0);
    case Failed => r := Conclude([], {ScannerError}, 0);
    case Matched(matches, warning) =>
      r := ScanMatches(pack, limits, engine);
      if r.Analysis? && forall m :: m in matches ==> WellFormed(m) {
        FindingsValid(pack, limits, matches, r.findings);
      }
      if r.Analysis? {
        NothingDropped(pack, limits, engine, r.findings);
      }
  }

  /** The engine's matches, in rule order and up to the rule limit. */
  method ScanMatches(pack: Pack, limits: Limits, engine: Engine) returns (r: Result)
    requires engine.Matched?
    ensures r.Rejected? ==> exists m :: m in engine.matches && !Trusted(pack, m)
    ensures r.Analysis? ==>
              && (r.complete || ValidPartial(r.reasons))
              && ReportedSoFar(pack, limits, Considered(limits, engine.matches), r.findings)
              && LongestFitting(pack, limits, Considered(limits, engine.matches), r.findings)
              && (r.complete <==> LossReasons(limits, engine, |r.findings|) == {})
              && forall x :: x in r.reasons <==> x in LossReasons(limits, engine, |r.findings|)
  {
    ConsideredAmong(limits, engine.matches);
    var reasons := if engine.warning.Some? then {engine.warning.value} else {};
    var ordered := Sort(RuleLess, engine.matches);
    if |ordered| > limits.maxMatchedRules {
      reasons := reasons + {MatchedRuleLimit};
      ordered := ordered[..limits.maxMatchedRules];
    }
    assert ordered == Considered(limits, engine.matches) && reasons == EngineLosses(limits, engine);
    var trusted, findings, more := Report(pack, limits, ordered);
    if trusted {
      r := Conclude(findings, reasons + more, |engine.matches|);
    } else {
      r := Rejected;
    }
  }

  /** All the reasons of a scan that reported so many matches. */
  function LossReasons(limits: Limits, engine: Engine, reported: nat): set<Reason> {
    EngineLosses(limits, engine)
    + if engine.Matched? then Shortfalls(limits, Considered(limits, engine.matches), reported) else {}
  }

  lemma ConsideredAmong(limits: Limits, matches: seq<RuleMatch>)
    ensures |Sort(RuleLess, matches)| == |matches|
    ensures forall m :: m in Considered(limits, matches) ==> m in matches
  {
    SortPermutes(RuleLess, matches);
    forall m | m in Considered(limits, matches) ensures m in matches {
      assert m in multiset(Sort(RuleLess, matches));
    }
  }

  /** Emitted findings pass the validator when the matches are well-formed. */
  lemma FindingsValid(pack: Pack, limits: Limits, matches: seq<RuleMatch>, findings: seq<Metadata>)
    requires ReportedSoFar(pack, limits, Considered(limits, matches), findings)
    requires forall m :: m in matches ==> WellFormed(m)
    ensures forall f :: f in findings ==> ValidMatch(pack, f)
  {
    var ordered := Considered(limits, matches);
    ConsideredAmong(limits, matches);
    forall f | f in findings ensures ValidMatch(pack, f) {
      var i :| 0 <= i < |findings| && findings[i] == f;
      assert ordered[i] in ordered;
      ReportedIsValid(pack, limits, ordered[i]);
    }
  }

  lemma FindingsFull(pack: Pack, limits: Limits, ordered: seq<RuleMatch>, findings: seq<Metadata>)
    requires LongestFitting(pack, limits, ordered, findings) && AllLossless(limits, ordered)
    ensures forall i :: 0 <= i < |findings| ==> findings[i] == Full(ordered[i])
  {
    forall i | 0 <= i < |findings| ensures findings[i] == Full(ordered[i]) {
      assert ordered[i] in ordered;
      LosslessIsFull(limits, ordered[i]);
    }
  }

  /** No reason at all is the same as nothing left out, and then everything is reported in full. */
  lemma NothingDropped(pack: Pack, limits: Limits, engine: Engine, findings: seq<Metadata>)
    requires engine.Matched? && LongestFitting(pack, limits, Considered(limits, engine.matches), findings)
    ensures LossReasons(limits, engine, |findings|) == {} <==> Lossless(pack, limits, engine)
    ensures LossReasons(limits, engine, |findings|) == {} ==>
              var ordered := Sort(RuleLess, engine.matches);
              && multiset(ordered) == multiset(engine.matches) && |findings| == |ordered| == |engine.matches|
              && forall i :: 0 <= i < |findings| ==> findings[i] == Full(ordered[i])
  {
    var ordered := Considered(limits, engine.matches);
    SortPermutes(RuleLess, engine.matches);
    NothingShort(pack, limits, ordered, findings);
    EngineLossless(limits, engine);
    if |engine.matches| <= limits.maxMatchedRules {
      SameLossless(limits, engine.matches, ordered);
      if AllLossless(limits, ordered) {
        FindingsFull(pack, limits, ordered, findings);
      }
    }
  }

  lemma EngineLossless(limits: Limits, engine: Engine)
    requires engine.Matched?
    ensures EngineLosses(limits, engine) == {} <==> engine.warning == None && |engine.matches| <= limits.maxMatchedRules
  {
    assert engine.warning.Some? ==> engine.warning.value in EngineLosses(limits, engine);
    assert |engine.matches| > limits.maxMatchedRules ==> MatchedRuleLimit in EngineLosses(limits, engine);
  }

  lemma SameLossless(limits: Limits, matches: seq<RuleMatch>, ordered: seq<RuleMatch>)
    requires multiset(matches) == multiset(ordered)
    ensures AllLossless(limits, matches) <==> AllLossless(limits, ordered)
  {
    forall m ensures m in matches <==> m in ordered {
      assert m in multiset(matches) <==> m in multiset(ordered);
    }
  }

  /** Nothing was lost in the longest fitting run exactly when all fits without loss. */
  lemma NothingShort(pack: Pack, limits: Limits, ordered: seq<RuleMatch>, findings: seq<Metadata>)
    requires LongestFitting(pack, limits, ordered, findings)
    ensures Shortfalls(limits, ordered, |findings|) == {} <==>
              AllLossless(limits, ordered) && Sizes(pack, limits, ordered) <= limits.maxMetadataBytes
    ensures Shortfalls(limits, ordered, |findings|) == {} ==> |findings| == |ordered|
  {
    if |findings| < |ordered| {
      assert MetadataLimit in Shortfalls(limits, ordered, |findings|);
      SizesGrow(pack, limits, ordered, |findings| + 1);
    } else {
      assert ordered[..|findings|] == ordered;
      LossesEmpty(limits, ordered);
    }
  }

  lemma {:induction false} LossesEmpty(limits: Limits, ms: seq<RuleMatch>)
    ensures LossesIn(limits, ms) == {} <==> AllLossless(limits, ms)
  {
    if ms != [] {
      LossesEmpty(limits, ms[..|ms| - 1]);
      assert ms == ms[..|ms| - 1] + [ms[|ms| - 1]];
      assert Losses(limits, ms[|ms| - 1]) <= LossesIn(limits, ms);
      assert LossesIn(limits, ms[..|ms| - 1]) <= LossesIn(limits, ms);
    }
  }

  /** The loop over the considered matches, which stops at the first that no longer fits. */
  method Report(pack: Pack, limits: Limits, ordered: seq<RuleMatch>)
    returns (trusted: bool, findings: seq<Metadata>, reasons: set<Reason>)
    ensures !trusted ==> exists m :: m in ordered && !Trusted(pack, m)
    ensures trusted ==> ReportedSoFar(pack, limits, ordered, findings)
    ensures trusted ==> LongestFitting(pack, limits, ordered, findings)
    ensures trusted ==> reasons == Shortfalls(limits, ordered, |findings|)
  {
    trusted, findings, reasons := true, [], {};
    var used: nat := 0;
    for i := 0 to |ordered|
      invariant trusted && |findings| == i && Reporting(pack, limits, ordered, findings, used, reasons)
    {
      if !Trusted(pack, ordered[i]) {
        trusted := false;
        return;
      }
      var metadata, losses := Describe(limits, ordered[i]);
      NextReported(pack, limits, ordered, findings, used, reasons);
      reasons := reasons + losses;
      if used + pack.Size(metadata) > limits.maxMetadataBytes {
        reasons := reasons + {MetadataLimit};
        return;
      }
      used := used + pack.Size(metadata);
      findings := findings + [metadata];
    }
    assert ordered[..|ordered|] == ordered;
  }

  /** So many matches were reported, with what they use of the budget and what they lost. */
  ghost predicate Reporting(
    pack: Pack, limits: Limits, ordered: seq<RuleMatch>, findings: seq<Metadata>, used: nat, reasons: set<Reason>)
  {
    && ReportedSoFar(pack, limits, ordered, findings)
    && used == Sizes(pack, limits, ordered[..|findings|]) <= limits.maxMetadataBytes
    && reasons == LossesIn(limits, ordered[..|findings|])
  }

  /** The next match is reported when it fits; otherwise the run before it is the longest. */
  lemma NextReported(
    pack: Pack, limits: Limits, ordered: seq<RuleMatch>, findings: seq<Metadata>, used: nat, reasons: set<Reason>)
    requires Reporting(pack, limits, ordered, findings, used, reasons) && |findings| < |ordered|
    requires Trusted(pack, ordered[|findings|])
    ensures var m := ordered[|findings|]; var metadata, all := Reported(limits, m), reasons + Losses(limits, m);
            if used + pack.Size(metadata) > limits.maxMetadataBytes then
              && LongestFitting(pack, limits, ordered, findings)
              && all + {MetadataLimit} == Shortfalls(limits, ordered, |findings|)
            else
              Reporting(pack, limits, ordered, findings + [metadata], used + pack.Size(metadata), all)
  {
    var i := |findings|;
    assert ordered[..i + 1][..i] == ordered[..i];
    OneMoreReported(pack, limits, ordered, findings, Reported(limits, ordered[i]));
  }

  ghost predicate ReportedSoFar(pack: Pack, limits: Limits, ordered: seq<RuleMatch>, findings: seq<Metadata>) {
    |findings| <= |ordered|
    && forall i :: 0 <= i < |findings| ==> Trusted(pack, ordered[i]) && findings[i] == Reported(limits, ordered[i])
  }

  lemma OneMoreReported(
    pack: Pack, limits: Limits, ordered: seq<RuleMatch>, findings: seq<Metadata>, next: Metadata)
    requires ReportedSoFar(pack, limits, ordered, findings) && |findings| < |ordered|
    requires Trusted(pack, ordered[|findings|]) && next == Reported(limits, ordered[|findings|])
    ensures ReportedSoFar(pack, limits, ordered, findings + [next])
  {
  }
}
