/**
 The public archive analysis: from the input bytes to a parser status and findings, and what
 a COMPLETE status guarantees over everything reachable from the input.
 */
module ArchiveReport {
  import opened Wrappers
  import opened Reachability
  import opened ArchiveModel
  import opened ArchiveBudget
  import opened ArchiveAnalyzer
  import opened ArchiveCauses
  import opened PolicyProperties
  import opened ShippedPolicy
  import NameSecurity

  datatype ParserStatus = COMPLETE | PARTIAL | MALFORMED

  datatype Usage = Usage(
    actualDecompressedBytes: int, nestedArchiveBytesMaterialized: int, membersInspected: int,
    recordedNames: int, retainedNameCount: int)

  const MANDATORY: set<Code> := {
    ARCHIVE_MALFORMED, ARCHIVE_NESTING_LIMIT, ARCHIVE_RESOURCE_LIMIT, ARCHIVE_PARTIAL_ANALYSIS}

  /** The finding code of each counted observation. */
  function ObservationCode(c: Category): Option<Code> {
    match c
    case Traversal => Some(ARCHIVE_PATH_TRAVERSAL)
    case AbsolutePath => Some(ARCHIVE_ABSOLUTE_PATH)
    case Symlink => Some(ARCHIVE_SYMLINK)
    case Duplicate => Some(ARCHIVE_DUPLICATE_MEMBER)
    case Dangerous => Some(ARCHIVE_DANGEROUS_MEMBER)
    case DoubleExtension => Some(ARCHIVE_MEMBER_DOUBLE_EXTENSION)
    case Bidi => Some(ARCHIVE_MEMBER_BIDI_OVERRIDE)
    case Encrypted => Some(ARCHIVE_ENCRYPTED)
    case Nesting => None
  }

  const OBSERVATIONS: seq<Category> := [
    Traversal, AbsolutePath, Symlink, Duplicate, Dangerous, DoubleExtension, Bidi, Encrypted]

  /** The codes of the counted observations, in the order of `todo`. */
  function Observed(counts: map<Category, int>, todo: seq<Category>): (codes: seq<Code>)
    requires forall c: Category :: c in counts
    ensures |codes| <= |todo|
    ensures forall code :: code in codes <==>
              exists c :: c in todo && counts[c] > 0 && ObservationCode(c) == Some(code)
  {
    if todo == [] then []
    else
      var rest := Observed(counts, todo[1..]);
      assert forall c :: c in todo <==> c == todo[0] || c in todo[1..];
      if counts[todo[0]] > 0 && ObservationCode(todo[0]).Some?
      then [ObservationCode(todo[0]).value] + rest else rest
  }

  function When(condition: bool, code: Code): seq<Code> { if condition then [code] else [] }

  /** The limit findings, from the recorded reasons. */
  function LimitFindings(partialReasons: set<Reason>, resourceReasons: set<Reason>, malformedReasons: set<Reason>)
    : (codes: seq<Code>)
    ensures |codes| <= 4 && forall code :: code in codes ==> code in MANDATORY
    ensures ARCHIVE_PARTIAL_ANALYSIS in codes <==> partialReasons != {}
    ensures ARCHIVE_RESOURCE_LIMIT in codes <==> resourceReasons != {}
    ensures ARCHIVE_MALFORMED in codes <==> malformedReasons != {}
    ensures ARCHIVE_NESTING_LIMIT in codes <==> NestingDepthLimit in partialReasons
  {
    When(NestingDepthLimit in partialReasons, ARCHIVE_NESTING_LIMIT)
    + When(resourceReasons != {}, ARCHIVE_RESOURCE_LIMIT)
    + When(malformedReasons != {}, ARCHIVE_MALFORMED)
    + When(partialReasons != {}, ARCHIVE_PARTIAL_ANALYSIS)
  }

  /** All the findings of a run, from its counters and reasons. */
  function Findings(
    counts: map<Category, int>, partialReasons: set<Reason>, resourceReasons: set<Reason>, malformedReasons: set<Reason>)
    : seq<Code>
    requires forall c: Category :: c in counts
  {
    Observed(counts, OBSERVATIONS) + LimitFindings(partialReasons, resourceReasons, malformedReasons)
  }

  function Keep(codes: seq<Code>, mandatory: bool): (kept: seq<Code>)
    ensures |kept| <= |codes|
    ensures forall code :: code in kept <==> code in codes && (code in MANDATORY) == mandatory
  {
    if codes == [] then []
    else
      assert codes == [codes[0]] + codes[1..];
      (if (codes[0] in MANDATORY) == mandatory then [codes[0]] else []) + Keep(codes[1..], mandatory)
  }

  lemma {:induction false} KeepConcat(a: seq<Code>, b: seq<Code>, mandatory: bool)
    ensures Keep(a + b, mandatory) == Keep(a, mandatory) + Keep(b, mandatory)
  {
    if a == [] {
      assert a + b == b;
    } else {
      assert (a + b)[1..] == a[1..] + b;
      KeepConcat(a[1..], b, mandatory);
    }
  }

  lemma {:induction false} KeepSplits(codes: seq<Code>)
    ensures |Keep(codes, true)| + |Keep(codes, false)| == |codes|
  {
    if codes != [] {
      KeepSplits(codes[1..]);
    }
  }

  /** Cut a findings list to `maximum`, dropping optional findings first and no more than needed. */
  function Truncate(all: seq<Code>, maximum: nat): (kept: seq<Code>)
    requires |Keep(all, true)| <= maximum
    ensures |kept| == Min(maximum, |all|)
    ensures forall code :: code in kept ==> code in all
    ensures forall code :: code in all && code in MANDATORY ==> code in kept
  {
    var required := Keep(all, true);
    var optional := Keep(all, false);
    KeepSplits(all);
    var room := Min(maximum - |required|, |optional|);
    assert forall code :: code in optional[..room] ==> code in optional;
    optional[..room] + required
  }

  lemma ObservationCodeFacts(c: Category, d: Category, code: Code)
    requires ObservationCode(c) == Some(code)
    ensures c in OBSERVATIONS && code !in MANDATORY
    ensures ObservationCode(d) == Some(code) ==> d == c
  {
    match c {
      case Traversal => case AbsolutePath => case Symlink => case Duplicate => case Dangerous =>
      case DoubleExtension => case Bidi => case Encrypted =>
    }
  }

  /** An observation is among the findings exactly when it was counted. */
  lemma CountedIsFound(counts: map<Category, int>, limitFindings: seq<Code>, c: Category, code: Code)
    requires forall k: Category :: k in counts
    requires ObservationCode(c) == Some(code)
    requires forall x :: x in limitFindings ==> x in MANDATORY
    ensures code in Observed(counts, OBSERVATIONS) + limitFindings <==> counts[c] > 0
  {
    ObservationCodeFacts(c, c, code);
    if code in Observed(counts, OBSERVATIONS) {
      var d :| d in OBSERVATIONS && counts[d] > 0 && ObservationCode(d) == Some(code);
      ObservationCodeFacts(c, d, code);
    }
  }

  lemma FewMandatory(counts: map<Category, int>, limitFindings: seq<Code>)
    requires forall k: Category :: k in counts
    requires |limitFindings| <= 4
    ensures |Keep(Observed(counts, OBSERVATIONS) + limitFindings, true)| <= 4
  {
    var observed := Observed(counts, OBSERVATIONS);
    KeepConcat(observed, limitFindings, true);
    var kept := Keep(observed, true);
    if kept != [] {
      assert kept[0] in kept && kept[0] in observed;
      var d :| d in OBSERVATIONS && counts[d] > 0 && ObservationCode(d) == Some(kept[0]);
      ObservationCodeFacts(d, d, kept[0]);
    }
  }

  /** The final report; too many findings are themselves a resource limit. */
  method Report(state: State) returns (status: ParserStatus, findings: seq<Code>)
    requires state.Valid()
    modifies state`partialReasons, state`resourceReasons
    ensures state.Valid()
    ensures state.partialReasons
            == WithFindings(
                 old(state.partialReasons),
                 |Findings(state.counts, old(state.partialReasons), old(state.resourceReasons), state.malformedReasons)|
                 > state.limits.maxFindings)
    ensures status == COMPLETE <==> state.partialReasons == {}
    ensures status == MALFORMED <==> state.malformedReasons != {}
    ensures var all := Findings(state.counts, state.partialReasons, state.resourceReasons, state.malformedReasons);
            && |findings| == Min(state.limits.maxFindings, |all|)
            && (forall code :: code in findings ==> code in all)
            && (forall code :: code in all && code in MANDATORY ==> code in findings)
            && (status == COMPLETE ==> findings == all)
  {
    findings := Findings(state.counts, state.partialReasons, state.resourceReasons, state.malformedReasons);
    if |findings| > state.limits.maxFindings {
      state.Resource(FindingLimit);
      FewMandatory(state.counts,
                   LimitFindings(state.partialReasons, state.resourceReasons, state.malformedReasons));
      findings := Truncate(
        Findings(state.counts, state.partialReasons, state.resourceReasons, state.malformedReasons),
        state.limits.maxFindings);
    }
    status := if state.malformedReasons != {} then MALFORMED
              else if state.partialReasons != {} then PARTIAL else COMPLETE;
  }

  /**
   What a COMPLETE status says: the inspected archives are exactly those reachable from the
   input, every one fully readable, and an observation is reported exactly when some
   reachable archive shows it.
   */
  ghost predicate CompleteMeaning(rt: Runtime, root: Bytes, findings: seq<Code>, inspected: set<Bytes>) {
    && IsClosure(Contains(rt), {root}, inspected)
    && AllReadable(rt, root)
    && forall c, code :: ObservationCode(c) == Some(code) ==>
         (code in findings <==> Observable(rt, root, c))
  }

  /** Only observations that some reachable archive shows are reported. */
  ghost predicate Sound(rt: Runtime, root: Bytes, findings: seq<Code>) {
    forall c, code :: ObservationCode(c) == Some(code) && code in findings ==> Observable(rt, root, c)
  }

  ghost predicate WithinBudgets(usage: Usage, limits: Limits) {
    && usage.actualDecompressedBytes <= limits.maxTotalDecompressedBytes + limits.maxNestingDepth + 1
    && usage.nestedArchiveBytesMaterialized <= limits.maxNestedArchiveBytes
    && usage.membersInspected <= limits.maxMembersInspected
    && usage.recordedNames == usage.retainedNameCount <= limits.maxSuspiciousMemberNames
  }

  /** The run over all nesting levels, from a fresh state. */
  method Inspect(rt: Runtime, source: Option<Bytes>, limits: Limits)
    returns (state: State, ghost ev: Evidence)
    ensures fresh(state) && state.limits == limits && state.Valid()
    ensures source.None? ==> state.malformedReasons != {} && forall c: Category :: state.counts[c] == 0
    ensures source.None? ==> state.partialReasons == {ArchiveInputUnavailable}
    ensures source.Some? ==>
              var scope := ReachableScope(rt, limits, source.value);
              && state.Inspecting(rt, scope, {}, ev)
              && Caused(rt, limits, scope, Spending(rt, limits, source.value), state.partialReasons)
              && (state.partialReasons == {} ==> source.value in ev.inspected)
    ensures state.actualDecompressedBytes <= limits.maxTotalDecompressedBytes + limits.maxNestingDepth + 1
  {
    state := new State(limits);
    ev := Evidence({}, {}, {}, {}, Cost(0, 0, 0, 0));
    if source.None? {
      state.Malformed(ArchiveInputUnavailable);
    } else {
      ghost var scope := ReachableScope(rt, limits, source.value);
      ReachableScopeClosed(rt, limits, source.value);
      NothingPriced(rt);
      ev := state.InspectArchive(rt, source.value, |source.value|, 0, scope, {}, ev);
      AllPaid(rt, limits, source.value, state.offered, state.partialReasons, ev.entered, ev.due);
    }
  }

  /** What a run offered to spend is no more than the root and each archive below it cost. */
  lemma AllPaid(
    rt: Runtime, limits: Limits, root: Bytes, offered: Cost, reasons: set<Reason>, entered: set<Bytes>, due: Cost)
    requires Charged(Cost(0, 0, 0, 0), offered, Cost(0, 0, 0, 0), due, ArchiveCost(rt, root))
    requires Priced(rt, entered, due) && entered <= ReachableScope(rt, limits, root).below
    requires Caused(rt, limits, ReachableScope(rt, limits, root), offered, reasons)
    ensures Caused(rt, limits, ReachableScope(rt, limits, root), Spending(rt, limits, root), reasons)
  {
    var all := Below(rt, root, limits.maxNestingDepth);
    assert due.AtMost(Total(rt, all));
    CausedStill(rt, limits, ReachableScope(rt, limits, root), offered, Spending(rt, limits, root), reasons);
  }

  /**
   The whole meaning of a report. Its status is COMPLETE exactly when it does not report
   partial analysis, and MALFORMED exactly when it reports malformed structure; its codes are
   registered; an input that cannot be read yields limit findings only.
   */
  ghost predicate ReportMeaning(
    rt: Runtime, source: Option<Bytes>, status: ParserStatus, findings: seq<Code>, inspected: set<Bytes>)
  {
    && (status == COMPLETE <==> ARCHIVE_PARTIAL_ANALYSIS !in findings)
    && (status == MALFORMED <==> ARCHIVE_MALFORMED in findings)
    && (forall code :: code in findings ==> IsFinding(code))
    && match source
       case None => status == MALFORMED && forall code :: code in findings ==> code in MANDATORY
       case Some(root) =>
         Sound(rt, root, findings) && (status == COMPLETE ==> CompleteMeaning(rt, root, findings, inspected))
  }

  /**
   What the limit findings say about the input: within every limit and with everything readable
   the result is complete; a nesting finding means an archive beyond the deepest level, a
   resource finding a limit that is passed, and a malformed finding something broken.
   */
  ghost predicate LimitMeaning(rt: Runtime, limits: Limits, root: Bytes, status: ParserStatus, findings: seq<Code>) {
    LimitsMeaning(rt, limits, root, status == COMPLETE, ARCHIVE_NESTING_LIMIT in findings,
                  ARCHIVE_RESOURCE_LIMIT in findings, ARCHIVE_MALFORMED in findings)
  }

  /** Analyze one input; `None` when its size cannot even be read. */
  method AnalyzeArchive(rt: Runtime, source: Option<Bytes>, limits: Limits)
    returns (status: ParserStatus, findings: seq<Code>, usage: Usage, ghost inspected: set<Bytes>)
    requires CollisionFree(rt)
    ensures ReportMeaning(rt, source, status, findings, inspected)
    ensures source.Some? ==> LimitMeaning(rt, limits, source.value, status, findings)
    ensures |findings| <= limits.maxFindings
    ensures WithinBudgets(usage, limits)
  {
    var state;
    ghost var ev;
    state, ev := Inspect(rt, source, limits);
    usage := Usage(
      state.actualDecompressedBytes, state.nestedArchiveBytesMaterialized, state.membersInspected,
      TotalRecords(state.records), state.retainedNameCount);
    inspected := ev.inspected;
    ghost var reasons := state.partialReasons;
    status, findings := Report(state);
    Conclude(rt, limits, source, state.counts, state.partialReasons, state.resourceReasons, state.malformedReasons,
             status, findings, ev);
    if source.Some? {
      ReasonsConclude(rt, limits, source.value, state.counts, reasons, state.partialReasons, status, findings);
    }
  }

  /** From the reasons of a run, before and after the findings were counted, to what they mean. */
  lemma ReasonsConclude(
    rt: Runtime, limits: Limits, root: Bytes, counts: map<Category, int>, reasons: set<Reason>, reasons': set<Reason>,
    status: ParserStatus, findings: seq<Code>)
    requires forall k: Category :: k in counts
    requires forall c: Category :: counts[c] > 0 ==> c in Observables(rt, root)
    requires Caused(rt, limits, ReachableScope(rt, limits, root), Spending(rt, limits, root), reasons)
    requires
      var all := Observed(counts, OBSERVATIONS) + LimitFindings(reasons, Resources(reasons), Malformations(reasons));
      reasons' == WithFindings(reasons, |all| > limits.maxFindings)
    requires status == COMPLETE <==> reasons' == {}
    requires forall code :: code in findings ==>
               code in Observed(counts, OBSERVATIONS)
                       + LimitFindings(reasons', Resources(reasons'), Malformations(reasons'))
    ensures LimitMeaning(rt, limits, root, status, findings)
  {
    FewFindings(rt, limits, root, counts, reasons);
    var many := |Observed(counts, OBSERVATIONS) + LimitFindings(reasons, Resources(reasons), Malformations(reasons))|
                > limits.maxFindings;
    ReasonsMean(rt, limits, root, reasons, many);
    LimitCodes(counts, reasons', findings);
    MeansLess(rt, limits, root, reasons' == {}, NestingDepthLimit in reasons', Resources(reasons') != {},
              Malformations(reasons') != {}, status == COMPLETE, ARCHIVE_NESTING_LIMIT in findings,
              ARCHIVE_RESOURCE_LIMIT in findings, ARCHIVE_MALFORMED in findings);
  }

  /** At most four findings report limits; the others are observations that archives in reach show. */
  lemma FewFindings(rt: Runtime, limits: Limits, root: Bytes, counts: map<Category, int>, reasons: set<Reason>)
    requires forall k: Category :: k in counts
    requires forall c: Category :: counts[c] > 0 ==> c in Observables(rt, root)
    ensures var all := Observed(counts, OBSERVATIONS) + LimitFindings(reasons, Resources(reasons), Malformations(reasons));
            && |all| <= |Observables(rt, root)| + 4
            && (reasons == {} ==> |all| <= |Observables(rt, root)|)
  {
    ObservedFew(counts, OBSERVATIONS, Observables(rt, root));
    if reasons == {} {
      assert LimitFindings(reasons, Resources(reasons), Malformations(reasons)) == [];
    }
  }

  lemma LimitCodes(counts: map<Category, int>, reasons: set<Reason>, findings: seq<Code>)
    requires forall k: Category :: k in counts
    requires forall code :: code in findings ==>
               code in Observed(counts, OBSERVATIONS)
                       + LimitFindings(reasons, Resources(reasons), Malformations(reasons))
    ensures ARCHIVE_NESTING_LIMIT in findings ==> NestingDepthLimit in reasons
    ensures ARCHIVE_RESOURCE_LIMIT in findings ==> Resources(reasons) != {}
    ensures ARCHIVE_MALFORMED in findings ==> Malformations(reasons) != {}
  {
    NoMandatoryObserved(counts);
  }

  /** No more codes are reported than categories were observed. */
  lemma {:induction false} ObservedFew(counts: map<Category, int>, todo: seq<Category>, seen: set<Category>)
    requires forall k: Category :: k in counts
    requires forall c :: c in todo && counts[c] > 0 ==> c in seen
    requires forall i, j :: 0 <= i < j < |todo| ==> todo[i] != todo[j]
    ensures |Observed(counts, todo)| <= |seen|
  {
    if todo != [] {
      if counts[todo[0]] > 0 {
        ObservedFew(counts, todo[1..], seen - {todo[0]});
      } else {
        ObservedFew(counts, todo[1..], seen);
      }
    }
  }

  /** From the counters, reasons and evidence of a run to the meaning of its report. */
  lemma Conclude(
    rt: Runtime, limits: Limits, source: Option<Bytes>, counts: map<Category, int>, partialReasons: set<Reason>,
    resourceReasons: set<Reason>, malformedReasons: set<Reason>, status: ParserStatus,
    findings: seq<Code>, ev: Evidence)
    requires CollisionFree(rt)
    requires forall k: Category :: k in counts
    requires source.None? ==> malformedReasons != {} && forall k: Category :: counts[k] == 0
    requires status == COMPLETE <==> partialReasons == {}
    requires status == MALFORMED <==> malformedReasons != {}
    requires
      var all := Observed(counts, OBSERVATIONS) + LimitFindings(partialReasons, resourceReasons, malformedReasons);
      && (forall code :: code in findings ==> code in all)
      && (forall code :: code in all && code in MANDATORY ==> code in findings)
      && (status == COMPLETE ==> findings == all)
    requires source.Some? ==>
      && (forall c: Category :: counts[c] > 0 ==> c in ReachableScope(rt, limits, source.value).observable)
      && Supports(rt, ReachableScope(rt, limits, source.value), ev)
      && (forall c :: c in ev.shown ==> counts[c] > 0)
      && ev.wanted <= Digests(rt, ev.entered)
      && (status == COMPLETE ==> ev.entered <= ev.inspected && source.value in ev.inspected)
    ensures ReportMeaning(rt, source, status, findings, ev.inspected)
  {
    var limitFindings := LimitFindings(partialReasons, resourceReasons, malformedReasons);
    FoundIsFinding(counts, limitFindings);
    NoMandatoryObserved(counts);
    if source.Some? {
      FindingsSound(rt, limits, source.value, counts, limitFindings, findings);
      if status == COMPLETE {
        EvidenceIsClosure(rt, limits, source.value, ev);
        FindingsComplete(rt, source.value, counts, limitFindings, ev);
      }
    } else {
      NothingFound(counts, limitFindings);
    }
  }

  lemma NoMandatoryObserved(counts: map<Category, int>)
    requires forall k: Category :: k in counts
    ensures forall code :: code in Observed(counts, OBSERVATIONS) ==> code !in MANDATORY
  {
    forall code | code in Observed(counts, OBSERVATIONS) ensures code !in MANDATORY {
      var d :| d in OBSERVATIONS && counts[d] > 0 && ObservationCode(d) == Some(code);
      ObservationCodeFacts(d, d, code);
    }
  }

  lemma NothingFound(counts: map<Category, int>, limitFindings: seq<Code>)
    requires forall k: Category :: k in counts && counts[k] == 0
    ensures Observed(counts, OBSERVATIONS) + limitFindings == limitFindings
  {
    NonEmpty(Observed(counts, OBSERVATIONS));
  }

  lemma ObservationIsFinding(c: Category)
    ensures ObservationCode(c).Some? ==> IsFinding(ObservationCode(c).value)
  {
  }

  lemma MandatoryIsFinding(code: Code)
    requires code in MANDATORY
    ensures IsFinding(code)
  {
  }

  lemma FoundIsFinding(counts: map<Category, int>, limitFindings: seq<Code>)
    requires forall k: Category :: k in counts
    requires forall x :: x in limitFindings ==> x in MANDATORY
    ensures forall code :: code in Observed(counts, OBSERVATIONS) + limitFindings ==> IsFinding(code)
  {
    forall code | code in Observed(counts, OBSERVATIONS) + limitFindings ensures IsFinding(code) {
      if code in limitFindings {
        MandatoryIsFinding(code);
      } else {
        var d :| d in OBSERVATIONS && counts[d] > 0 && ObservationCode(d) == Some(code);
        ObservationIsFinding(d);
      }
    }
  }

  lemma FindingsSound(
    rt: Runtime, limits: Limits, root: Bytes, counts: map<Category, int>, limitFindings: seq<Code>, findings: seq<Code>)
    requires forall k: Category :: k in counts
    requires forall x :: x in limitFindings ==> x in MANDATORY
    requires forall c: Category :: counts[c] > 0 ==> c in ReachableScope(rt, limits, root).observable
    requires forall code :: code in findings ==> code in Observed(counts, OBSERVATIONS) + limitFindings
    ensures Sound(rt, root, findings)
  {
    forall c, code | ObservationCode(c) == Some(code) && code in findings
      ensures Observable(rt, root, c)
    {
      CountedIsFound(counts, limitFindings, c, code);
    }
  }

  /** With nothing partial, the finished archives are exactly the reachable ones. */
  lemma EvidenceIsClosure(rt: Runtime, limits: Limits, root: Bytes, ev: Evidence)
    requires CollisionFree(rt) && Supports(rt, ReachableScope(rt, limits, root), ev)
    requires ev.entered <= ev.inspected && root in ev.inspected && ev.wanted <= Digests(rt, ev.entered)
    ensures IsClosure(Contains(rt), {root}, ev.inspected)
  {
    forall a, b | a in ev.inspected && b in Contains(rt)(a)
      ensures b in ev.inspected
    {
      var infos := rt.Open(a).infos;
      var e :| e in infos && IsNestedArchive(rt, e) && e.content == b;
      var j :| 0 <= j < |infos| && infos[j] == e;
      assert EntryDone(rt, infos, j, ev.shown, ev.wanted);
      assert rt.Sha256(b) in EntryDigests(rt, e);
      var x :| x in ev.entered && rt.Sha256(x) == rt.Sha256(b);
      assert rt.sha256(x) == rt.sha256(b);
    }
    ClosedIsClosure(Contains(rt), {root}, ev.inspected);
  }

  lemma FindingsComplete(
    rt: Runtime, root: Bytes, counts: map<Category, int>, limitFindings: seq<Code>, ev: Evidence)
    requires forall k: Category :: k in counts
    requires forall x :: x in limitFindings ==> x in MANDATORY
    requires Covers(rt, ev.inspected, ev.shown, ev.wanted) && forall c :: c in ev.shown ==> counts[c] > 0
    requires IsClosure(Contains(rt), {root}, ev.inspected)
    ensures AllReadable(rt, root)
    ensures forall c, code :: ObservationCode(c) == Some(code) && Observable(rt, root, c) ==>
              code in Observed(counts, OBSERVATIONS) + limitFindings
  {
    forall a | Reachable(Contains(rt), {root}, a)
      ensures FullyReadable(rt, a)
    {
      var infos := rt.Open(a).infos;
      forall e | e in infos ensures !IsOpaqueMember(rt, e) {
        var j :| 0 <= j < |infos| && infos[j] == e;
        assert EntryDone(rt, infos, j, ev.shown, ev.wanted);
      }
    }
    forall c, code | ObservationCode(c) == Some(code) && Observable(rt, root, c)
      ensures code in Observed(counts, OBSERVATIONS) + limitFindings
    {
      var a :| Reachable(Contains(rt), {root}, a) && ArchiveHas(rt, a, c);
      var infos := rt.Open(a).infos;
      var i: nat :| i < |infos| && EntryHas(rt, infos, i, c);
      assert EntryDone(rt, infos, i, ev.shown, ev.wanted);
      AllCategories();
      assert c in EntryCategories(rt, infos, i);
      CountedIsFound(counts, limitFindings, c, code);
    }
  }

  // ---------------------------------------------------------------- the shipped name predicates

  /** The name facts as the analyzer computes them. */
  function NameFactsOf(nfc: string -> string, casefold: string -> string, name: string): NameFacts {
    NameFacts(
      NameSecurity.IsTraversal(name),
      NameSecurity.IsRooted(name),
      NameSecurity.HasDangerousExtension(casefold, name),
      NameSecurity.HasDangerousDoubleExtension(casefold, name),
      NameSecurity.HasBidiControl(name),
      NameSecurity.CollisionKey(nfc, name),
      NameSecurity.FinalExtension(casefold, name))
  }
}
