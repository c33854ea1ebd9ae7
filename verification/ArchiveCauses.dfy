/**
 What a document of nested archives must be like for its inspection to be complete, and what
 each limit finding of an incomplete one says about it (worker/analyzers/archive.py).
 */
module ArchiveCauses {
  import opened Wrappers
  import opened Reachability
  import opened Sums
  import opened ArchiveModel
  import opened ArchiveBudget

  /** What the four budgets of the settings allow. */
  function Allowance(limits: Limits): Cost {
    Cost(limits.maxMembersInspected, limits.maxTotalDecompressedBytes, limits.maxNestedArchiveBytes,
         limits.maxCompressedBytesConsidered)
  }

  ghost predicate InReach(rt: Runtime, root: Bytes, a: Bytes) {
    Reachable(Contains(rt), {root}, a)
  }

  /** No listing is longer than allowed, and no member that is read. */
  predicate Moderate(rt: Runtime, limits: Limits, a: Bytes) {
    rt.Open(a).Listing? ==>
      && |rt.Open(a).infos| <= limits.maxZipEntries
      && forall e :: e in rt.Open(a).infos && IsRead(rt, e) ==> |e.content| <= limits.maxMemberBytes
  }

  /** The categories that archives in reach show. */
  ghost function Observables(rt: Runtime, root: Bytes): set<Category> {
    set c | c in CATEGORIES && Observable(rt, root, c)
  }

  /** The input and all it contains, each nested archive once, stay within every limit. */
  ghost predicate WithinLimits(rt: Runtime, limits: Limits, root: Bytes) {
    && Spending(rt, limits, root).AtMost(Allowance(limits))
    && Level(rt, root, limits.maxNestingDepth + 1) == {}
    && (forall a :: InReach(rt, root, a) ==> Moderate(rt, limits, a))
    && |Observables(rt, root)| <= limits.maxFindings
  }

  /** Some resource limit is passed; four findings may report limits themselves. */
  ghost predicate ResourcePassed(rt: Runtime, limits: Limits, root: Bytes) {
    || !Spending(rt, limits, root).AtMost(Allowance(limits))
    || (exists a :: InReach(rt, root, a) && !Moderate(rt, limits, a))
    || |Observables(rt, root)| + 4 > limits.maxFindings
  }

  /** A container that does not open or has no directory, or a member that breaks when read. */
  predicate Broken(rt: Runtime, a: Bytes) {
    !rt.Open(a).Listing? || exists e :: e in rt.Open(a).infos && IsRead(rt, e) && e.fault == Some(ReadFault)
  }

  ghost predicate SomeBroken(rt: Runtime, root: Bytes) {
    exists a :: InReach(rt, root, a) && Broken(rt, a)
  }

  lemma ReadableGivesNothing(rt: Runtime, limits: Limits, a: Bytes, reason: Reason)
    requires FullyReadable(rt, a) && Moderate(rt, limits, a)
    ensures !ContainerGives(rt, limits, a, reason)
    ensures forall e :: e in rt.Open(a).infos ==> !MemberGives(rt, limits, e, reason)
  {
    match reason
    case ZipEntryLimit => case MemberActualByteLimit => case EncryptedMember =>
    case UnsupportedCompressionMethod => case MemberDecompressionError => case _ =>
  }

  /** Within every limit, and with everything readable, there is no reason for a partial result. */
  lemma NothingGiven(rt: Runtime, limits: Limits, root: Bytes, reason: Reason)
    requires WithinLimits(rt, limits, root) && AllReadable(rt, root)
    ensures !Gives(rt, limits, ReachableScope(rt, limits, root), Spending(rt, limits, root), reason)
  {
    ScopeModerate(rt, limits, root);
    NotTooDeep(rt, limits, root);
    NothingGivenIn(rt, limits, ReachableScope(rt, limits, root), Spending(rt, limits, root), reason);
  }

  lemma ScopeModerate(rt: Runtime, limits: Limits, root: Bytes)
    requires AllReadable(rt, root) && forall a :: InReach(rt, root, a) ==> Moderate(rt, limits, a)
    ensures forall a :: a in ReachableScope(rt, limits, root).region ==> FullyReadable(rt, a) && Moderate(rt, limits, a)
  {
    forall a | a in ReachableScope(rt, limits, root).region ensures FullyReadable(rt, a) && Moderate(rt, limits, a) {
      assert InReach(rt, root, a);
    }
  }

  lemma NotTooDeep(rt: Runtime, limits: Limits, root: Bytes)
    ensures TooDeep(limits, ReachableScope(rt, limits, root)) <==> Level(rt, root, limits.maxNestingDepth + 1) != {}
  {
    var levels := ReachableScope(rt, limits, root).levels;
    assert levels[limits.maxNestingDepth + 1] == Level(rt, root, limits.maxNestingDepth + 1);
  }

  lemma NothingGivenIn(rt: Runtime, limits: Limits, scope: Scope, budget: Cost, reason: Reason)
    requires forall a :: a in scope.region ==> FullyReadable(rt, a) && Moderate(rt, limits, a)
    requires budget.AtMost(Allowance(limits)) && !TooDeep(limits, scope)
    ensures !Gives(rt, limits, scope, budget, reason)
  {
    forall a | a in scope.region
      ensures !ContainerGives(rt, limits, a, reason)
      ensures forall e :: Holds(rt, scope, a, e) ==> !MemberGives(rt, limits, e, reason)
    {
      ReadableGivesNothing(rt, limits, a, reason);
    }
    assert !SomeMemberGives(rt, limits, scope, reason);
  }

  /** A resource reason other than the findings limit comes from a limit that is passed. */
  lemma ResourceGiven(rt: Runtime, limits: Limits, root: Bytes, reason: Reason)
    requires Gives(rt, limits, ReachableScope(rt, limits, root), Spending(rt, limits, root), reason)
    requires IsResource(reason)
    ensures ResourcePassed(rt, limits, root)
  {
    var scope := ReachableScope(rt, limits, root);
    if a :| a in scope.region && ContainerGives(rt, limits, a, reason) {
      assert InReach(rt, root, a) && !Moderate(rt, limits, a);
    } else if a, e :| Holds(rt, scope, a, e) && MemberGives(rt, limits, e, reason) {
      assert InReach(rt, root, a) && !Moderate(rt, limits, a);
    }
  }

  lemma MalformedGiven(rt: Runtime, limits: Limits, root: Bytes, reason: Reason)
    requires Gives(rt, limits, ReachableScope(rt, limits, root), Spending(rt, limits, root), reason)
    requires IsMalformed(reason)
    ensures SomeBroken(rt, root)
  {
    var scope := ReachableScope(rt, limits, root);
    if a :| a in scope.region && ContainerGives(rt, limits, a, reason) {
      assert InReach(rt, root, a) && Broken(rt, a);
    } else if a, e :| Holds(rt, scope, a, e) && MemberGives(rt, limits, e, reason) {
      assert InReach(rt, root, a) && Broken(rt, a);
    }
  }

  lemma DepthGiven(rt: Runtime, limits: Limits, root: Bytes)
    requires Gives(rt, limits, ReachableScope(rt, limits, root), Spending(rt, limits, root), NestingDepthLimit)
    ensures Level(rt, root, limits.maxNestingDepth + 1) != {}
  {
    NotTooDeep(rt, limits, root);
  }

  /** What a result says about the input, from whether it is complete and which limits it reports. */
  ghost predicate LimitsMeaning(
    rt: Runtime, limits: Limits, root: Bytes, complete: bool, nesting: bool, resource: bool, malformed: bool)
  {
    && (WithinLimits(rt, limits, root) && AllReadable(rt, root) ==> complete)
    && (nesting ==> Level(rt, root, limits.maxNestingDepth + 1) != {})
    && (resource ==> ResourcePassed(rt, limits, root))
    && (malformed ==> SomeBroken(rt, root))
  }

  lemma MeansLess(
    rt: Runtime, limits: Limits, root: Bytes, complete: bool, nesting: bool, resource: bool, malformed: bool,
    complete': bool, nesting': bool, resource': bool, malformed': bool)
    requires LimitsMeaning(rt, limits, root, complete, nesting, resource, malformed)
    requires (complete ==> complete') && (nesting' ==> nesting) && (resource' ==> resource) && (malformed' ==> malformed)
    ensures LimitsMeaning(rt, limits, root, complete', nesting', resource', malformed')
  {
  }

  /** The reasons of a run, with the findings limit when there are `many` findings. */
  function WithFindings(reasons: set<Reason>, many: bool): set<Reason> {
    reasons + if many then {FindingLimit} else {}
  }

  /** The reasons recorded mean what the archives gave. */
  lemma ReasonsMean(rt: Runtime, limits: Limits, root: Bytes, reasons: set<Reason>, many: bool)
    requires Caused(rt, limits, ReachableScope(rt, limits, root), Spending(rt, limits, root), reasons)
    requires many ==> |Observables(rt, root)| + 4 > limits.maxFindings
    requires many && reasons == {} ==> |Observables(rt, root)| > limits.maxFindings
    ensures var after := WithFindings(reasons, many);
            LimitsMeaning(rt, limits, root, after == {}, NestingDepthLimit in after, Resources(after) != {},
                          Malformations(after) != {})
  {
    if WithinLimits(rt, limits, root) && AllReadable(rt, root) {
      NoReason(rt, limits, root, reasons);
    }
    if NestingDepthLimit in reasons {
      DepthGiven(rt, limits, root);
    }
    ResourcesMean(rt, limits, root, reasons, many);
    MalformationsMean(rt, limits, root, reasons, many);
  }

  lemma NoReason(rt: Runtime, limits: Limits, root: Bytes, reasons: set<Reason>)
    requires WithinLimits(rt, limits, root) && AllReadable(rt, root)
    requires Caused(rt, limits, ReachableScope(rt, limits, root), Spending(rt, limits, root), reasons)
    ensures reasons == {}
  {
    forall r | r in reasons ensures false {
      NothingGiven(rt, limits, root, r);
    }
  }

  lemma ResourcesMean(rt: Runtime, limits: Limits, root: Bytes, reasons: set<Reason>, many: bool)
    requires Caused(rt, limits, ReachableScope(rt, limits, root), Spending(rt, limits, root), reasons)
    requires many ==> |Observables(rt, root)| + 4 > limits.maxFindings
    ensures Resources(WithFindings(reasons, many)) != {} ==> ResourcePassed(rt, limits, root)
  {
    if r :| r in Resources(WithFindings(reasons, many)) && r in reasons {
      ResourceGiven(rt, limits, root, r);
    }
  }

  lemma MalformationsMean(rt: Runtime, limits: Limits, root: Bytes, reasons: set<Reason>, many: bool)
    requires Caused(rt, limits, ReachableScope(rt, limits, root), Spending(rt, limits, root), reasons)
    ensures Malformations(WithFindings(reasons, many)) != {} ==> SomeBroken(rt, root)
  {
    if r :| r in Malformations(WithFindings(reasons, many)) {
      MalformedGiven(rt, limits, root, r);
    }
  }

  // ---------------------------------------------------------------- without nested archives

  /** The bytes of the regular members. */
  function RegularBytes(infos: seq<Entry>): nat {
    if infos == [] then 0
    else
      var last := infos[|infos| - 1];
      RegularBytes(infos[..|infos| - 1]) + if IsRegular(last) then |last.content| else 0
  }

  /** Readable members that are no archives cost their bytes, and nothing is kept. */
  lemma {:induction false} FlatCost(rt: Runtime, infos: seq<Entry>)
    requires forall e :: e in infos ==> !IsOpaqueMember(rt, e) && !IsNestedArchive(rt, e)
    ensures ListCost(rt, infos) == Cost(|infos|, RegularBytes(infos), 0, 0)
  {
    if infos != [] {
      var last := infos[|infos| - 1];
      assert infos == infos[..|infos| - 1] + [last];
      assert last in infos;
      FlatCost(rt, infos[..|infos| - 1]);
      FlatEntry(rt, last);
    }
  }

  lemma FlatEntry(rt: Runtime, e: Entry)
    requires !IsOpaqueMember(rt, e) && !IsNestedArchive(rt, e)
    ensures EntryCost(rt, e) == Cost(1, if IsRegular(e) then |e.content| else 0, 0, 0)
  {
  }

  lemma {:induction false} NothingBelow(rt: Runtime, root: Bytes, depth: nat)
    requires Children(rt, root) == {}
    ensures depth > 0 ==> Level(rt, root, depth) == {}
    ensures Below(rt, root, depth) == {}
  {
    if depth > 0 {
      NothingBelow(rt, root, depth - 1);
      LevelFromEmpty(rt, root, depth);
    }
  }

  lemma LevelFromEmpty(rt: Runtime, root: Bytes, depth: nat)
    requires depth > 0 && if depth == 1 then Children(rt, root) == {} else Level(rt, root, depth - 1) == {}
    ensures Level(rt, root, depth) == {}
  {
    assert depth == 1 ==> Level(rt, root, depth - 1) == {root};
  }

  /**
   A readable archive without nested ones lies within the limits when its listing, its members,
   all their bytes together and its own size do.
   */
  lemma FlatWithinLimits(rt: Runtime, limits: Limits, root: Bytes)
    requires rt.Open(root).Listing? && limits.maxFindings >= 8
    requires forall e :: e in rt.Open(root).infos ==> !IsOpaqueMember(rt, e) && !IsNestedArchive(rt, e)
    requires |rt.Open(root).infos| <= limits.maxZipEntries && |rt.Open(root).infos| <= limits.maxMembersInspected
    requires |root| <= limits.maxCompressedBytesConsidered
    requires RegularBytes(rt.Open(root).infos) <= limits.maxTotalDecompressedBytes
    requires forall e :: e in rt.Open(root).infos && IsRegular(e) ==> |e.content| <= limits.maxMemberBytes
    ensures WithinLimits(rt, limits, root) && AllReadable(rt, root)
  {
    NoChildren(rt, root);
    FlatSpending(rt, limits, root);
    NothingBelow(rt, root, limits.maxNestingDepth + 1);
    FewObservables(rt, root);
    forall a | Reachable(Contains(rt), {root}, a) ensures FullyReadable(rt, a) {
      OnlyRoot(rt, root, a);
    }
    forall a | InReach(rt, root, a) ensures Moderate(rt, limits, a) {
      OnlyRoot(rt, root, a);
    }
  }

  lemma NoChildren(rt: Runtime, root: Bytes)
    requires rt.Open(root).Listing? && forall e :: e in rt.Open(root).infos ==> !IsNestedArchive(rt, e)
    ensures Children(rt, root) == {}
  {
  }

  lemma FlatSpending(rt: Runtime, limits: Limits, root: Bytes)
    requires rt.Open(root).Listing? && Children(rt, root) == {}
    requires forall e :: e in rt.Open(root).infos ==> !IsOpaqueMember(rt, e) && !IsNestedArchive(rt, e)
    ensures Spending(rt, limits, root)
            == Cost(|rt.Open(root).infos|, RegularBytes(rt.Open(root).infos), 0, |root|)
  {
    NothingBelow(rt, root, limits.maxNestingDepth);
    FlatCost(rt, rt.Open(root).infos);
    NothingTotal(rt);
  }

  lemma NothingTotal(rt: Runtime)
    ensures Total(rt, {}) == Cost(0, 0, 0, 0)
  {
  }

  lemma OnlyRoot(rt: Runtime, root: Bytes, a: Bytes)
    requires Children(rt, root) == {} && InReach(rt, root, a)
    ensures a == root
  {
    var b, n: nat :| b in {root} && ReachesIn(Contains(rt), b, a, n);
    ClosedContains(Contains(rt), {root}, b, a, n);
  }

  lemma FewObservables(rt: Runtime, root: Bytes)
    ensures |Observables(rt, root)| <= 8
  {
    var codes := CATEGORIES - {Nesting};
    assert |codes| == 8;
    SubsetSize(Observables(rt, root), codes);
  }
}
