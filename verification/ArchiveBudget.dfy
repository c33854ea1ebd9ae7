/**
 What an inspection of nested archives costs, counted on the archives alone, and what in them
 gives the analyzer a reason for a partial result (worker/analyzers/archive.py).
 */
module ArchiveBudget {
  import opened Wrappers
  import opened Sums
  import opened ArchiveModel

  // ---------------------------------------------------------------- costs

  /** Members visited, bytes decompressed, bytes of nested archives kept, bytes of containers. */
  datatype Cost = Cost(members: int, bytes: int, nested: int, compressed: int) {
    function Plus(more: Cost): Cost {
      Cost(members + more.members, bytes + more.bytes, nested + more.nested, compressed + more.compressed)
    }

    function OneMember(): Cost { Cost(members + 1, bytes, nested, compressed) }

    function Container(size: nat): Cost { Cost(members, bytes, nested, compressed + size) }

    predicate Natural() { members >= 0 && bytes >= 0 && nested >= 0 && compressed >= 0 }

    predicate AtMost(other: Cost) {
      members <= other.members && bytes <= other.bytes && nested <= other.nested && compressed <= other.compressed
    }
  }

  /** A regular member the analyzer tries to read. */
  predicate IsRead(rt: Runtime, e: Entry) {
    IsRegular(e) && !IsEncrypted(e) && e.compressType in rt.methods
  }

  /** All the bytes of a member that is read, kept as well when they begin like a ZIP. */
  function ReadCost(rt: Runtime, e: Entry): (cost: Cost)
    ensures cost.Natural() && cost.members == 0 && cost.compressed == 0
  {
    var size := if IsRead(rt, e) then |e.content| else 0;
    Cost(0, size, if StartsWithZipSignature(e.content) then size else 0, 0)
  }

  function EntryCost(rt: Runtime, e: Entry): (cost: Cost)
    ensures cost.Natural() && cost.members == 1 && cost.compressed == 0
  {
    ReadCost(rt, e).OneMember()
  }

  function ListCost(rt: Runtime, infos: seq<Entry>): (cost: Cost)
    ensures cost.Natural() && cost.members == |infos| && cost.compressed == 0
  {
    if infos == [] then Cost(|infos|, 0, 0, 0)
    else
      var before, last := ListCost(rt, infos[..|infos| - 1]), EntryCost(rt, infos[|infos| - 1]);
      before.Plus(last)
  }

  function ArchiveCost(rt: Runtime, a: Bytes): (cost: Cost)
    ensures cost.Natural()
  {
    if rt.Open(a).Listing? then ListCost(rt, rt.Open(a).infos).Container(|a|) else Cost(0, 0, 0, |a|)
  }

  ghost function Members(rt: Runtime): Bytes -> nat { a => ArchiveCost(rt, a).members }
  ghost function Decompressed(rt: Runtime): Bytes -> nat { a => ArchiveCost(rt, a).bytes }
  ghost function Kept(rt: Runtime): Bytes -> nat { a => ArchiveCost(rt, a).nested }
  ghost function Compressed(rt: Runtime): Bytes -> nat { a => ArchiveCost(rt, a).compressed }

  /** What these archives cost together. */
  ghost function Total(rt: Runtime, archives: set<Bytes>): Cost {
    Cost(Sum(archives, Members(rt)), Sum(archives, Decompressed(rt)), Sum(archives, Kept(rt)),
         Sum(archives, Compressed(rt)))
  }

  lemma TotalInsert(rt: Runtime, archives: set<Bytes>, a: Bytes)
    requires a !in archives
    ensures Total(rt, archives + {a}) == Total(rt, archives).Plus(ArchiveCost(rt, a))
  {
    SumInsert(archives, a, Members(rt));
    SumInsert(archives, a, Decompressed(rt));
    SumInsert(archives, a, Kept(rt));
    SumInsert(archives, a, Compressed(rt));
  }

  /** The cost of a listing up to an entry, and with it. */
  lemma ListCostNext(rt: Runtime, infos: seq<Entry>, i: nat)
    requires i < |infos|
    ensures ListCost(rt, infos[..i + 1]) == ListCost(rt, infos[..i]).Plus(EntryCost(rt, infos[i]))
  {
    assert infos[..i + 1][..i] == infos[..i];
  }

  lemma {:induction false} ListCostSome(rt: Runtime, infos: seq<Entry>, i: nat)
    requires i <= |infos|
    ensures ListCost(rt, infos[..i]).AtMost(ListCost(rt, infos))
    decreases |infos| - i
  {
    if i == |infos| {
      assert infos[..i] == infos;
    } else {
      ListCostNext(rt, infos, i);
      ListCostSome(rt, infos, i + 1);
    }
  }

  /** What an inspection of the root can cost at most: the root and each archive below it once. */
  ghost function Spending(rt: Runtime, limits: Limits, root: Bytes): Cost {
    ArchiveCost(rt, root).Plus(Total(rt, Below(rt, root, limits.maxNestingDepth)))
  }

  /** These archives, each once, cost at least this much: whatever holds them all costs no less. */
  ghost predicate Priced(rt: Runtime, entered: set<Bytes>, due: Cost) {
    forall all: set<Bytes> {:trigger Total(rt, all)} :: entered <= all ==> due.AtMost(Total(rt, all))
  }

  lemma NothingPriced(rt: Runtime)
    ensures Priced(rt, {}, Cost(0, 0, 0, 0))
  {
  }

  lemma OneMorePriced(rt: Runtime, entered: set<Bytes>, due: Cost, a: Bytes)
    requires Priced(rt, entered, due) && a !in entered
    ensures Priced(rt, entered + {a}, due.Plus(ArchiveCost(rt, a)))
  {
    forall all: set<Bytes> | entered + {a} <= all ensures due.Plus(ArchiveCost(rt, a)).AtMost(Total(rt, all)) {
      assert entered <= all - {a};
      TotalInsert(rt, all - {a}, a);
      assert all - {a} + {a} == all;
    }
  }

  /** While more archives came due, the budget offered grew by no more than that and `extra`. */
  predicate Charged(before: Cost, after: Cost, due: Cost, due': Cost, extra: Cost) {
    && before.AtMost(after)
    && after.members + due.members <= before.members + due'.members + extra.members
    && after.bytes + due.bytes <= before.bytes + due'.bytes + extra.bytes
    && after.nested + due.nested <= before.nested + due'.nested + extra.nested
    && after.compressed + due.compressed <= before.compressed + due'.compressed + extra.compressed
  }

  /** The same, with the entries of a listing before `i`. */
  predicate ListCharged(
    rt: Runtime, infos: seq<Entry>, i: nat, before: Cost, after: Cost, due: Cost, due': Cost)
    requires i <= |infos|
  {
    Charged(before, after, due, due', ListCost(rt, infos[..i]))
  }

  lemma NoneCharged(rt: Runtime, infos: seq<Entry>, offered: Cost, due: Cost)
    ensures ListCharged(rt, infos, 0, offered, offered, due, due)
  {
    assert infos[..0] == [];
  }

  lemma EntryCharged(
    rt: Runtime, infos: seq<Entry>, i: nat, before: Cost, between: Cost, after: Cost, due: Cost, due': Cost, due'': Cost)
    requires i < |infos| && ListCharged(rt, infos, i, before, between, due, due')
    requires Charged(between, after, due', due'', EntryCost(rt, infos[i]))
    ensures ListCharged(rt, infos, i + 1, before, after, due, due'')
  {
    ListCostNext(rt, infos, i);
  }

  lemma SomeCharged(
    rt: Runtime, infos: seq<Entry>, i: nat, before: Cost, after: Cost, due: Cost, due': Cost)
    requires i <= |infos| && ListCharged(rt, infos, i, before, after, due, due')
    ensures Charged(before, after, due, due', ListCost(rt, infos))
  {
    ListCostSome(rt, infos, i);
  }

  /** The same, with nothing but what came due. */
  predicate Carried(before: Cost, after: Cost, due: Cost, due': Cost) {
    && before.AtMost(after)
    && after.members + due.members <= before.members + due'.members
    && after.bytes + due.bytes <= before.bytes + due'.bytes
    && after.nested + due.nested <= before.nested + due'.nested
    && after.compressed + due.compressed <= before.compressed + due'.compressed
  }

  // ---------------------------------------------------------------- reasons

  /** Recorded as a resource limit. */
  predicate IsResource(reason: Reason) {
    match reason
    case CompressedInputLimit | ZipEntryLimit | MemberInspectionLimit | MemberActualByteLimit
      | TotalActualByteLimit | NestedMaterializationLimit | FindingLimit => true
    case _ => false
  }

  /** Recorded as malformed structure. */
  predicate IsMalformed(reason: Reason) {
    match reason
    case MalformedArchive | MalformedNestedArchive | CentralDirectoryError | MemberDecompressionError
      | ArchiveInputUnavailable => true
    case _ => false
  }

  function Resources(reasons: set<Reason>): set<Reason> { set r | r in reasons && IsResource(r) }

  function Malformations(reasons: set<Reason>): set<Reason> { set r | r in reasons && IsMalformed(r) }

  lemma OneMoreReason(reasons: set<Reason>, reason: Reason)
    ensures Resources(reasons + {reason}) == Resources(reasons) + if IsResource(reason) then {reason} else {}
    ensures Malformations(reasons + {reason}) == Malformations(reasons) + if IsMalformed(reason) then {reason} else {}
  {
  }

  /** The budget passes the limit of this reason. */
  predicate BudgetGives(limits: Limits, budget: Cost, reason: Reason) {
    match reason
    case MemberInspectionLimit => budget.members > limits.maxMembersInspected
    case TotalActualByteLimit => budget.bytes > limits.maxTotalDecompressedBytes
    case NestedMaterializationLimit => budget.nested > limits.maxNestedArchiveBytes
    case CompressedInputLimit => budget.compressed > limits.maxCompressedBytesConsidered
    case _ => false
  }

  /** A container that gives this reason by itself. */
  predicate ContainerGives(rt: Runtime, limits: Limits, a: Bytes, reason: Reason) {
    match reason
    case ZipEntryLimit => rt.Open(a).Listing? && |rt.Open(a).infos| > limits.maxZipEntries
    case MalformedArchive | MalformedNestedArchive => rt.Open(a).Unopenable?
    case CentralDirectoryError => rt.Open(a).NoDirectory?
    case _ => false
  }

  /** A member that gives this reason by itself. */
  predicate MemberGives(rt: Runtime, limits: Limits, e: Entry, reason: Reason) {
    match reason
    case MemberActualByteLimit => IsRead(rt, e) && |e.content| > limits.maxMemberBytes
    case EncryptedMember => IsRegular(e) && IsEncrypted(e)
    case UnsupportedCompressionMethod =>
      IsRegular(e) && !IsEncrypted(e) && (e.compressType !in rt.methods || e.fault == Some(NotImplementedFault))
    case MemberDecompressionError => IsRead(rt, e) && e.fault == Some(ReadFault)
    case _ => false
  }

  ghost predicate Holds(rt: Runtime, scope: Scope, a: Bytes, e: Entry) {
    a in scope.region && rt.Open(a).Listing? && e in rt.Open(a).infos
  }

  ghost predicate SomeContainerGives(rt: Runtime, limits: Limits, scope: Scope, reason: Reason) {
    exists a :: a in scope.region && ContainerGives(rt, limits, a, reason)
  }

  ghost predicate SomeMemberGives(rt: Runtime, limits: Limits, scope: Scope, reason: Reason) {
    exists a, e :: Holds(rt, scope, a, e) && MemberGives(rt, limits, e, reason)
  }

  /** Some archive lies beyond the deepest level allowed. */
  ghost predicate TooDeep(limits: Limits, scope: Scope) {
    |scope.levels| > limits.maxNestingDepth + 1 && scope.levels[limits.maxNestingDepth + 1] != {}
  }

  /** The archives in scope, or a budget of this size, give the reason. */
  ghost predicate Gives(rt: Runtime, limits: Limits, scope: Scope, budget: Cost, reason: Reason) {
    || BudgetGives(limits, budget, reason)
    || SomeContainerGives(rt, limits, scope, reason) || SomeMemberGives(rt, limits, scope, reason)
    || (reason == NestingDepthLimit && TooDeep(limits, scope))
  }

  ghost predicate Caused(rt: Runtime, limits: Limits, scope: Scope, budget: Cost, reasons: set<Reason>) {
    forall r :: r in reasons ==> Gives(rt, limits, scope, budget, r)
  }

  /** No more was spent than was offered, and every reason recorded has its cause. */
  ghost predicate Accounts(
    rt: Runtime, limits: Limits, scope: Scope, spent: Cost, offered: Cost, reasons: set<Reason>)
  {
    spent.AtMost(offered) && Caused(rt, limits, scope, offered, reasons)
  }

  lemma CausedStill(rt: Runtime, limits: Limits, scope: Scope, budget: Cost, budget': Cost, reasons: set<Reason>)
    requires Caused(rt, limits, scope, budget, reasons) && budget.AtMost(budget')
    ensures Caused(rt, limits, scope, budget', reasons)
  {
    forall r | r in reasons ensures Gives(rt, limits, scope, budget', r) {
      assert Gives(rt, limits, scope, budget, r);
    }
  }

  /** The reasons a member added are its own, or those of the budget. */
  ghost predicate MemberCaused(
    rt: Runtime, limits: Limits, e: Entry, budget: Cost, before: set<Reason>, after: set<Reason>)
  {
    before <= after
    && forall r :: r in after ==> r in before || BudgetGives(limits, budget, r) || MemberGives(rt, limits, e, r)
  }

  lemma CausedByMember(
    rt: Runtime, limits: Limits, scope: Scope, a: Bytes, e: Entry, budget: Cost, before: set<Reason>, after: set<Reason>)
    requires Caused(rt, limits, scope, budget, before) && Holds(rt, scope, a, e)
    requires MemberCaused(rt, limits, e, budget, before, after)
    ensures Caused(rt, limits, scope, budget, after)
  {
    forall r | r in after ensures Gives(rt, limits, scope, budget, r) {
      if r !in before && !BudgetGives(limits, budget, r) {
        assert MemberGives(rt, limits, e, r);
      }
    }
  }

  lemma CausedByContainer(
    rt: Runtime, limits: Limits, scope: Scope, a: Bytes, budget: Cost, before: set<Reason>, reason: Reason)
    requires Caused(rt, limits, scope, budget, before) && a in scope.region
    requires BudgetGives(limits, budget, reason) || ContainerGives(rt, limits, a, reason)
    ensures Caused(rt, limits, scope, budget, before + {reason})
  {
    assert Gives(rt, limits, scope, budget, reason);
  }

  lemma CausedByDepth(
    rt: Runtime, limits: Limits, scope: Scope, a: Bytes, budget: Cost, before: set<Reason>, depth: nat)
    requires Caused(rt, limits, scope, budget, before) && depth < |scope.levels| && a in scope.levels[depth]
    requires depth == limits.maxNestingDepth + 1
    ensures Caused(rt, limits, scope, budget, before + {NestingDepthLimit})
  {
  }

  /** Why a read stops, from what it would have counted; the member's own limit comes first. */
  function StopReason(limits: Limits, memberBytes: int, bytes: int, nested: int): Option<Reason> {
    if memberBytes > limits.maxMemberBytes then Some(MemberActualByteLimit)
    else if bytes > limits.maxTotalDecompressedBytes then Some(TotalActualByteLimit)
    else if nested > limits.maxNestedArchiveBytes then Some(NestedMaterializationLimit)
    else None
  }

  function ReasonSet(reason: Option<Reason>): set<Reason> {
    match reason case None => {} case Some(r) => {r}
  }

  /** The budget still covers what is left of a member, kept as well when it is a ZIP. */
  predicate Room(budget: Cost, bytes: int, nested: int, left: int, zip: bool) {
    bytes + left <= budget.bytes && nested + (if zip then left else 0) <= budget.nested
  }

  /** A read that would have counted no more than the member holds stops for a cause. */
  lemma StopCaused(
    rt: Runtime, limits: Limits, e: Entry, budget: Cost, before: set<Reason>, memberBytes: int, bytes: int, nested: int)
    requires IsRead(rt, e) && memberBytes <= |e.content| && bytes <= budget.bytes && nested <= budget.nested
    ensures MemberCaused(rt, limits, e, budget, before,
                         before + ReasonSet(StopReason(limits, memberBytes, bytes, nested)))
  {
  }
}
