/**
 The bounded recursive ZIP inspection (worker/analyzers/archive.py): one mutable state
 shared by every level of nesting. The eight observation counters and nine record lists of
 the source are kept in two maps indexed by category.
 */
module ArchiveAnalyzer {
  import opened Wrappers
  import opened Reachability
  import opened ArchiveModel
  import opened ArchiveBudget

  datatype ReadOutcome = Plain | Nested(data: Bytes) | Stopped | Faulted(fault: Fault)

  function TotalRecords(records: map<Category, seq<Record>>): int
    requires forall c: Category :: c in records
  {
    |records[Traversal]| + |records[AbsolutePath]| + |records[Symlink]| + |records[Duplicate]|
    + |records[Dangerous]| + |records[DoubleExtension]| + |records[Bidi]| + |records[Encrypted]|
    + |records[Nesting]|
  }

  lemma TotalRecordsAppend(records: map<Category, seq<Record>>, c: Category, r: Record)
    requires forall k: Category :: k in records
    ensures TotalRecords(records[c := records[c] + [r]]) == TotalRecords(records) + 1
  {
    match c {
      case Traversal => case AbsolutePath => case Symlink => case Duplicate => case Dangerous =>
      case DoubleExtension => case Bidi => case Encrypted => case Nesting =>
    }
  }

  function Bump(counts: map<Category, int>, c: Category, seen: bool): (r: map<Category, int>)
    requires forall k: Category :: k in counts
    ensures forall k: Category :: k in r
  {
    counts[c := counts[c] + if seen then 1 else 0]
  }

  function BumpPlacement(counts: map<Category, int>, f: NameFacts, collides: bool): (r: map<Category, int>)
    requires forall k: Category :: k in counts
    ensures forall k: Category :: k in r
  {
    var placed := Bump(Bump(counts, Traversal, f.traversal), AbsolutePath, f.rooted);
    if collides then Bump(placed, Duplicate, true) else placed
  }

  function BumpDeception(counts: map<Category, int>, f: NameFacts): (r: map<Category, int>)
    requires forall k: Category :: k in counts
    ensures forall k: Category :: k in r
  {
    Bump(Bump(Bump(counts, Dangerous, f.dangerous), DoubleExtension, f.doubleExtension), Bidi, f.bidi)
  }

  /** The counters after one member's name was observed. */
  function BumpName(counts: map<Category, int>, f: NameFacts, collides: bool): (r: map<Category, int>)
    requires forall k: Category :: k in counts
    ensures forall k: Category :: k in r
  {
    BumpDeception(BumpPlacement(counts, f, collides), f)
  }

  lemma BumpNameMeaning(counts: map<Category, int>, f: NameFacts, collides: bool, c: Category)
    requires forall k: Category :: k in counts
    ensures BumpName(counts, f, collides)[c] == counts[c] + (
              match c
              case Traversal => if f.traversal then 1 else 0
              case AbsolutePath => if f.rooted then 1 else 0
              case Duplicate => if collides then 1 else 0
              case Dangerous => if f.dangerous then 1 else 0
              case DoubleExtension => if f.doubleExtension then 1 else 0
              case Bidi => if f.bidi then 1 else 0
              case _ => 0)
  {
  }

  function Min(a: int, b: int): int { if a <= b then a else b }
  function Max(a: int, b: int): int { if a <= b then b else a }

  const UNNAMED := "unnamed-member"

  function ShownLength(limits: Limits): nat { Min(limits.maxMemberNameLength, limits.maxMetadataStringLength) }

  /** A member name as it is shown: its start, or a placeholder when nothing of it remains. */
  function ShownName(rt: Runtime, limits: Limits, name: string): (shown: string)
    ensures 0 < |shown| <= Max(|UNNAMED|, ShownLength(limits))
    ensures rt.Represent(name) != "" && ShownLength(limits) > 0 ==>
              shown <= rt.Represent(name) && |shown| == Min(ShownLength(limits), |rt.Represent(name)|)
  {
    var shown := rt.Represent(name)[..Min(ShownLength(limits), |rt.Represent(name)|)];
    if shown == "" then UNNAMED else shown
  }

  ghost predicate RecordsFit(limits: Limits, records: map<Category, seq<Record>>, retained: int) {
    && (forall c: Category :: c in records) && TotalRecords(records) == retained
    && retained <= limits.maxSuspiciousMemberNames
  }

  ghost predicate CountsValid(counts: map<Category, int>) {
    forall c: Category :: c in counts && counts[c] >= 0
  }

  ghost predicate Grew(
    reasons: set<Reason>, reasons': set<Reason>, digests: set<int>, digests': set<int>, counts: map<Category, int>,
    counts': map<Category, int>)
  {
    && reasons <= reasons' && digests <= digests'
    && forall c: Category :: c in counts && c in counts' ==> counts[c] <= counts'[c]
  }

  /** Where a member loop started. */
  datatype Start = Start(
    reasons: set<Reason>, digests: set<int>, counts: map<Category, int>, offered: Cost, due: Cost)

  lemma GrewTwice(
    reasons: set<Reason>, reasons': set<Reason>, reasons'': set<Reason>, digests: set<int>, digests': set<int>,
    digests'': set<int>, counts: map<Category, int>, counts': map<Category, int>, counts'': map<Category, int>)
    requires Grew(reasons, reasons', digests, digests', counts, counts') && CountsValid(counts')
    requires Grew(reasons', reasons'', digests', digests'', counts', counts'')
    ensures Grew(reasons, reasons'', digests, digests'', counts, counts'')
  {
  }

  class State {
    const limits: Limits
    var archiveCount: int
    var entryCount: int
    var membersInspected: int
    var directoriesSeen: int
    var actualDecompressedBytes: int
    var compressedBytesConsidered: int
    var nestedArchivesDetected: int
    var nestedArchiveBytesMaterialized: int
    var repeatedNestedArchives: int
    var unsupportedMethodCount: int
    var memberNamesTruncated: int
    var retainedNameCount: int
    var counts: map<Category, int>
    var records: map<Category, seq<Record>>
    var partialReasons: set<Reason>
    var resourceReasons: set<Reason>
    var malformedReasons: set<Reason>
    var unsupportedMethods: set<int>
    var seenNestedDigests: set<int>
    /** What the containers and members met so far may cost. */
    ghost var offered: Cost

    constructor (limits: Limits)
      ensures this.limits == limits && Valid() && partialReasons == {}
      ensures actualDecompressedBytes == 0 && seenNestedDigests == {}
      ensures offered == Spent() == Cost(0, 0, 0, 0)
      ensures forall c: Category :: counts[c] == 0
    {
      this.limits := limits;
      archiveCount, entryCount, membersInspected, directoriesSeen := 0, 0, 0, 0;
      actualDecompressedBytes, compressedBytesConsidered := 0, 0;
      nestedArchivesDetected, nestedArchiveBytesMaterialized, repeatedNestedArchives := 0, 0, 0;
      unsupportedMethodCount, memberNamesTruncated, retainedNameCount := 0, 0, 0;
      counts := map c | c in CATEGORIES :: 0;
      records := map c | c in CATEGORIES :: [];
      partialReasons, resourceReasons, malformedReasons := {}, {}, {};
      unsupportedMethods, seenNestedDigests := {}, {};
      offered := Cost(0, 0, 0, 0);
      new;
      AllCategories();
    }

    /** Every record is accounted for by the retained-name budget. */
    ghost predicate RecordsValid()
      reads `records, `retainedNameCount
    {
      RecordsFit(limits, records, retainedNameCount)
    }

    ghost predicate BudgetsValid()
      reads `nestedArchiveBytesMaterialized, `actualDecompressedBytes, `partialReasons, `resourceReasons, `malformedReasons
    {
      && nestedArchiveBytesMaterialized <= limits.maxNestedArchiveBytes && 0 <= actualDecompressedBytes
      && resourceReasons == Resources(partialReasons) && malformedReasons == Malformations(partialReasons)
    }

    /** What the inspection cost so far. */
    ghost function Spent(): Cost
      reads `membersInspected, `actualDecompressedBytes, `nestedArchiveBytesMaterialized, `compressedBytesConsidered
    {
      Cost(membersInspected, actualDecompressedBytes, nestedArchiveBytesMaterialized, compressedBytesConsidered)
    }

    /** No more was spent than was offered, and every reason recorded has its cause. */
    ghost predicate Accounted(rt: Runtime, scope: Scope)
      reads `membersInspected, `actualDecompressedBytes, `nestedArchiveBytesMaterialized, `compressedBytesConsidered,
            `offered, `partialReasons
    {
      Accounts(rt, limits, scope, Spent(), offered, partialReasons)
    }

    /** The budgets and bookkeeping every step keeps. */
    ghost predicate Valid()
      reads this
    {
      && RecordsValid() && BudgetsValid()
      && CountsValid(counts) && membersInspected <= limits.maxMembersInspected
    }

    // -------------------------------------------------------------- reasons

    method Partial(reason: Reason)
      modifies `partialReasons
      ensures partialReasons == old(partialReasons) + {reason}
      ensures old(BudgetsValid()) && !IsResource(reason) && !IsMalformed(reason) ==> BudgetsValid()
    {
      OneMoreReason(partialReasons, reason);
      partialReasons := partialReasons + {reason};
    }

    method Resource(reason: Reason)
      modifies `partialReasons, `resourceReasons
      ensures partialReasons == old(partialReasons) + {reason}
      ensures resourceReasons == old(resourceReasons) + {reason}
      ensures old(BudgetsValid()) && IsResource(reason) ==> BudgetsValid()
    {
      OneMoreReason(partialReasons, reason);
      resourceReasons := resourceReasons + {reason};
      Partial(reason);
    }

    method Malformed(reason: Reason)
      modifies `partialReasons, `malformedReasons
      ensures partialReasons == old(partialReasons) + {reason}
      ensures malformedReasons == old(malformedReasons) + {reason}
      ensures old(BudgetsValid()) && IsMalformed(reason) ==> BudgetsValid()
    {
      OneMoreReason(partialReasons, reason);
      malformedReasons := malformedReasons + {reason};
      Partial(reason);
    }

    // -------------------------------------------------------------- name records

    method SafeMemberName(rt: Runtime, name: string) returns (shown: string)
      modifies `memberNamesTruncated
      ensures shown == ShownName(rt, limits, name)
      ensures memberNamesTruncated == old(memberNamesTruncated) + if |rt.Represent(name)| > ShownLength(limits) then 1 else 0
    {
      var maximum := Min(limits.maxMemberNameLength, limits.maxMetadataStringLength);
      var represented := rt.Represent(name);
      if |represented| > maximum {
        memberNamesTruncated := memberNamesTruncated + 1;
      }
      shown := represented[..Min(maximum, |represented|)];
      if shown == "" {
        shown := UNNAMED;
      }
    }

    method CanRetainName() returns (ok: bool)
      modifies `retainedNameCount
      ensures ok == (old(retainedNameCount) < limits.maxSuspiciousMemberNames)
      ensures retainedNameCount == old(retainedNameCount) + if ok then 1 else 0
    {
      if retainedNameCount >= limits.maxSuspiciousMemberNames {
        return false;
      }
      retainedNameCount := retainedNameCount + 1;
      ok := true;
    }

    method RetainRecord(
      rt: Runtime, c: Category, name: string, depth: int, detail: seq<string>, maximum: int)
      requires RecordsValid()
      modifies `records, `retainedNameCount, `memberNamesTruncated
      ensures RecordsValid()
      ensures var kept := |old(records)[c]| < maximum && old(retainedNameCount) < limits.maxSuspiciousMemberNames;
              && retainedNameCount == old(retainedNameCount) + (if kept then 1 else 0)
              && records == (if kept then
                               var record := Record(ShownName(rt, limits, name), depth, detail);
                               old(records)[c := old(records)[c] + [record]]
                             else old(records))
    {
      if |records[c]| < maximum {
        var ok := CanRetainName();
        if ok {
          var shown := SafeMemberName(rt, name);
          TotalRecordsAppend(records, c, Record(shown, depth, detail));
          records := records[c := records[c] + [Record(shown, depth, detail)]];
        }
      }
    }

    /** Count observation `c` of a member if it was seen, and keep a bounded record of its name. */
    method Observe(
      rt: Runtime, seen: bool, c: Category, name: string, depth: int, detail: seq<string>, maximum: int)
      requires RecordsValid() && forall k: Category :: k in counts
      modifies `counts, `records, `retainedNameCount, `memberNamesTruncated
      ensures RecordsValid()
      ensures counts == Bump(old(counts), c, seen)
    {
      counts := Bump(counts, c, seen);
      if seen {
        RetainRecord(rt, c, name, depth, detail, maximum);
      }
    }

    // -------------------------------------------------------------- names

    /**
     Observe one member's name. `seenNames` maps each collision key met in this archive to
     the first name that had it.
     */
    method InspectName(
      rt: Runtime, ghost facts: seq<NameFacts>, ghost i: nat, name: string, depth: int,
      seenNames: map<string, string>)
      returns (seenNames': map<string, string>)
      requires RecordsValid() && (forall k: Category :: k in counts)
      requires i < |facts| && facts[i] == rt.Facts(name)
      requires SeenNames(facts[..i], seenNames)
      modifies `counts, `records, `retainedNameCount, `memberNamesTruncated
      ensures RecordsValid()
      ensures SeenNames(facts[..i + 1], seenNames')
      ensures forall c: Category :: c in counts
      ensures forall c: Category :: counts[c] == old(counts)[c] + if NameHas(facts, i, c) then 1 else 0
    {
      CollidesSeen(facts, i, seenNames);
      seenNames' := ObservePlacement(rt, rt.Facts(name), name, depth, seenNames);
      ObserveDeception(rt, rt.Facts(name), name, depth);
      SeenExtends(facts, i, seenNames, seenNames');
      forall c: Category
        ensures counts[c] == old(counts)[c] + if NameHas(facts, i, c) then 1 else 0
      {
        BumpNameMeaning(old(counts), facts[i], facts[i].collisionKey in seenNames, c);
      }
    }

    method ObservePlacement(
      rt: Runtime, facts: NameFacts, name: string, depth: int, seenNames: map<string, string>)
      returns (seenNames': map<string, string>)
      requires RecordsValid() && forall k: Category :: k in counts
      modifies `counts, `records, `retainedNameCount, `memberNamesTruncated
      ensures RecordsValid()
      ensures seenNames'.Keys == seenNames.Keys + {facts.collisionKey}
      ensures counts == BumpPlacement(old(counts), facts, facts.collisionKey in seenNames)
    {
      Observe(rt, facts.traversal, Traversal, name, depth, [], limits.maxTraversalRecords);
      Observe(rt, facts.rooted, AbsolutePath, name, depth, [], limits.maxTraversalRecords);
      if facts.collisionKey in seenNames {
        seenNames' := seenNames;
        Observe(rt, true, Duplicate, name, depth, [seenNames[facts.collisionKey]], limits.maxDuplicateRecords);
      } else {
        seenNames' := seenNames[facts.collisionKey := name];
      }
    }

    method ObserveDeception(rt: Runtime, facts: NameFacts, name: string, depth: int)
      requires RecordsValid() && forall k: Category :: k in counts
      modifies `counts, `records, `retainedNameCount, `memberNamesTruncated
      ensures RecordsValid()
      ensures counts == BumpDeception(old(counts), facts)
    {
      var most := limits.maxSuspiciousMemberNames;
      var extension := if facts.extension.Some? then [facts.extension.value] else [];
      Observe(rt, facts.dangerous, Dangerous, name, depth, extension, most);
      Observe(rt, facts.doubleExtension, DoubleExtension, name, depth, extension, most);
      Observe(rt, facts.bidi, Bidi, name, depth, [], most);
    }

    // -------------------------------------------------------------- member bytes

    function NextReadSize(memberBytes: int, preferred: int, nested: bool): (n: int)
      requires preferred > 0
      reads this
      ensures 1 <= n <= preferred
      ensures n <= Max(1, limits.maxTotalDecompressedBytes - actualDecompressedBytes + 1)
      ensures n < preferred && !nested ==>
                memberBytes + n > limits.maxMemberBytes
                || actualDecompressedBytes + n > limits.maxTotalDecompressedBytes
    {
      var maximum := Min(preferred, Min(limits.maxMemberBytes - memberBytes + 1,
                                        limits.maxTotalDecompressedBytes - actualDecompressedBytes + 1));
      var bounded :=
        if nested then Min(maximum, limits.maxNestedArchiveBytes - nestedArchiveBytesMaterialized + 1)
        else maximum;
      Max(1, bounded)
    }

    method AccountActualBytes(n: nat, memberBytes: int) returns (memberBytes': int, stop: bool)
      requires BudgetsValid()
      modifies `actualDecompressedBytes, `partialReasons, `resourceReasons
      ensures BudgetsValid() && old(partialReasons) <= partialReasons
      ensures memberBytes' == memberBytes + n
      ensures actualDecompressedBytes == old(actualDecompressedBytes) + n
      ensures stop <==> (memberBytes' > limits.maxMemberBytes
                         || actualDecompressedBytes > limits.maxTotalDecompressedBytes)
      ensures partialReasons
              == old(partialReasons) + ReasonSet(StopReason(limits, memberBytes', actualDecompressedBytes, 0))
    {
      memberBytes' := memberBytes + n;
      actualDecompressedBytes := actualDecompressedBytes + n;
      stop := false;
      if memberBytes' > limits.maxMemberBytes {
        Resource(MemberActualByteLimit);
        stop := true;
      } else if actualDecompressedBytes > limits.maxTotalDecompressedBytes {
        Resource(TotalActualByteLimit);
        stop := true;
      }
    }

    method AppendNested(chunk: Bytes, target: Bytes) returns (target': Bytes, stop: bool)
      requires BudgetsValid()
      modifies `nestedArchiveBytesMaterialized, `partialReasons, `resourceReasons
      ensures BudgetsValid() && old(partialReasons) <= partialReasons
      ensures stop <==> old(nestedArchiveBytesMaterialized) + |chunk| > limits.maxNestedArchiveBytes
      ensures nestedArchiveBytesMaterialized == old(nestedArchiveBytesMaterialized) + if stop then 0 else |chunk|
      ensures if stop then partialReasons == old(partialReasons) + {NestedMaterializationLimit} && target' == target
              else target' == target + chunk && partialReasons == old(partialReasons)
    {
      if nestedArchiveBytesMaterialized + |chunk| > limits.maxNestedArchiveBytes {
        Resource(NestedMaterializationLimit);
        return target, true;
      }
      nestedArchiveBytesMaterialized := nestedArchiveBytesMaterialized + |chunk|;
      return target + chunk, false;
    }

    /** Account for a chunk and, in a nested archive, keep it; `stop` is the resource stop. */
    method Consume(chunk: Bytes, memberBytes: int, nestedData: Option<Bytes>)
      returns (memberBytes': int, nestedData': Option<Bytes>, stop: bool)
      requires BudgetsValid()
      modifies `actualDecompressedBytes, `nestedArchiveBytesMaterialized, `partialReasons, `resourceReasons
      ensures BudgetsValid() && old(partialReasons) <= partialReasons
      ensures memberBytes' == memberBytes + |chunk|
      ensures actualDecompressedBytes == old(actualDecompressedBytes) + |chunk|
      ensures var nested := old(nestedArchiveBytesMaterialized) + if nestedData.Some? then |chunk| else 0;
              var reason := StopReason(limits, memberBytes', actualDecompressedBytes, nested);
              && stop == reason.Some? && partialReasons == old(partialReasons) + ReasonSet(reason)
              && nestedArchiveBytesMaterialized == if stop then old(nestedArchiveBytesMaterialized) else nested
      ensures !stop && nestedData.Some? ==> nestedData' == Some(nestedData.value + chunk)
      ensures !stop && nestedData.None? ==> nestedData' == None
    {
      memberBytes', stop := AccountActualBytes(|chunk|, memberBytes);
      nestedData' := None;
      if !stop && nestedData.Some? {
        var target: Bytes;
        target, stop := AppendNested(chunk, nestedData.value);
        nestedData' := Some(target);
      }
    }

    /**
     Read one member to its end within every byte budget. A stream returns `min(n, remaining)`
     bytes; a faulty one may fail at any read and fails by the read at its end.
     */
    method ReadMember(ghost rt: Runtime, e: Entry) returns (outcome: ReadOutcome)
      requires BudgetsValid() && IsRead(rt, e)
      requires Room(offered, actualDecompressedBytes, nestedArchiveBytesMaterialized, |e.content|,
                    StartsWithZipSignature(e.content))
      modifies `actualDecompressedBytes, `nestedArchiveBytesMaterialized, `partialReasons, `resourceReasons
      ensures BudgetsValid() && old(partialReasons) <= partialReasons
      ensures OutcomeFits(e, outcome)
      ensures if outcome.Stopped? then partialReasons != {} else partialReasons == old(partialReasons)
      ensures MemberCaused(rt, limits, e, offered, old(partialReasons), partialReasons)
      ensures Room(offered, actualDecompressedBytes, nestedArchiveBytesMaterialized, 0, false)
      ensures ReadBytes(old(actualDecompressedBytes), actualDecompressedBytes, outcome)
    {
      var raises: bool := *;
      if e.fault.Some? && (raises || e.content == []) {
        return Faulted(e.fault.value);
      }
      var n := NextReadSize(0, 4, false);
      var first := e.content[..Min(n, |e.content|)];
      var nestedData := if StartsWithZipSignature(first) then Some([]) else None;
      var memberBytes, stop;
      ghost var before, bytes, nested := partialReasons, actualDecompressedBytes + |first|,
        nestedArchiveBytesMaterialized + if nestedData.Some? then |first| else 0;
      memberBytes, nestedData, stop := Consume(first, 0, nestedData);
      if stop {
        StopCaused(rt, limits, e, offered, before, |first|, bytes, nested);
        return Stopped;
      }
      SignatureFirst(e.content, first);
      if first == [] {
        return Plain;
      }
      assert [] + first == e.content[..|first|];
      outcome := ReadRest(rt, e, |first|, memberBytes, nestedData);
    }

    /** The rest of a member, from a position that is not its start, until a read returns nothing. */
    method ReadRest(ghost rt: Runtime, e: Entry, start: nat, memberBytes: int, nestedData: Option<Bytes>)
      returns (outcome: ReadOutcome)
      requires BudgetsValid() && IsRead(rt, e) && 0 < start <= |e.content| && memberBytes == start
      requires Room(offered, actualDecompressedBytes, nestedArchiveBytesMaterialized, |e.content| - start, nestedData.Some?)
      requires nestedData == if StartsWithZipSignature(e.content) then Some(e.content[..start]) else None
      requires actualDecompressedBytes <= limits.maxTotalDecompressedBytes
      modifies `actualDecompressedBytes, `nestedArchiveBytesMaterialized, `partialReasons, `resourceReasons
      ensures BudgetsValid() && old(partialReasons) <= partialReasons
      ensures OutcomeFits(e, outcome)
      ensures if outcome.Stopped? then partialReasons != {} else partialReasons == old(partialReasons)
      ensures MemberCaused(rt, limits, e, offered, old(partialReasons), partialReasons)
      ensures Room(offered, actualDecompressedBytes, nestedArchiveBytesMaterialized, 0, false)
      ensures old(actualDecompressedBytes) <= actualDecompressedBytes
      ensures actualDecompressedBytes <= limits.maxTotalDecompressedBytes + if outcome.Stopped? then 1 else 0
    {
      var position, size, data := start, memberBytes, nestedData;
      while true
        invariant BudgetsValid() && partialReasons == old(partialReasons)
        invariant position <= |e.content| && size == position
        invariant Room(offered, actualDecompressedBytes, nestedArchiveBytesMaterialized, |e.content| - position, data.Some?)
        invariant data == if StartsWithZipSignature(e.content) then Some(e.content[..position]) else None
        invariant old(actualDecompressedBytes) <= actualDecompressedBytes <= limits.maxTotalDecompressedBytes
        decreases |e.content| - position
      {
        var raises: bool := *;
        if e.fault.Some? && (raises || position == |e.content|) {
          return Faulted(e.fault.value);
        }
        var n := NextReadSize(size, READ_CHUNK_BYTES, data.Some?);
        var chunk := e.content[position..position + Min(n, |e.content| - position)];
        if chunk == [] {
          break;
        }
        ghost var bytes, nested := actualDecompressedBytes + |chunk|,
          nestedArchiveBytesMaterialized + if data.Some? then |chunk| else 0;
        var stop;
        size, data, stop := Consume(chunk, size, data);
        if stop {
          StopCaused(rt, limits, e, offered, old(partialReasons), position + |chunk|, bytes, nested);
          return Stopped;
        }
        assert e.content[..position] + chunk == e.content[..position + |chunk|];
        position := position + |chunk|;
      }
      assert e.content[..position] == e.content;
      return if data.Some? then Nested(data.value) else Plain;
    }

    // -------------------------------------------------------------- members

    method UnsupportedMethod(compressType: int)
      modifies `unsupportedMethodCount, `unsupportedMethods, `partialReasons
      ensures partialReasons == old(partialReasons) + {UnsupportedCompressionMethod}
      ensures unsupportedMethodCount == old(unsupportedMethodCount) + 1
      ensures unsupportedMethods == old(unsupportedMethods) + {compressType}
      ensures old(BudgetsValid()) ==> BudgetsValid()
    {
      unsupportedMethodCount := unsupportedMethodCount + 1;
      unsupportedMethods := unsupportedMethods + {compressType};
      Partial(UnsupportedCompressionMethod);
    }

    /** The part of the loop between observing a member's name and entering a nested archive. */
    method InspectMember(rt: Runtime, info: Entry, depth: int) returns (outcome: ReadOutcome)
      requires Valid() && Spent().Plus(ReadCost(rt, info)).AtMost(offered)
      modifies `directoriesSeen, `counts, `records, `retainedNameCount, `memberNamesTruncated
      modifies `partialReasons, `resourceReasons, `malformedReasons
      modifies `unsupportedMethodCount, `unsupportedMethods
      modifies `actualDecompressedBytes, `nestedArchiveBytesMaterialized
      ensures Valid() && old(partialReasons) <= partialReasons
      ensures Spent().AtMost(offered) && MemberCaused(rt, limits, info, offered, old(partialReasons), partialReasons)
      ensures counts == BumpKind(old(counts), info)
      ensures MemberFits(rt, info, outcome, partialReasons)
      ensures ReadBytes(old(actualDecompressedBytes), actualDecompressedBytes, outcome)
    {
      outcome := Plain;
      if info.isDir {
        directoriesSeen := directoriesSeen + 1;
      } else if IsSymlink(info) {
        Observe(rt, true, Symlink, info.filename, depth, [], limits.maxSuspiciousMemberNames);
      } else if IsEncrypted(info) {
        Partial(EncryptedMember);
        Observe(rt, true, Encrypted, info.filename, depth, [], limits.maxSuspiciousMemberNames);
      } else if info.compressType !in rt.methods {
        UnsupportedMethod(info.compressType);
      } else {
        outcome := ReadSupported(rt, info);
      }
    }

    /** Read a member; one that turns out unreadable is reported. */
    method ReadSupported(ghost rt: Runtime, info: Entry) returns (outcome: ReadOutcome)
      requires BudgetsValid() && IsRead(rt, info)
      requires Room(offered, actualDecompressedBytes, nestedArchiveBytesMaterialized, |info.content|,
                    StartsWithZipSignature(info.content))
      modifies `partialReasons, `resourceReasons, `malformedReasons, `unsupportedMethodCount, `unsupportedMethods
      modifies `actualDecompressedBytes, `nestedArchiveBytesMaterialized
      ensures BudgetsValid()
      ensures MemberCaused(rt, limits, info, offered, old(partialReasons), partialReasons)
      ensures Room(offered, actualDecompressedBytes, nestedArchiveBytesMaterialized, 0, false)
      ensures OutcomeFits(info, outcome)
      ensures outcome.Stopped? || outcome.Faulted? ==> partialReasons != {}
      ensures ReadBytes(old(actualDecompressedBytes), actualDecompressedBytes, outcome)
    {
      outcome := ReadMember(rt, info);
      if outcome.Faulted? {
        if outcome.fault == NotImplementedFault {
          UnsupportedMethod(info.compressType);
        } else {
          Malformed(MemberDecompressionError);
        }
      }
    }

    // -------------------------------------------------------------- archives

    /**
     Between two archives. What is observed lies in scope, what finished archives show is
     observed, and while nothing is partial every nested archive entered is finished or active.
     */
    ghost predicate Inspecting(rt: Runtime, scope: Scope, active: set<Bytes>, ev: Evidence)
      reads this
    {
      && Valid() && Accounted(rt, scope) && Supports(rt, scope, ev)
      && Links(rt, scope, counts, seenNestedDigests, ev)
      && (partialReasons == {} ==> ev.entered <= ev.inspected + active)
    }

    /** Everything only grows, and the byte counter stays within the overshoot of this depth. */
    twostate predicate Grows(slack: int)
      reads this
    {
      && Grew(old(partialReasons), partialReasons, old(seenNestedDigests), seenNestedDigests, old(counts), counts)
      && actualDecompressedBytes <= limits.maxTotalDecompressedBytes + slack
    }

    /**
     Inspect one container at one nesting depth, and recursively the new ones it holds.
     `ev` is the evidence so far, and `active` the nested archives on the stack: while nothing
     is partial, every nested archive entered is finished or active.
     */
    method InspectArchive(
      rt: Runtime, source: Bytes, containerSize: int, depth: int,
      ghost scope: Scope, ghost active: set<Bytes>, ghost ev: Evidence)
      returns (ghost ev': Evidence)
      requires ScopeClosed(rt, limits, scope) && source in scope.region && containerSize == |source|
      requires 0 <= depth <= limits.maxNestingDepth && source in scope.levels[depth]
      requires Inspecting(rt, scope, active, ev)
      requires actualDecompressedBytes <= limits.maxTotalDecompressedBytes
      modifies this
      ensures Inspecting(rt, scope, active, ev')
      ensures Charged(old(offered), offered, ev.due, ev'.due, ArchiveCost(rt, source))
      ensures partialReasons == {} ==> source in ev'.inspected
      ensures Grows(limits.maxNestingDepth - depth + 1)
      decreases limits.maxNestingDepth - depth, 6
    {
      ev' := ev;
      Offer(rt, scope, offered.Container(|source|));
      var listing := OpenContainer(rt, source, containerSize, depth, scope);
      if listing.Some? {
        assert ScopeCovers(rt, scope, source);
        ev' := InspectEntries(rt, source, listing.value, depth, scope, active, ev);
      }
    }

    /** More may be spent from here on. */
    ghost method Offer(rt: Runtime, scope: Scope, more: Cost)
      requires Accounted(rt, scope) && offered.AtMost(more)
      modifies `offered
      ensures Accounted(rt, scope) && offered == more
    {
      CausedStill(rt, limits, scope, offered, more, partialReasons);
      offered := more;
    }

    /** Charge the container's size, open it and list its entries; `None` when that fails. */
    method OpenContainer(rt: Runtime, source: Bytes, containerSize: int, depth: int, ghost scope: Scope)
      returns (listing: Option<seq<Entry>>)
      requires BudgetsValid() && Accounted(rt, scope) && source in scope.region
      requires containerSize >= 0 && Spent().Container(containerSize).AtMost(offered)
      modifies `compressedBytesConsidered, `archiveCount, `entryCount
      modifies `partialReasons, `resourceReasons, `malformedReasons
      ensures BudgetsValid() && Accounted(rt, scope) && old(partialReasons) <= partialReasons
      ensures compressedBytesConsidered == old(compressedBytesConsidered) + containerSize
      ensures listing.Some? <==> compressedBytesConsidered <= limits.maxCompressedBytesConsidered && rt.Open(source).Listing?
      ensures listing.None? ==> partialReasons != {}
      ensures listing.Some? ==> rt.Open(source) == Listing(listing.value)
      ensures listing.Some? && |listing.value| > limits.maxZipEntries ==> partialReasons != {}
      ensures entryCount == old(entryCount) + if listing.Some? then |listing.value| else 0
    {
      listing := None;
      compressedBytesConsidered := compressedBytesConsidered + containerSize;
      var archive := rt.Open(source);
      if compressedBytesConsidered > limits.maxCompressedBytesConsidered {
        CausedByContainer(rt, limits, scope, source, offered, partialReasons, CompressedInputLimit);
        Resource(CompressedInputLimit);
      } else if archive.Unopenable? {
        Reject(rt, source, scope, if depth > 0 then MalformedNestedArchive else MalformedArchive);
      } else {
        archiveCount := archiveCount + 1;
        if archive.NoDirectory? {
          Reject(rt, source, scope, CentralDirectoryError);
        } else {
          entryCount := entryCount + |archive.infos|;
          listing := Some(archive.infos);
          if |archive.infos| > limits.maxZipEntries {
            CausedByContainer(rt, limits, scope, source, offered, partialReasons, ZipEntryLimit);
            Resource(ZipEntryLimit);
          }
        }
      }
    }

    /** The container itself is malformed. */
    method Reject(ghost rt: Runtime, ghost source: Bytes, ghost scope: Scope, reason: Reason)
      requires BudgetsValid() && Accounted(rt, scope) && source in scope.region
      requires ContainerGives(rt, limits, source, reason) && IsMalformed(reason)
      modifies `partialReasons, `malformedReasons
      ensures BudgetsValid() && Accounted(rt, scope)
      ensures old(partialReasons) <= partialReasons && partialReasons != {}
    {
      CausedByContainer(rt, limits, scope, source, offered, partialReasons, reason);
      Malformed(reason);
    }

    /** The member loop of one archive. */
    method InspectEntries(
      rt: Runtime, ghost source: Bytes, all: seq<Entry>, depth: int,
      ghost scope: Scope, ghost active: set<Bytes>, ghost ev: Evidence)
      returns (ghost ev': Evidence)
      requires ScopeClosed(rt, limits, scope) && ScopeCovers(rt, scope, source) && rt.Open(source) == Listing(all)
      requires |all| > limits.maxZipEntries ==> partialReasons != {}
      requires 0 <= depth <= limits.maxNestingDepth && source in scope.levels[depth]
      requires Inspecting(rt, scope, active, ev)
      requires actualDecompressedBytes <= limits.maxTotalDecompressedBytes
      modifies this
      ensures Inspecting(rt, scope, active, ev')
      ensures Charged(old(offered), offered, ev.due, ev'.due, ListCost(rt, all))
      ensures partialReasons == {} ==> source in ev'.inspected
      ensures Grows(limits.maxNestingDepth - depth + 1)
      decreases limits.maxNestingDepth - depth, 5
    {
      ghost var start := Start(partialReasons, seenNestedDigests, counts, offered, ev.due);
      NoneCharged(rt, all, offered, ev.due);
      FirstTurn(rt, all, partialReasons, counts, seenNestedDigests);
      ghost var n, stopped, shownHere, wantedHere;
      ev', n, stopped, shownHere, wantedHere := TakeTurns(rt, source, all, depth, scope, active, ev, start);
      SomeCharged(rt, all, n, start.offered, offered, start.due, ev'.due);
      if partialReasons == {} {
        ArchiveFinished(rt, scope, source, counts, seenNestedDigests, ev', shownHere, wantedHere);
        ev' := ev'.Finish(source, shownHere, wantedHere);
      }
    }

    /** The turns of the loop, until it stops or there are no more members to look at. */
    method TakeTurns(
      rt: Runtime, ghost source: Bytes, all: seq<Entry>, depth: int,
      ghost scope: Scope, ghost active: set<Bytes>, ghost ev: Evidence, ghost start: Start)
      returns (ghost ev': Evidence, ghost n: nat, ghost ended: bool, ghost shown: set<Category>, ghost wanted: set<int>)
      requires ScopeClosed(rt, limits, scope) && ScopeCovers(rt, scope, source) && rt.Open(source) == Listing(all)
      requires 0 <= depth <= limits.maxNestingDepth && source in scope.levels[depth]
      requires Looping(rt, all, 0, false, map[], depth, scope, active, ev, start, {}, {})
      modifies this
      ensures n <= |all| && (ended || n == Min(limits.maxZipEntries, |all|))
      ensures exists names :: Looping(rt, all, n, ended, names, depth, scope, active, ev', start, shown, wanted)
      decreases limits.maxNestingDepth - depth, 4
    {
      var infos := all[..Min(limits.maxZipEntries, |all|)];
      var seenNames: map<string, string> := map[];
      var i, stopped := 0, false;
      ev', shown, wanted := ev, {}, {};
      while i < |infos| && !stopped
        invariant 0 <= i <= |infos|
        invariant Looping(rt, all, i, stopped, seenNames, depth, scope, active, ev', start, shown, wanted)
        decreases |infos| - i, !stopped
      {
        seenNames, stopped, ev', shown, wanted :=
          LoopOnce(rt, source, all, i, depth, seenNames, scope, active, ev', start, shown, wanted);
        i := i + 1;
      }
      n, ended := i, stopped;
    }

    /** Where the member loop stands before turn `i`, and what changed since its start. */
    ghost predicate Looping(
      rt: Runtime, all: seq<Entry>, i: nat, stopped: bool, seenNames: map<string, string>, depth: int, scope: Scope,
      active: set<Bytes>, ev: Evidence, start: Start, shown: set<Category>, wanted: set<int>)
      requires i <= |all|
      reads this
    {
      && Inspecting(rt, scope, active, ev) && ListCharged(rt, all, i, start.offered, offered, start.due, ev.due)
      && Grew(start.reasons, partialReasons, start.digests, seenNestedDigests, start.counts, counts)
      && actualDecompressedBytes
         <= limits.maxTotalDecompressedBytes + limits.maxNestingDepth - depth + (if stopped then 1 else 0)
      && TurnTaken(rt, all, i, stopped, seenNames, partialReasons, counts, seenNestedDigests, shown, wanted)
    }

    method LoopOnce(
      rt: Runtime, ghost source: Bytes, all: seq<Entry>, i: nat, depth: int, seenNames: map<string, string>,
      ghost scope: Scope, ghost active: set<Bytes>, ghost ev: Evidence, ghost start: Start, ghost shown: set<Category>,
      ghost wanted: set<int>)
      returns (seenNames': map<string, string>, stopped: bool, ghost ev': Evidence,
               ghost shown': set<Category>, ghost wanted': set<int>)
      requires ScopeClosed(rt, limits, scope) && ScopeCovers(rt, scope, source)
      requires rt.Open(source) == Listing(all) && i < |all|
      requires 0 <= depth <= limits.maxNestingDepth && source in scope.levels[depth]
      requires Looping(rt, all, i, false, seenNames, depth, scope, active, ev, start, shown, wanted)
      modifies this
      ensures Looping(rt, all, i + 1, stopped, seenNames', depth, scope, active, ev', start, shown', wanted')
      decreases limits.maxNestingDepth - depth, 3
    {
      ghost var between, reasons, digests, counted := offered, partialReasons, seenNestedDigests, counts;
      seenNames', stopped, ev', shown', wanted' :=
        TakeTurn(rt, source, all, i, depth, seenNames, scope, active, ev, shown, wanted);
      GrewTwice(start.reasons, reasons, partialReasons, start.digests, digests, seenNestedDigests,
                start.counts, counted, counts);
      EntryCharged(rt, all, i, start.offered, between, offered, start.due, ev.due, ev'.due);
    }

    /** One turn of the member loop, with what it adds to the observations of this archive. */
    method TakeTurn(
      rt: Runtime, ghost source: Bytes, all: seq<Entry>, i: nat, depth: int, seenNames: map<string, string>,
      ghost scope: Scope, ghost active: set<Bytes>, ghost ev: Evidence, ghost shown: set<Category>, ghost wanted: set<int>)
      returns (seenNames': map<string, string>, stopped: bool, ghost ev': Evidence,
               ghost shown': set<Category>, ghost wanted': set<int>)
      requires ScopeClosed(rt, limits, scope) && ScopeCovers(rt, scope, source)
      requires rt.Open(source) == Listing(all) && i < |all|
      requires 0 <= depth <= limits.maxNestingDepth && source in scope.levels[depth]
      requires Inspecting(rt, scope, active, ev)
      requires actualDecompressedBytes <= limits.maxTotalDecompressedBytes + limits.maxNestingDepth - depth
      requires TurnTaken(rt, all, i, false, seenNames, partialReasons, counts, seenNestedDigests, shown, wanted)
      modifies this
      ensures Inspecting(rt, scope, active, ev')
      ensures Charged(old(offered), offered, ev.due, ev'.due, EntryCost(rt, all[i]))
      ensures Grows(limits.maxNestingDepth - depth + if stopped then 1 else 0)
      ensures TurnTaken(rt, all, i + 1, stopped, seenNames', partialReasons, counts, seenNestedDigests, shown', wanted')
      decreases limits.maxNestingDepth - depth, 2
    {
      seenNames', stopped, ev', shown', wanted' := seenNames, true, ev, shown, wanted;
      Offer(rt, scope, offered.Plus(ReadCost(rt, all[i])).OneMember());
      if membersInspected >= limits.maxMembersInspected {
        CausedByContainer(rt, limits, scope, source, offered, partialReasons, MemberInspectionLimit);
        Resource(MemberInspectionLimit);
        return;
      }
      seenNames', stopped, ev' := VisitEntry(rt, source, all, i, depth, seenNames, scope, active, ev);
      shown', wanted' := shown + EntryCategories(rt, all, i), wanted + EntryDigests(rt, all[i]);
      if partialReasons == {} {
        NextTurn(rt, all, i, old(counts), counts, old(seenNestedDigests), seenNestedDigests, shown, wanted);
      }
    }

    /** A member is observed and, when it is a nested archive, entered. */
    method VisitEntry(
      rt: Runtime, ghost source: Bytes, all: seq<Entry>, i: nat, depth: int, seenNames: map<string, string>,
      ghost scope: Scope, ghost active: set<Bytes>, ghost ev: Evidence)
      returns (seenNames': map<string, string>, stopped: bool, ghost ev': Evidence)
      requires ScopeClosed(rt, limits, scope) && ScopeCovers(rt, scope, source)
      requires rt.Open(source) == Listing(all) && i < |all|
      requires 0 <= depth <= limits.maxNestingDepth && membersInspected < limits.maxMembersInspected
      requires source in scope.levels[depth]
      requires Inspecting(rt, scope, active, ev)
      requires Spent().Plus(ReadCost(rt, all[i])).OneMember().AtMost(offered)
      requires actualDecompressedBytes <= limits.maxTotalDecompressedBytes + limits.maxNestingDepth - depth
      requires SeenNames(FactsOf(rt, all)[..i], seenNames)
      modifies this
      ensures Inspecting(rt, scope, active, ev')
      ensures Carried(old(offered), offered, ev.due, ev'.due)
      ensures Grows(limits.maxNestingDepth - depth + if stopped then 1 else 0)
      ensures SeenNames(FactsOf(rt, all)[..i + 1], seenNames')
      ensures stopped ==> partialReasons != {}
      ensures forall c :: c in EntryCategories(rt, all, i) ==> counts[c] > 0
      ensures partialReasons == {} ==> EntryDigests(rt, all[i]) <= seenNestedDigests
      ensures partialReasons == {} ==> !IsOpaqueMember(rt, all[i])
      decreases limits.maxNestingDepth - depth, 1
    {
      var outcome;
      ghost var before := partialReasons;
      seenNames', outcome := InspectEntry(rt, all, i, depth, seenNames);
      CausedByMember(rt, limits, scope, source, all[i], offered, before, partialReasons);
      ev' := ev;
      stopped := outcome.Stopped?;
      if outcome.Nested? {
        assert LevelCovers(rt, scope, depth);
        ev' := EnterNested(rt, all[i], outcome.data, depth, scope, active, ev);
      }
    }

    /** One member: its name, then its kind and bytes. */
    method InspectEntry(rt: Runtime, all: seq<Entry>, i: nat, depth: int, seenNames: map<string, string>)
      returns (seenNames': map<string, string>, outcome: ReadOutcome)
      requires Valid() && i < |all| && membersInspected < limits.maxMembersInspected
      requires Spent().Plus(ReadCost(rt, all[i])).OneMember().AtMost(offered)
      requires SeenNames(FactsOf(rt, all)[..i], seenNames)
      modifies `membersInspected, `directoriesSeen, `counts, `records, `retainedNameCount
      modifies `memberNamesTruncated, `partialReasons, `resourceReasons, `malformedReasons
      modifies `unsupportedMethodCount, `unsupportedMethods
      modifies `actualDecompressedBytes, `nestedArchiveBytesMaterialized
      ensures Valid() && Spent().AtMost(offered)
      ensures MemberCaused(rt, limits, all[i], offered, old(partialReasons), partialReasons)
      ensures forall c: Category :: counts[c] == old(counts)[c] +
                if c in EntryCategories(rt, all, i) then 1 else 0
      ensures SeenNames(FactsOf(rt, all)[..i + 1], seenNames')
      ensures MemberFits(rt, all[i], outcome, partialReasons)
      ensures ReadBytes(old(actualDecompressedBytes), actualDecompressedBytes, outcome)
    {
      membersInspected := membersInspected + 1;
      ghost var counts0 := counts;
      seenNames' := InspectName(rt, FactsOf(rt, all), i, all[i].filename, depth, seenNames);
      ghost var counts1 := counts;
      outcome := InspectMember(rt, all[i], depth);
      forall c: Category
        ensures counts[c] == counts0[c] + if c in EntryCategories(rt, all, i) then 1 else 0
      {
        EntryCount(rt, all, i, counts0, counts1, counts, c);
      }
    }

    /** Enter a nested archive unless it lies too deep or its digest was already seen. */
    method EnterNested(
      rt: Runtime, info: Entry, nested: Bytes, depth: int,
      ghost scope: Scope, ghost active: set<Bytes>, ghost ev: Evidence)
      returns (ghost ev': Evidence)
      requires ScopeClosed(rt, limits, scope) && nested in scope.region
      requires 0 <= depth <= limits.maxNestingDepth && nested in scope.levels[depth + 1]
      requires Inspecting(rt, scope, active, ev)
      requires actualDecompressedBytes <= limits.maxTotalDecompressedBytes
      modifies this
      ensures Inspecting(rt, scope, active, ev')
      ensures Carried(old(offered), offered, ev.due, ev'.due)
      ensures Grows(limits.maxNestingDepth - depth)
      ensures partialReasons == {} ==> rt.Sha256(nested) in seenNestedDigests
      decreases limits.maxNestingDepth - depth, 0
    {
      ev' := ev;
      ghost var digests := seenNestedDigests;
      var admitted := AdmitNested(rt, info, nested, depth + 1, scope);
      if admitted {
        ArchiveEntered(rt, scope, nested, counts, digests, ev);
        ev' := ev.Enter(rt, nested);
        ev' := InspectArchive(rt, nested, |nested|, depth + 1, scope, active + {nested}, ev');
      }
    }

    /** A nested archive lies too deep. */
    method RefuseNested(rt: Runtime, info: Entry, ghost nested: Bytes, nextDepth: int, ghost scope: Scope)
      requires Valid() && Accounted(rt, scope)
      requires nextDepth == limits.maxNestingDepth + 1 < |scope.levels| && nested in scope.levels[nextDepth]
      modifies `records, `retainedNameCount, `memberNamesTruncated, `partialReasons
      ensures Valid() && Accounted(rt, scope) && partialReasons == old(partialReasons) + {NestingDepthLimit}
    {
      CausedByDepth(rt, limits, scope, nested, offered, partialReasons, nextDepth);
      Partial(NestingDepthLimit);
      RetainRecord(rt, Nesting, info.filename, nextDepth, [], limits.maxSuspiciousMemberNames);
    }

    /** Record a nested archive; it is admitted if not too deep and its digest is new. */
    method AdmitNested(rt: Runtime, info: Entry, nested: Bytes, nextDepth: int, ghost scope: Scope) returns (admitted: bool)
      requires Valid() && Accounted(rt, scope)
      requires 0 <= nextDepth <= limits.maxNestingDepth + 1 < |scope.levels| && nested in scope.levels[nextDepth]
      modifies `nestedArchivesDetected, `repeatedNestedArchives, `seenNestedDigests
      modifies `records, `retainedNameCount, `memberNamesTruncated, `partialReasons
      ensures Valid() && Accounted(rt, scope) && old(partialReasons) <= partialReasons
      ensures if admitted then
                nextDepth <= limits.maxNestingDepth && rt.Sha256(nested) !in old(seenNestedDigests)
                && seenNestedDigests == old(seenNestedDigests) + {rt.Sha256(nested)}
              else
                seenNestedDigests == old(seenNestedDigests)
                && (partialReasons != {} || rt.Sha256(nested) in seenNestedDigests)
    {
      admitted := false;
      nestedArchivesDetected := nestedArchivesDetected + 1;
      var digest := rt.Sha256(nested);
      if nextDepth > limits.maxNestingDepth {
        RefuseNested(rt, info, nested, nextDepth, scope);
      } else if digest in seenNestedDigests {
        repeatedNestedArchives := repeatedNestedArchives + 1;
      } else {
        seenNestedDigests := seenNestedDigests + {digest};
        admitted := true;
      }
    }

    /** How the byte counter moves: past the limit, each stopped read adds at most one byte. */
    ghost predicate ReadBytes(before: int, after: int, outcome: ReadOutcome)
    {
      && before <= after <= Max(before, limits.maxTotalDecompressedBytes) + 1
      && (!outcome.Stopped? ==> after == before || after <= limits.maxTotalDecompressedBytes)
      && (outcome.Nested? ==> after <= limits.maxTotalDecompressedBytes)
    }
  }

  /** The first four bytes tell a ZIP. */
  lemma SignatureFirst(content: Bytes, first: Bytes)
    requires first <= content && |first| >= Min(4, |content|)
    ensures StartsWithZipSignature(first) <==> StartsWithZipSignature(content)
  {
  }

  /** The counters after a member that is a symlink or encrypted was classified. */
  function BumpKind(counts: map<Category, int>, info: Entry): (r: map<Category, int>)
    requires forall k: Category :: k in counts
    ensures forall k: Category :: k in r
  {
    if info.isDir then counts
    else if IsSymlink(info) then Bump(counts, Symlink, true)
    else if IsEncrypted(info) then Bump(counts, Encrypted, true)
    else counts
  }

  /** If nothing was recorded as partial, the member was read in full and classified correctly. */
  ghost predicate MemberFits(rt: Runtime, info: Entry, outcome: ReadOutcome, partialReasons: set<Reason>) {
    match outcome
    case Stopped => partialReasons != {}
    case Faulted(_) => partialReasons != {}
    case Plain => partialReasons == {} ==> !IsOpaqueMember(rt, info) && !IsNestedArchive(rt, info)
    case Nested(data) => IsNestedArchive(rt, info) && data == info.content
  }

  // ---------------------------------------------------------------- coverage

  /**
   What a run establishes: the archives whose listing was processed to its end, the nested
   archives entered, the categories and nested digests that the finished ones show, and what
   the entered ones cost.
   */
  datatype Evidence = Evidence(
    inspected: set<Bytes>, entered: set<Bytes>, shown: set<Category>, wanted: set<int>, due: Cost)
  {
    /** One more archive is finished. */
    ghost function Finish(a: Bytes, shownHere: set<Category>, wantedHere: set<int>): Evidence {
      Evidence(inspected + {a}, entered, shown + shownHere, wanted + wantedHere, due)
    }

    /** One more nested archive is entered. */
    ghost function Enter(rt: Runtime, a: Bytes): Evidence {
      Evidence(inspected, entered + {a}, shown, wanted, due.Plus(ArchiveCost(rt, a)))
    }
  }

  /** The counters count only what lies in scope, and at least what the evidence shows. */
  ghost predicate Links(rt: Runtime, scope: Scope, counts: map<Category, int>, digests: set<int>, ev: Evidence) {
    && (forall c: Category :: c in counts && counts[c] > 0 ==> c in scope.observable)
    && (forall c :: c in ev.shown ==> c in counts && counts[c] > 0)
    && ev.wanted <= digests && digests == Digests(rt, ev.entered) && ev.entered <= scope.below
  }

  ghost predicate Supports(rt: Runtime, scope: Scope, ev: Evidence) {
    && (forall a :: a in ev.inspected ==> a in scope.region)
    && Covers(rt, ev.inspected, ev.shown, ev.wanted) && Priced(rt, ev.entered, ev.due)
  }

  ghost function Digests(rt: Runtime, archives: set<Bytes>): set<int> {
    set b | b in archives :: rt.Sha256(b)
  }

  /** The digest a member adds if it is a nested archive. */
  ghost function EntryDigests(rt: Runtime, e: Entry): set<int> {
    if IsNestedArchive(rt, e) then {rt.Sha256(e.content)} else {}
  }

  /** Entry `j` was read in full; its categories and nested digest are in the given sets. */
  ghost predicate EntryDone(rt: Runtime, infos: seq<Entry>, j: nat, shown: set<Category>, wanted: set<int>)
    requires j < |infos|
  {
    && !IsOpaqueMember(rt, infos[j])
    && EntryCategories(rt, infos, j) <= shown
    && EntryDigests(rt, infos[j]) <= wanted
  }

  ghost predicate PrefixDone(rt: Runtime, infos: seq<Entry>, n: nat, shown: set<Category>, wanted: set<int>)
    requires n <= |infos|
  {
    forall j :: 0 <= j < n ==> EntryDone(rt, infos, j, shown, wanted)
  }

  /** Every archive of the set lists only readable members, all within the given sets. */
  ghost predicate Covers(rt: Runtime, archives: set<Bytes>, shown: set<Category>, wanted: set<int>) {
    forall a :: a in archives ==>
      rt.Open(a).Listing? && PrefixDone(rt, rt.Open(a).infos, |rt.Open(a).infos|, shown, wanted)
  }

  lemma PrefixDoneNext(
    rt: Runtime, infos: seq<Entry>, n: nat, shown: set<Category>, wanted: set<int>,
    shownHere: set<Category>, wantedHere: set<int>)
    requires n < |infos| && PrefixDone(rt, infos, n, shown, wanted)
    requires EntryDone(rt, infos, n, shownHere, wantedHere)
    ensures PrefixDone(rt, infos, n + 1, shown + shownHere, wanted + wantedHere)
  {
    forall j | 0 <= j < n + 1
      ensures EntryDone(rt, infos, j, shown + shownHere, wanted + wantedHere)
    {
      assert j < n ==> EntryDone(rt, infos, j, shown, wanted);
    }
  }

  /** What the loop has established about the entries before `n`, while nothing is partial. */
  ghost predicate TurnsDone(
    rt: Runtime, infos: seq<Entry>, n: nat, counts: map<Category, int>, digests: set<int>,
    shown: set<Category>, wanted: set<int>)
    requires n <= |infos|
  {
    (forall c :: c in shown ==> c in counts && counts[c] > 0) && wanted <= digests && PrefixDone(rt, infos, n, shown, wanted)
  }

  /** Before turn `n`: the names seen are those of the entries before it, unless the loop stopped. */
  ghost predicate TurnTaken(
    rt: Runtime, infos: seq<Entry>, n: nat, stopped: bool, seenNames: map<string, string>, reasons: set<Reason>,
    counts: map<Category, int>, digests: set<int>, shown: set<Category>, wanted: set<int>)
    requires n <= |infos|
  {
    && (if stopped then reasons != {} else SeenNames(FactsOf(rt, infos)[..n], seenNames))
    && (reasons == {} ==> TurnsDone(rt, infos, n, counts, digests, shown, wanted))
  }

  lemma FirstTurn(
    rt: Runtime, infos: seq<Entry>, reasons: set<Reason>, counts: map<Category, int>, digests: set<int>)
    ensures TurnTaken(rt, infos, 0, false, map[], reasons, counts, digests, {}, {})
  {
  }

  lemma NextTurn(
    rt: Runtime, infos: seq<Entry>, n: nat, counts: map<Category, int>, counts': map<Category, int>,
    digests: set<int>, digests': set<int>, shown: set<Category>, wanted: set<int>)
    requires n < |infos| && TurnsDone(rt, infos, n, counts, digests, shown, wanted) && digests <= digests'
    requires forall c: Category :: c in counts && c in counts' ==> counts[c] <= counts'[c]
    requires forall c: Category :: c in counts'
    requires forall c :: c in EntryCategories(rt, infos, n) ==> counts'[c] > 0
    requires EntryDigests(rt, infos[n]) <= digests' && !IsOpaqueMember(rt, infos[n])
    ensures TurnsDone(rt, infos, n + 1, counts', digests',
                      shown + EntryCategories(rt, infos, n), wanted + EntryDigests(rt, infos[n]))
  {
    PrefixDoneNext(rt, infos, n, shown, wanted, EntryCategories(rt, infos, n), EntryDigests(rt, infos[n]));
  }

  lemma ArchiveFinished(
    rt: Runtime, scope: Scope, a: Bytes, counts: map<Category, int>, digests: set<int>, ev: Evidence,
    shownHere: set<Category>, wantedHere: set<int>)
    requires Supports(rt, scope, ev) && Links(rt, scope, counts, digests, ev) && a in scope.region && rt.Open(a).Listing?
    requires TurnsDone(rt, rt.Open(a).infos, |rt.Open(a).infos|, counts, digests, shownHere, wantedHere)
    ensures Supports(rt, scope, ev.Finish(a, shownHere, wantedHere))
    ensures Links(rt, scope, counts, digests, ev.Finish(a, shownHere, wantedHere))
    ensures a in ev.Finish(a, shownHere, wantedHere).inspected
    ensures ev.Finish(a, shownHere, wantedHere).entered == ev.entered
    ensures ev.inspected <= ev.Finish(a, shownHere, wantedHere).inspected
    ensures ev.Finish(a, shownHere, wantedHere).due == ev.due
  {
    forall b, j | b in ev.inspected + {a} && rt.Open(b).Listing? && 0 <= j < |rt.Open(b).infos|
      ensures EntryDone(rt, rt.Open(b).infos, j, ev.shown + shownHere, ev.wanted + wantedHere)
    {
      assert b in ev.inspected ==> EntryDone(rt, rt.Open(b).infos, j, ev.shown, ev.wanted);
      assert b == a ==> EntryDone(rt, rt.Open(b).infos, j, shownHere, wantedHere);
    }
  }

  /** A nested archive with a new digest is entered. */
  lemma ArchiveEntered(
    rt: Runtime, scope: Scope, a: Bytes, counts: map<Category, int>, digests: set<int>, ev: Evidence)
    requires Supports(rt, scope, ev) && Links(rt, scope, counts, digests, ev)
    requires a in scope.below && rt.Sha256(a) !in digests
    ensures Supports(rt, scope, ev.Enter(rt, a))
    ensures Links(rt, scope, counts, digests + {rt.Sha256(a)}, ev.Enter(rt, a))
  {
    OneMorePriced(rt, ev.entered, ev.due, a);
  }

  /** Observing a name and then a kind counts exactly the observations the entry shows. */
  lemma EntryCount(
    rt: Runtime, infos: seq<Entry>, i: nat, counts0: map<Category, int>, counts1: map<Category, int>,
    counts2: map<Category, int>, c: Category)
    requires i < |infos|
    requires forall k: Category :: k in counts0 && k in counts1
    requires counts1[c] == counts0[c] + if NameHas(FactsOf(rt, infos), i, c) then 1 else 0
    requires counts2 == BumpKind(counts1, infos[i])
    ensures counts2[c] == counts0[c] + if c in EntryCategories(rt, infos, i) then 1 else 0
  {
    AllCategories();
    match c {
      case Traversal => case AbsolutePath => case Symlink => case Duplicate => case Dangerous =>
      case DoubleExtension => case Bidi => case Encrypted => case Nesting =>
    }
  }

  /** Members are read in full or reported; a nested archive is recognised by its first bytes. */
  ghost predicate OutcomeFits(e: Entry, outcome: ReadOutcome) {
    match outcome
    case Stopped => true
    case Faulted(fault) => e.fault == Some(fault)
    case Plain => e.fault == None && !StartsWithZipSignature(e.content)
    case Nested(data) => e.fault == None && data == e.content && StartsWithZipSignature(e.content)
  }

  // ---------------------------------------------------------------- collision keys seen so far

  ghost predicate SeenNames(facts: seq<NameFacts>, seen: map<string, string>) {
    forall key :: key in seen <==> exists j :: 0 <= j < |facts| && facts[j].collisionKey == key
  }

  lemma CollidesSeen(facts: seq<NameFacts>, i: nat, seen: map<string, string>)
    requires i < |facts| && SeenNames(facts[..i], seen)
    ensures Collides(facts, i) <==> facts[i].collisionKey in seen
  {
    var before := facts[..i];
    if j :| 0 <= j < i && facts[j].collisionKey == facts[i].collisionKey {
      assert before[j].collisionKey == facts[i].collisionKey;
    }
  }

  lemma SeenExtends(facts: seq<NameFacts>, i: nat, seen: map<string, string>, seen': map<string, string>)
    requires i < |facts| && SeenNames(facts[..i], seen)
    requires seen'.Keys == seen.Keys + {facts[i].collisionKey}
    ensures SeenNames(facts[..i + 1], seen')
  {
    var before, after := facts[..i], facts[..i + 1];
    forall key
      ensures key in seen' <==> exists j :: 0 <= j < |after| && after[j].collisionKey == key
    {
      if key in seen {
        var j :| 0 <= j < |before| && before[j].collisionKey == key;
        assert after[j] == before[j];
      } else if key in seen' {
        assert after[i].collisionKey == key;
      }
      if j :| 0 <= j < |after| && after[j].collisionKey == key {
        assert j < i ==> before[j] == after[j];
      }
    }
  }
}
