/**
 ZIP containers as the archive analyzer sees them (worker/analyzers/archive.py and
 archive_types.py), and what a complete inspection must have observed.
 */
module ArchiveModel {
  import opened Wrappers
  import opened Reachability

  /** What goes wrong while a faulty member is opened or read to its end. */
  datatype Fault = NotImplementedFault | ReadFault

  datatype Entry = Entry(
    filename: string,
    isDir: bool,
    createSystem: int,
    externalAttr: nat,
    flagBits: nat,
    compressType: int,
    content: Bytes,
    fault: Option<Fault>)

  /** `zipfile.ZipFile` fails, its directory cannot be listed, or it lists its entries. */
  datatype Container = Unopenable | NoDirectory | Listing(infos: seq<Entry>)

  /** All the analyzer computes from a member's name. */
  datatype NameFacts = NameFacts(
    traversal: bool, rooted: bool, dangerous: bool, doubleExtension: bool, bidi: bool,
    collisionKey: string, extension: Option<string>)

  /**
   What the traversal calls: ZIP parsing, SHA-256, the name predicates, the safe display
   form of a name, and the supported compression methods.
   */
  datatype Runtime = Runtime(
    open: Bytes -> Container,
    sha256: Bytes -> int,
    facts: string -> NameFacts,
    represent: string -> string,
    methods: set<int>)
  {
    function Open(a: Bytes): Container { open(a) }
    function Sha256(a: Bytes): int { sha256(a) }
    function Facts(name: string): NameFacts { facts(name) }
    function Represent(name: string): string { represent(name) }
  }

  ghost predicate CollisionFree(rt: Runtime) {
    forall a, b :: rt.Sha256(a) == rt.Sha256(b) ==> a == b
  }

  datatype LimitSettings = LimitSettings(
    maxZipEntries: int,
    maxNestingDepth: int,
    maxMembersInspected: int,
    maxCompressedBytesConsidered: int,
    maxMemberBytes: int,
    maxTotalDecompressedBytes: int,
    maxNestedArchiveBytes: int,
    maxMemberNameLength: int,
    maxFindings: int,
    maxSuspiciousMemberNames: int,
    maxDuplicateRecords: int,
    maxTraversalRecords: int,
    maxMetadataStringLength: int)

  predicate ValidLimits(l: LimitSettings) {
    && l.maxZipEntries > 0 && l.maxNestingDepth >= 0 && l.maxMembersInspected > 0
    && l.maxCompressedBytesConsidered > 0 && l.maxMemberBytes > 0
    && l.maxTotalDecompressedBytes > 0 && l.maxNestedArchiveBytes > 0
    && l.maxMemberNameLength > 0 && l.maxFindings >= 4 && l.maxSuspiciousMemberNames > 0
    && l.maxDuplicateRecords > 0 && l.maxTraversalRecords > 0 && l.maxMetadataStringLength > 0
  }

  const DEFAULT_LIMITS := LimitSettings(
    4_096, 3, 8_192, 128 * 1024 * 1024, 32 * 1024 * 1024, 128 * 1024 * 1024, 32 * 1024 * 1024,
    512, 64, 32, 16, 16, 256)

  type Limits = l: LimitSettings | ValidLimits(l) witness DEFAULT_LIMITS

  const READ_CHUNK_BYTES := 64 * 1024

  /** The categories of name records; all but `Nesting` are also counted and reported. */
  datatype Category =
    | Traversal | AbsolutePath | Symlink | Duplicate | Dangerous | DoubleExtension | Bidi
    | Encrypted | Nesting

  const CATEGORIES: set<Category> := {
    Traversal, AbsolutePath, Symlink, Duplicate, Dangerous, DoubleExtension, Bidi, Encrypted, Nesting}

  lemma AllCategories()
    ensures forall c: Category :: c in CATEGORIES
  {
    forall c: Category ensures c in CATEGORIES {
      match c
      case Traversal => case AbsolutePath => case Symlink => case Duplicate => case Dangerous =>
      case DoubleExtension => case Bidi => case Encrypted => case Nesting =>
    }
  }

  datatype Record = Record(memberName: string, archiveDepth: int, detail: seq<string>)

  datatype Reason =
    | CompressedInputLimit | ZipEntryLimit | MemberInspectionLimit | MemberActualByteLimit
    | TotalActualByteLimit | NestedMaterializationLimit | FindingLimit | EncryptedMember
    | UnsupportedCompressionMethod | NestingDepthLimit | MalformedArchive
    | MalformedNestedArchive | CentralDirectoryError | MemberDecompressionError
    | ArchiveInputUnavailable

  // ---------------------------------------------------------------- entries

  predicate IsSymlink(e: Entry) {
    var unixMode := e.externalAttr / 65536 % 65536;
    e.createSystem == 3 && unixMode / 4096 == 10
  }

  /**
   An external attribute holds a file mode above its low sixteen bits: a kind of file above
   twelve permission bits. A symlink is kind 10 (`S_IFLNK` is octal 120000) made on Unix.
   */
  lemma SymlinkMode(e: Entry, kind: nat, permissions: nat, low: nat)
    requires kind < 16 && permissions < 4096 && low < 65536
    requires e.externalAttr == (kind * 4096 + permissions) * 65536 + low
    ensures IsSymlink(e) <==> e.createSystem == 3 && kind == 10
  {
    var mode := kind * 4096 + permissions;
    assert mode < 65536 && e.externalAttr / 65536 == mode;
    assert mode % 65536 == mode && mode / 4096 == kind;
  }

  predicate IsEncrypted(e: Entry) { e.flagBits % 2 == 1 }

  /** Neither a directory nor a symlink: the loop looks further. */
  predicate IsRegular(e: Entry) { !e.isDir && !IsSymlink(e) }

  predicate StartsWithZipSignature(data: Bytes) {
    && |data| >= 4 && data[0] == 0x50 && data[1] == 0x4B
    && ((data[2] == 3 && data[3] == 4) || (data[2] == 5 && data[3] == 6) || (data[2] == 7 && data[3] == 8))
  }

  /** A regular member whose bytes the analyzer cannot read in full. */
  predicate IsOpaqueMember(rt: Runtime, e: Entry) {
    IsRegular(e) && (IsEncrypted(e) || e.compressType !in rt.methods || e.fault.Some?)
  }

  predicate IsNestedArchive(rt: Runtime, e: Entry) {
    IsRegular(e) && !IsOpaqueMember(rt, e) && StartsWithZipSignature(e.content)
  }

  /** The facts of each entry of a listing. */
  function FactsOf(rt: Runtime, infos: seq<Entry>): (facts: seq<NameFacts>)
    ensures |facts| == |infos|
    ensures forall i :: 0 <= i < |infos| ==> facts[i] == rt.Facts(infos[i].filename)
  {
    seq(|infos|, i requires 0 <= i < |infos| => rt.Facts(infos[i].filename))
  }

  predicate Collides(facts: seq<NameFacts>, i: nat)
    requires i < |facts|
  {
    exists j | 0 <= j < i :: facts[j].collisionKey == facts[i].collisionKey
  }

  /** The observations that depend on member names alone. */
  predicate NameHas(facts: seq<NameFacts>, i: nat, c: Category)
    requires i < |facts|
  {
    match c
    case Traversal => facts[i].traversal
    case AbsolutePath => facts[i].rooted
    case Duplicate => Collides(facts, i)
    case Dangerous => facts[i].dangerous
    case DoubleExtension => facts[i].doubleExtension
    case Bidi => facts[i].bidi
    case _ => false
  }

  /** Entry `i` of a listing shows observation `c`; symlink and encrypted in the loop's order. */
  predicate EntryHas(rt: Runtime, infos: seq<Entry>, i: nat, c: Category)
    requires i < |infos|
  {
    match c
    case Symlink => !infos[i].isDir && IsSymlink(infos[i])
    case Encrypted => IsRegular(infos[i]) && IsEncrypted(infos[i])
    case _ => NameHas(FactsOf(rt, infos), i, c)
  }

  ghost predicate ArchiveHas(rt: Runtime, a: Bytes, c: Category) {
    rt.Open(a).Listing? && exists i: nat :: i < |rt.Open(a).infos| && EntryHas(rt, rt.Open(a).infos, i, c)
  }

  // ---------------------------------------------------------------- containment

  ghost function Children(rt: Runtime, a: Bytes): set<Bytes> {
    if !rt.Open(a).Listing? then {}
    else set e | e in rt.Open(a).infos && IsNestedArchive(rt, e) :: e.content
  }

  /** The containment graph; a ZIP may contain itself. */
  ghost function Contains(rt: Runtime): Bytes -> set<Bytes> {
    a => Children(rt, a)
  }

  /** Some archive reachable from the root shows `c`. */
  ghost predicate Observable(rt: Runtime, root: Bytes, c: Category) {
    exists a :: Reachable(Contains(rt), {root}, a) && ArchiveHas(rt, a, c)
  }

  /** The archive lists its entries and every regular member can be read in full. */
  ghost predicate FullyReadable(rt: Runtime, a: Bytes) {
    rt.Open(a).Listing? && forall e :: e in rt.Open(a).infos ==> !IsOpaqueMember(rt, e)
  }

  /** Every archive reachable from the root is fully readable. */
  ghost predicate AllReadable(rt: Runtime, root: Bytes) {
    forall a :: Reachable(Contains(rt), {root}, a) ==> FullyReadable(rt, a)
  }

  function EntryCategories(rt: Runtime, infos: seq<Entry>, i: nat): set<Category>
    requires i < |infos|
  {
    set c | c in CATEGORIES && EntryHas(rt, infos, i, c)
  }

  /** The archives that lie exactly `depth` levels below the root. */
  ghost function Level(rt: Runtime, root: Bytes, depth: nat): set<Bytes> {
    if depth == 0 then {root}
    else set a, b | a in Level(rt, root, depth - 1) && b in Children(rt, a) :: b
  }

  /** The archives that lie at least one level below the root and at most `depth`. */
  ghost function Below(rt: Runtime, root: Bytes, depth: nat): set<Bytes> {
    if depth == 0 then {} else Below(rt, root, depth - 1) + Level(rt, root, depth)
  }

  lemma {:induction false} LevelBelow(rt: Runtime, root: Bytes, depth: nat, most: nat)
    requires 0 < depth <= most
    ensures Level(rt, root, depth) <= Below(rt, root, most)
    decreases most
  {
    assert Below(rt, root, most) == Below(rt, root, most - 1) + Level(rt, root, most);
    if depth < most {
      LevelBelow(rt, root, depth, most - 1);
    }
  }

  /**
   A set of archives closed under containment, the categories its members show, the archives
   of each level of nesting to one beyond the deepest allowed, and those of the levels between.
   */
  datatype Scope = Scope(
    region: iset<Bytes>, observable: set<Category>, levels: seq<set<Bytes>>, below: set<Bytes>)

  ghost predicate ScopeCovers(rt: Runtime, scope: Scope, a: Bytes) {
    && a in scope.region
    && (rt.Open(a).Listing? ==>
        var infos := rt.Open(a).infos;
        && (forall i :: 0 <= i < |infos| ==> EntryCategories(rt, infos, i) <= scope.observable)
        && (forall e :: e in infos && IsNestedArchive(rt, e) ==> e.content in scope.region))
  }

  /** What an archive of one level holds lies in the next. */
  ghost predicate LevelCovers(rt: Runtime, scope: Scope, depth: nat) {
    depth + 1 < |scope.levels| ==> forall a, e ::
      a in scope.levels[depth] && rt.Open(a).Listing? && e in rt.Open(a).infos && IsNestedArchive(rt, e) ==>
        e.content in scope.levels[depth + 1]
  }

  ghost predicate ScopeClosed(rt: Runtime, limits: Limits, scope: Scope) {
    && (forall a :: a in scope.region ==> ScopeCovers(rt, scope, a))
    && |scope.levels| == limits.maxNestingDepth + 2
    && (forall d: nat :: LevelCovers(rt, scope, d))
    && (forall d :: 0 < d <= limits.maxNestingDepth ==> scope.levels[d] <= scope.below)
  }

  /** The scope of an analysis: what can be reached from its root. */
  ghost function ReachableScope(rt: Runtime, limits: Limits, root: Bytes): Scope {
    Scope(iset a | Reachable(Contains(rt), {root}, a),
          set c | c in CATEGORIES && Observable(rt, root, c),
          seq(limits.maxNestingDepth + 2, d requires 0 <= d => Level(rt, root, d)),
          Below(rt, root, limits.maxNestingDepth))
  }

  lemma ReachableScopeClosed(rt: Runtime, limits: Limits, root: Bytes)
    ensures ScopeClosed(rt, limits, ReachableScope(rt, limits, root)) && root in ReachableScope(rt, limits, root).region
    ensures root in ReachableScope(rt, limits, root).levels[0]
  {
    var scope := ReachableScope(rt, limits, root);
    RootReachable(Contains(rt), {root}, root);
    forall a | a in scope.region ensures ScopeCovers(rt, scope, a) {
      RegionCovers(rt, limits, root, a);
    }
    forall d: nat ensures LevelCovers(rt, scope, d) {
      LevelsCover(rt, limits, root, d);
    }
    forall d | 0 < d <= limits.maxNestingDepth ensures scope.levels[d] <= scope.below {
      LevelBelow(rt, root, d, limits.maxNestingDepth);
    }
  }

  lemma RegionCovers(rt: Runtime, limits: Limits, root: Bytes, a: Bytes)
    requires a in ReachableScope(rt, limits, root).region
    ensures ScopeCovers(rt, ReachableScope(rt, limits, root), a)
  {
    var scope := ReachableScope(rt, limits, root);
    if rt.Open(a).Listing? {
      var infos := rt.Open(a).infos;
      forall i, c | 0 <= i < |infos| && c in EntryCategories(rt, infos, i) ensures c in scope.observable {
        assert ArchiveHas(rt, a, c);
      }
      forall e | e in infos && IsNestedArchive(rt, e) ensures e.content in scope.region {
        assert e.content in Children(rt, a);
        StepReachable(Contains(rt), {root}, a, e.content);
      }
    }
  }

  lemma LevelsCover(rt: Runtime, limits: Limits, root: Bytes, depth: nat)
    ensures LevelCovers(rt, ReachableScope(rt, limits, root), depth)
  {
    var levels := ReachableScope(rt, limits, root).levels;
    if depth + 1 < |levels| {
      assert levels[depth] == Level(rt, root, depth) && levels[depth + 1] == Level(rt, root, depth + 1);
      forall a, e | a in levels[depth] && rt.Open(a).Listing? && e in rt.Open(a).infos && IsNestedArchive(rt, e)
        ensures e.content in levels[depth + 1]
      {
        LevelNext(rt, root, depth, a, e);
      }
    }
  }

  lemma LevelNext(rt: Runtime, root: Bytes, depth: nat, a: Bytes, e: Entry)
    requires a in Level(rt, root, depth) && rt.Open(a).Listing? && e in rt.Open(a).infos && IsNestedArchive(rt, e)
    ensures e.content in Level(rt, root, depth + 1)
  {
    assert e.content in Children(rt, a);
  }
}
