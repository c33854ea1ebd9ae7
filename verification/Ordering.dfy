/** `sorted(set(...))`: ascending, duplicate-free sequences under a strict total order. */
module Ordering {

  ghost predicate StrictOrder<T(!new)>(lt: (T, T) -> bool) {
    && (forall a :: !lt(a, a))
    && (forall a, b :: a == b || lt(a, b) || lt(b, a))
    && (forall a, b, c :: lt(a, b) && lt(b, c) ==> lt(a, c))
  }

  ghost predicate Ascending<T>(lt: (T, T) -> bool, s: seq<T>) {
    forall i, j :: 0 <= i < j < |s| ==> lt(s[i], s[j])
  }

  function InsertUnique<T(==)>(lt: (T, T) -> bool, x: T, s: seq<T>): seq<T> {
    if s == [] then [x]
    else if x == s[0] then s
    else if lt(x, s[0]) then [x] + s
    else [s[0]] + InsertUnique(lt, x, s[1..])
  }

  function SortUnique<T(==)>(lt: (T, T) -> bool, s: seq<T>): seq<T> {
    if s == [] then [] else InsertUnique(lt, s[0], SortUnique(lt, s[1..]))
  }

  lemma {:induction false} InsertUniqueCorrect<T(!new)>(lt: (T, T) -> bool, x: T, s: seq<T>)
    requires StrictOrder(lt) && Ascending(lt, s)
    ensures Ascending(lt, InsertUnique(lt, x, s))
    ensures forall y :: y in InsertUnique(lt, x, s) <==> y == x || y in s
    ensures |InsertUnique(lt, x, s)| == if x in s then |s| else |s| + 1
  {
    if s != [] && x != s[0] {
      if lt(x, s[0]) {
        assert x !in s by {
          forall i | 0 <= i < |s| ensures s[i] != x { assert i == 0 || lt(s[0], s[i]); }
        }
      } else {
        InsertUniqueCorrect(lt, x, s[1..]);
        assert s == [s[0]] + s[1..];
        var r := InsertUnique(lt, x, s[1..]);
        forall j | 0 <= j < |r| ensures lt(s[0], r[j]) {
          assert r[j] in r;
        }
      }
    }
  }

  lemma {:induction false} SortUniqueCorrect<T(!new)>(lt: (T, T) -> bool, s: seq<T>)
    requires StrictOrder(lt)
    ensures Ascending(lt, SortUnique(lt, s))
    ensures forall y :: y in SortUnique(lt, s) <==> y in s
    ensures |SortUnique(lt, s)| <= |s|
  {
    if s != [] {
      SortUniqueCorrect(lt, s[1..]);
      InsertUniqueCorrect(lt, s[0], SortUnique(lt, s[1..]));
      assert s == [s[0]] + s[1..];
    }
  }

  lemma AscendingTail<T(!new)>(lt: (T, T) -> bool, s: seq<T>, t: seq<T>)
    requires StrictOrder(lt) && Ascending(lt, s) && Ascending(lt, t) && s != [] && t != []
    requires forall y :: y in s ==> y in t
    ensures s[0] == t[0] ==> forall y :: y in s[1..] ==> y in t[1..]
    ensures s[0] != t[0] ==> lt(t[0], s[0]) && forall y :: y in s ==> y in t[1..]
  {
    assert s[0] in s;
    var k :| 0 <= k < |t| && t[k] == s[0];
    forall i | 0 <= i < |s|
      ensures (s[0] == t[0] && i == 0) || s[i] in t[1..]
    {
      assert s[i] in s;
      var j :| 0 <= j < |t| && t[j] == s[i];
      assert j > 0 ==> t[1..][j - 1] == s[i];
      if i > 0 {
        assert lt(s[0], s[i]);
        assert k == 0 || lt(t[0], s[0]);
      }
    }
  }

  /** An ascending sequence is determined by its set of elements. */
  lemma {:induction false} AscendingUnique<T(!new)>(lt: (T, T) -> bool, s: seq<T>, t: seq<T>)
    requires StrictOrder(lt) && Ascending(lt, s) && Ascending(lt, t)
    requires forall y :: y in s <==> y in t
    ensures s == t
  {
    assert s != [] ==> s[0] in t;
    assert t != [] ==> t[0] in s;
    if s != [] {
      AscendingTail(lt, s, t);
      AscendingTail(lt, t, s);
      AscendingUnique(lt, s[1..], t[1..]);
      assert s == [s[0]] + s[1..] && t == [t[0]] + t[1..];
    }
  }

  /** Sorting ignores order and repetition. */
  lemma SortUniqueOfSet<T(!new)>(lt: (T, T) -> bool, s: seq<T>, t: seq<T>)
    requires StrictOrder(lt)
    requires forall y :: y in s <==> y in t
    ensures SortUnique(lt, s) == SortUnique(lt, t)
  {
    SortUniqueCorrect(lt, s);
    SortUniqueCorrect(lt, t);
    AscendingUnique(lt, SortUnique(lt, s), SortUnique(lt, t));
  }

  lemma {:induction false} AscendingLength<T(!new)>(lt: (T, T) -> bool, s: seq<T>, universe: set<T>)
    requires StrictOrder(lt) && Ascending(lt, s)
    requires forall y :: y in s ==> y in universe
    ensures |s| <= |universe|
  {
    if s != [] {
      assert s == [s[0]] + s[1..];
      forall y | y in s[1..] ensures y in universe - {s[0]} {
        var i :| 1 <= i < |s| && s[i] == y;
        assert lt(s[0], s[i]);
      }
      AscendingLength(lt, s[1..], universe - {s[0]});
    }
  }

  /** Stable insertion into a sorted sequence that may hold repetitions. */
  function Insert<T>(lt: (T, T) -> bool, x: T, s: seq<T>): seq<T> {
    if s == [] || !lt(s[0], x) then [x] + s else [s[0]] + Insert(lt, x, s[1..])
  }

  function Sort<T>(lt: (T, T) -> bool, s: seq<T>): seq<T> {
    if s == [] then [] else Insert(lt, s[0], Sort(lt, s[1..]))
  }

  lemma {:induction false} InsertPermutes<T(!new)>(lt: (T, T) -> bool, x: T, s: seq<T>)
    ensures multiset(Insert(lt, x, s)) == multiset(s) + multiset{x}
    ensures |Insert(lt, x, s)| == |s| + 1
  {
    if s != [] {
      assert s == [s[0]] + s[1..];
      InsertPermutes(lt, x, s[1..]);
    }
  }

  lemma {:induction false} SortKeepsMultiset<T(!new)>(lt: (T, T) -> bool, s: seq<T>)
    ensures multiset(Sort(lt, s)) == multiset(s)
    ensures |Sort(lt, s)| == |s|
  {
    if s != [] {
      SortKeepsMultiset(lt, s[1..]);
      InsertPermutes(lt, s[0], Sort(lt, s[1..]));
      assert s == [s[0]] + s[1..];
    }
  }

  lemma SortPermutes<T(!new)>(lt: (T, T) -> bool, s: seq<T>)
    ensures multiset(Sort(lt, s)) == multiset(s)
    ensures |Sort(lt, s)| == |s|
    ensures forall x :: x in Sort(lt, s) <==> x in s
  {
    SortKeepsMultiset(lt, s);
    forall x ensures x in Sort(lt, s) <==> x in s {
      assert x in Sort(lt, s) <==> x in multiset(Sort(lt, s));
      assert x in s <==> x in multiset(s);
    }
  }

  /** Without repetitions, `sorted(s)` and `sorted(set(s))` are the same sequence. */
  lemma {:induction false} SortIsSortUnique<T(!new)>(lt: (T, T) -> bool, s: seq<T>)
    requires StrictOrder(lt)
    requires forall i, j :: 0 <= i < j < |s| ==> s[i] != s[j]
    ensures Sort(lt, s) == SortUnique(lt, s)
  {
    if s != [] {
      var t := s[1..];
      SortIsSortUnique(lt, t);
      SortUniqueCorrect(lt, t);
      assert s[0] !in t;
      InsertIsInsertUnique(lt, s[0], SortUnique(lt, t));
    }
  }

  lemma {:induction false} InsertIsInsertUnique<T(!new)>(lt: (T, T) -> bool, x: T, s: seq<T>)
    requires StrictOrder(lt) && x !in s
    ensures Insert(lt, x, s) == InsertUnique(lt, x, s)
  {
    if s != [] {
      assert s[0] in s;
      InsertIsInsertUnique(lt, x, s[1..]);
    }
  }

  lemma {:induction false} AscendingIsSorted<T(!new)>(lt: (T, T) -> bool, s: seq<T>)
    requires StrictOrder(lt) && Ascending(lt, s)
    ensures SortUnique(lt, s) == s
  {
    SortUniqueCorrect(lt, s);
    AscendingUnique(lt, SortUnique(lt, s), s);
  }

  /** Lexicographic order on strings, as Python compares `str` values. */
  predicate StringLess(a: string, b: string) {
    if b == "" then false
    else if a == "" then true
    else if a[0] != b[0] then a[0] < b[0]
    else StringLess(a[1..], b[1..])
  }

  lemma {:induction false} StringLessIrreflexive(a: string)
    ensures !StringLess(a, a)
  {
    if a != "" { StringLessIrreflexive(a[1..]); }
  }

  lemma {:induction false} StringLessTotal(a: string, b: string)
    ensures a == b || StringLess(a, b) || StringLess(b, a)
  {
    if a != "" && b != "" && a[0] == b[0] {
      StringLessTotal(a[1..], b[1..]);
      assert a == [a[0]] + a[1..] && b == [b[0]] + b[1..];
    }
  }

  lemma {:induction false} StringLessTransitive(a: string, b: string, c: string)
    requires StringLess(a, b) && StringLess(b, c)
    ensures StringLess(a, c)
  {
    if a != "" && a[0] == b[0] && b[0] == c[0] {
      StringLessTransitive(a[1..], b[1..], c[1..]);
    }
  }

  lemma StringLessStrict()
    ensures StrictOrder(StringLess)
  {
    forall a: string, b: string, c: string
      ensures !StringLess(a, a)
      ensures a == b || StringLess(a, b) || StringLess(b, a)
      ensures StringLess(a, b) && StringLess(b, c) ==> StringLess(a, c)
    {
      StringLessIrreflexive(a);
      StringLessTotal(a, b);
      if StringLess(a, b) && StringLess(b, c) {
        StringLessTransitive(a, b, c);
      }
    }
  }

  predicate IntLess(a: int, b: int) { a < b }
}
