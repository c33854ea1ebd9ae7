/** Sums over finite sets. */
module Sums {
  ghost function Sum<T(!new)>(s: set<T>, f: T -> nat): nat {
    if s == {} then 0 else var x :| x in s; f(x) + Sum(s - {x}, f)
  }

  /** The element a sum sets aside first does not matter. */
  lemma {:induction false} SumWithout<T(!new)>(s: set<T>, x: T, f: T -> nat)
    requires x in s
    ensures Sum(s, f) == f(x) + Sum(s - {x}, f)
  {
    var y :| y in s && Sum(s, f) == f(y) + Sum(s - {y}, f);
    if y != x {
      SumWithout(s - {y}, x, f);
      SumWithout(s - {x}, y, f);
      assert s - {y} - {x} == s - {x} - {y};
    }
  }

  lemma SumInsert<T(!new)>(s: set<T>, x: T, f: T -> nat)
    requires x !in s
    ensures Sum(s + {x}, f) == Sum(s, f) + f(x)
  {
    SumWithout(s + {x}, x, f);
    assert s + {x} - {x} == s;
  }

  lemma {:induction false} SumSubset<T(!new)>(a: set<T>, b: set<T>, f: T -> nat)
    requires a <= b
    ensures Sum(a, f) <= Sum(b, f)
  {
    if a != {} {
      var x :| x in a;
      SumWithout(a, x, f);
      SumWithout(b, x, f);
      SumSubset(a - {x}, b - {x}, f);
    }
  }
}
