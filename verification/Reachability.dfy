/**
 Reachability in a directed graph with finitely many successors per node.
 The archive, action and form-field traversals are all specified against it.
 */
module Reachability {

  /** `b` is reached from `a` by following exactly `n` edges. */
  ghost predicate ReachesIn<N(!new)>(succ: N -> set<N>, a: N, b: N, n: nat) {
    if n == 0 then a == b else exists m :: ReachesIn(succ, a, m, n - 1) && b in succ(m)
  }

  ghost predicate Reachable<N(!new)>(succ: N -> set<N>, roots: set<N>, b: N) {
    exists a, n: nat :: a in roots && ReachesIn(succ, a, b, n)
  }

  ghost predicate Closed<N(!new)>(succ: N -> set<N>, s: set<N>) {
    forall a, b :: a in s && b in succ(a) ==> b in s
  }

  /** `s` holds exactly the nodes reachable from `roots`. */
  ghost predicate IsClosure<N(!new)>(succ: N -> set<N>, roots: set<N>, s: set<N>) {
    forall b :: b in s <==> Reachable(succ, roots, b)
  }

  lemma RootReachable<N(!new)>(succ: N -> set<N>, roots: set<N>, a: N)
    requires a in roots
    ensures Reachable(succ, roots, a)
  {
    assert ReachesIn(succ, a, a, 0);
  }

  lemma StepReachable<N(!new)>(succ: N -> set<N>, roots: set<N>, m: N, b: N)
    requires Reachable(succ, roots, m) && b in succ(m)
    ensures Reachable(succ, roots, b)
  {
    var a, n: nat :| a in roots && ReachesIn(succ, a, m, n);
    assert ReachesIn(succ, a, b, n + 1);
  }

  lemma {:induction false} ClosedContains<N(!new)>(succ: N -> set<N>, s: set<N>, a: N, b: N, n: nat)
    requires Closed(succ, s) && a in s && ReachesIn(succ, a, b, n)
    ensures b in s
  {
    if n > 0 {
      var m :| ReachesIn(succ, a, m, n - 1) && b in succ(m);
      ClosedContains(succ, s, a, m, n - 1);
    }
  }

  /** A closed set of reachable nodes that holds every root is the closure of the roots. */
  lemma ClosedIsClosure<N(!new)>(succ: N -> set<N>, roots: set<N>, s: set<N>)
    requires roots <= s && Closed(succ, s)
    requires forall b :: b in s ==> Reachable(succ, roots, b)
    ensures IsClosure(succ, roots, s)
  {
    forall b | Reachable(succ, roots, b)
      ensures b in s
    {
      var a, n: nat :| a in roots && ReachesIn(succ, a, b, n);
      ClosedContains(succ, s, a, b, n);
    }
  }
}
