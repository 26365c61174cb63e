/** Reachability along a successor function, as chains of steps from the roots. */
module Reachability {

  /** `p` starts at a root and follows successors. */
  ghost predicate Chain<T(!new)>(roots: seq<T>, next: T -> seq<T>, p: seq<T>) {
    && p != []
    && p[0] in roots
    && forall i :: 0 <= i < |p| - 1 ==> p[i + 1] in next(p[i])
  }

  ghost predicate Reachable<T(!new)>(roots: seq<T>, next: T -> seq<T>, x: T) {
    exists p :: Chain(roots, next, p) && p[|p| - 1] == x
  }

  ghost predicate Closed<T(!new)>(roots: seq<T>, next: T -> seq<T>, s: set<T>) {
    && (forall x :: x in roots ==> x in s)
    && (forall x, y :: x in s && y in next(x) ==> y in s)
  }

  lemma RootReachable<T(!new)>(roots: seq<T>, next: T -> seq<T>, x: T)
    requires x in roots
    ensures Reachable(roots, next, x)
  {
    assert Chain(roots, next, [x]);
  }

  lemma StepReachable<T(!new)>(roots: seq<T>, next: T -> seq<T>, x: T, y: T)
    requires Reachable(roots, next, x) && y in next(x)
    ensures Reachable(roots, next, y)
  {
    var p :| Chain(roots, next, p) && p[|p| - 1] == x;
    assert Chain(roots, next, p + [y]);
  }

  lemma {:induction false} ChainStays<T(!new)>(roots: seq<T>, next: T -> seq<T>, s: set<T>, p: seq<T>)
    requires Closed(roots, next, s) && Chain(roots, next, p)
    ensures p[|p| - 1] in s
  {
    if |p| > 1 {
      var q := p[..|p| - 1];
      assert Chain(roots, next, q);
      ChainStays(roots, next, s, q);
      assert p[|p| - 1] in next(q[|q| - 1]);
    }
  }

  /** A closed set contains everything reachable: the reachable elements are the least closed set. */
  lemma ClosedCovers<T(!new)>(roots: seq<T>, next: T -> seq<T>, s: set<T>)
    requires Closed(roots, next, s)
    ensures forall x :: Reachable(roots, next, x) ==> x in s
  {
    forall x | Reachable(roots, next, x) ensures x in s {
      var p :| Chain(roots, next, p) && p[|p| - 1] == x;
      ChainStays(roots, next, s, p);
    }
  }

  lemma {:induction false} ChainTransfers<T(!new)>(roots: seq<T>, next: T -> seq<T>, next': T -> seq<T>, p: seq<T>)
    requires Chain(roots, next, p)
    requires forall x :: Reachable(roots, next, x) ==> next(x) == next'(x)
    ensures Chain(roots, next', p)
  {
    forall i | 0 <= i < |p| - 1 ensures p[i + 1] in next'(p[i]) {
      assert Chain(roots, next, p[..i + 1]) && p[..i + 1][i] == p[i];
    }
  }

  /** Two successor functions that agree on what one of them reaches reach the same elements. */
  lemma SameReach<T(!new)>(roots: seq<T>, next: T -> seq<T>, next': T -> seq<T>)
    requires forall x :: Reachable(roots, next, x) ==> next(x) == next'(x)
    ensures forall x :: Reachable(roots, next, x) <==> Reachable(roots, next', x)
  {
    forall x | Reachable(roots, next, x) ensures Reachable(roots, next', x) {
      var p :| Chain(roots, next, p) && p[|p| - 1] == x;
      ChainTransfers(roots, next, next', p);
    }
    forall x | Reachable(roots, next', x) ensures Reachable(roots, next, x) {
      var p :| Chain(roots, next', p) && p[|p| - 1] == x;
      ChainBack(roots, next, next', p);
    }
  }

  lemma {:induction false} ChainBack<T(!new)>(roots: seq<T>, next: T -> seq<T>, next': T -> seq<T>, p: seq<T>)
    requires Chain(roots, next', p)
    requires forall x :: Reachable(roots, next, x) ==> next(x) == next'(x)
    ensures Reachable(roots, next, p[|p| - 1])
  {
    if |p| == 1 {
      RootReachable(roots, next, p[0]);
    } else {
      var q := p[..|p| - 1];
      assert Chain(roots, next', q);
      ChainBack(roots, next, next', q);
      StepReachable(roots, next, q[|q| - 1], p[|p| - 1]);
    }
  }

  // ----- a worklist with a set of seen elements

  /** Everything seen or waiting is reachable, and every root and every
      successor of something seen is seen or waiting. */
  ghost predicate Exploring<T(!new)>(roots: seq<T>, next: T -> seq<T>, seen: set<T>, pending: seq<T>) {
    && (forall x :: x in seen || x in pending ==> Reachable(roots, next, x))
    && (forall x :: x in roots ==> x in seen || x in pending)
    && (forall x, y :: x in seen && y in next(x) ==> y in seen || y in pending)
  }

  lemma ExploreStart<T(!new)>(roots: seq<T>, next: T -> seq<T>)
    ensures Exploring(roots, next, {}, roots)
  {
    forall x | x in roots ensures Reachable(roots, next, x) {
      RootReachable(roots, next, x);
    }
  }

  lemma ExploreDrop<T(!new)>(roots: seq<T>, next: T -> seq<T>, seen: set<T>, rest: seq<T>, x: T)
    requires Exploring(roots, next, seen, rest + [x])
    ensures Reachable(roots, next, x)
    ensures x in seen ==> Exploring(roots, next, seen, rest)
  {
    assert x in rest + [x];
    assert forall y :: y in rest ==> y in rest + [x];
  }

  lemma ExploreVisit<T(!new)>(roots: seq<T>, next: T -> seq<T>, seen: set<T>, rest: seq<T>, x: T, pushed: seq<T>)
    requires Exploring(roots, next, seen, rest + [x])
    requires pushed == next(x)
    ensures Exploring(roots, next, seen + {x}, rest + pushed)
  {
    assert forall y :: y in rest + [x] <==> y in rest || y == x;
    forall y | y in pushed ensures Reachable(roots, next, y) {
      StepReachable(roots, next, x, y);
    }
    assert forall y :: y in rest + pushed <==> y in rest || y in pushed;
  }

  lemma ExploreEnd<T(!new)>(roots: seq<T>, next: T -> seq<T>, seen: set<T>)
    requires Exploring(roots, next, seen, [])
    ensures forall x :: x in seen <==> Reachable(roots, next, x)
  {
    ClosedCovers(roots, next, seen);
  }
}
