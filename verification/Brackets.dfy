/** Bracket matching over a list of weights: +1 opens, -1 closes, 0 is anything else. */
module Brackets {
  import opened Results

  /** The change of depth over `[from, to)`. */
  function Depth(w: seq<int>, from: nat, to: nat): int
    requires from <= to <= |w|
  {
    if from == to then 0 else Depth(w, from, to - 1) + w[to - 1]
  }

  ghost predicate Weights(w: seq<int>) {
    forall i :: 0 <= i < |w| ==> -1 <= w[i] <= 1
  }

  lemma {:induction false} DepthSplit(w: seq<int>, a: nat, b: nat, c: nat)
    requires a <= b <= c <= |w|
    ensures Depth(w, a, c) == Depth(w, a, b) + Depth(w, b, c)
  {
    if b < c { DepthSplit(w, a, b, c - 1); }
  }

  /** Where a depth of `depth` at `index` first returns to zero. */
  function Close(w: seq<int>, index: nat, depth: nat): Option<nat>
    requires Weights(w) && index <= |w| && depth > 0
    decreases |w| - index
  {
    if index == |w| then None
    else if depth + w[index] == 0 then Some(index)
    else Close(w, index + 1, depth + w[index])
  }

  /** `close` is the first place where the bracket opened just before `from` is closed. */
  ghost predicate Closes(w: seq<int>, from: nat, close: nat) {
    && from <= close < |w|
    && Depth(w, from, close + 1) == -1
    && forall k :: from <= k <= close ==> Depth(w, from, k) >= 0
  }

  ghost predicate NeverCloses(w: seq<int>, from: nat) {
    forall k :: from <= k <= |w| ==> Depth(w, from, k) >= 0
  }

  lemma {:induction false} CloseFrom(w: seq<int>, from: nat, index: nat, depth: nat)
    requires Weights(w) && from <= index <= |w| && depth > 0 && Depth(w, from, index) == depth - 1
    requires forall k :: from <= k <= index ==> Depth(w, from, k) >= 0
    ensures match Close(w, index, depth) case Some(c) => Closes(w, from, c) case None => NeverCloses(w, from)
    decreases |w| - index
  {
    if index < |w| && depth + w[index] > 0 {
      assert Depth(w, from, index + 1) == Depth(w, from, index) + w[index];
      CloseFrom(w, from, index + 1, depth + w[index]);
    }
  }

  /** The search finds the first return to depth zero, or there is none. */
  lemma CloseMeaning(w: seq<int>, from: nat)
    requires Weights(w) && from <= |w|
    ensures match Close(w, from, 1) case Some(c) => Closes(w, from, c) case None => NeverCloses(w, from)
  {
    CloseFrom(w, from, from, 1);
  }

  /** Between a bracket and its match the text is balanced. */
  lemma InsideBalanced(w: seq<int>, from: nat, close: nat)
    requires Weights(w) && Closes(w, from, close)
    ensures Depth(w, from, close) == 0 && w[close] == -1
  {
    assert Depth(w, from, close + 1) == Depth(w, from, close) + w[close];
    assert Depth(w, from, close) >= 0;
  }

  /** Two matched pairs are nested or disjoint. */
  lemma NestedOrDisjoint(w: seq<int>, a: nat, ca: nat, b: nat, cb: nat)
    requires Weights(w) && a < b < |w| && w[a] == 1 && w[b] == 1
    requires Closes(w, a + 1, ca) && Closes(w, b + 1, cb)
    ensures cb < ca || ca < b
  {
    InsideBalanced(w, a + 1, ca);
    if b < ca {
      DepthSplit(w, a + 1, b + 1, ca + 1);
      assert Depth(w, a + 1, b + 1) == Depth(w, a + 1, b) + w[b] >= 1;
      assert Depth(w, b + 1, ca + 1) == Depth(w, b + 1, ca) + w[ca] <= -2;
    }
  }
}
