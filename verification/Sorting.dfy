/** Python's `sorted` on byte strings: the one ascending list of a set. */
module Sorting {
  import opened ByteStrings

  ghost predicate StrictlyAscending(xs: seq<Bytes>) {
    forall i, j :: 0 <= i < j < |xs| ==> LexLe(xs[i], xs[j]) && xs[i] != xs[j]
  }

  function SetOf<T>(xs: seq<T>): set<T> {
    set x | x in xs
  }

  /** `xs` is `sorted(s)`. */
  ghost predicate SortedList(s: set<Bytes>, xs: seq<Bytes>) {
    StrictlyAscending(xs) && SetOf(xs) == s
  }

  lemma {:induction false} SortedUnique(s: set<Bytes>, a: seq<Bytes>, b: seq<Bytes>)
    requires SortedList(s, a) && SortedList(s, b)
    ensures a == b
    decreases |a|
  {
    hide LexLe;
    assert (a != [] ==> a[0] in SetOf(a)) && (b != [] ==> b[0] in SetOf(b));
    if a != [] && b != [] {
      assert a[0] in SetOf(b) && b[0] in SetOf(a);
      var i :| 0 <= i < |b| && b[i] == a[0];
      var j :| 0 <= j < |a| && a[j] == b[0];
      assert a[0] == b[0] by {
        if a[0] != b[0] { LexLeAntisymmetric(a[0], b[0]); }
      }
      TailSorted(s, a);
      TailSorted(s, b);
      SortedUnique(s - {a[0]}, a[1..], b[1..]);
      assert a == [a[0]] + a[1..] && b == [b[0]] + b[1..];
    }
  }

  lemma TailSorted(s: set<Bytes>, a: seq<Bytes>)
    requires SortedList(s, a) && a != []
    ensures SortedList(s - {a[0]}, a[1..])
  {
    hide LexLe;
    assert forall i :: 0 <= i < |a| - 1 ==> a[1..][i] == a[i + 1];
    forall x | x in s - {a[0]} ensures x in SetOf(a[1..]) {
      var i :| 0 <= i < |a| && a[i] == x;
      assert a[1..][i - 1] == x;
    }
  }

  /** Where `x` belongs in an ascending list. */
  function InsertionPoint(xs: seq<Bytes>, x: Bytes): (k: nat)
    ensures k <= |xs|
    ensures forall i :: 0 <= i < k ==> !LexLe(x, xs[i])
    ensures k < |xs| ==> LexLe(x, xs[k])
  {
    if xs == [] || LexLe(x, xs[0]) then 0
    else
      var k := InsertionPoint(xs[1..], x);
      assert forall i :: 1 <= i < k + 1 ==> xs[i] == xs[1..][i - 1];
      k + 1
  }

  /** The list with `x` put in before position `k`, element by element. */
  function Grown(xs: seq<Bytes>, k: nat, x: Bytes, i: nat): Bytes
    requires k <= |xs| && i <= |xs|
  {
    if i < k then xs[i] else if i == k then x else xs[i - 1]
  }

  lemma GrownAscends(xs: seq<Bytes>, k: nat, x: Bytes, i: nat, j: nat)
    requires StrictlyAscending(xs) && x !in xs && k == InsertionPoint(xs, x) && i < j <= |xs|
    ensures LexLe(Grown(xs, k, x, i), Grown(xs, k, x, j)) && Grown(xs, k, x, i) != Grown(xs, k, x, j)
  {
    hide LexLe, InsertionPoint;
    if j == k {
      LexLeTotal(x, xs[i]);
    } else if i == k && j - 1 > k {
      LexLeTransitive(x, xs[k], xs[j - 1]);
    }
  }

  lemma InsertedElements(xs: seq<Bytes>, k: nat, x: Bytes)
    requires k <= |xs|
    ensures SetOf(xs[..k] + [x] + xs[k..]) == SetOf(xs) + {x}
  {
    assert xs == xs[..k] + xs[k..];
    assert forall y :: y in xs <==> y in xs[..k] || y in xs[k..];
  }

  lemma InsertSorted(s: set<Bytes>, xs: seq<Bytes>, x: Bytes)
    requires SortedList(s, xs) && x !in s
    ensures var k := InsertionPoint(xs, x); SortedList(s + {x}, xs[..k] + [x] + xs[k..])
  {
    hide LexLe, InsertionPoint;
    var k := InsertionPoint(xs, x);
    var ys := xs[..k] + [x] + xs[k..];
    assert x !in xs by { assert x in xs ==> x in SetOf(xs); }
    InsertedElements(xs, k, x);
    forall i, j | 0 <= i < j < |ys| ensures LexLe(ys[i], ys[j]) && ys[i] != ys[j] {
      GrownAscends(xs, k, x, i, j);
      assert ys[i] == Grown(xs, k, x, i) && ys[j] == Grown(xs, k, x, j);
    }
  }

  /** `sorted(s)`. */
  method SortSet(s: set<Bytes>) returns (xs: seq<Bytes>)
    ensures SortedList(s, xs)
  {
    hide LexLe;
    xs := [];
    var rest := s;
    while rest != {}
      invariant rest <= s && SortedList(s - rest, xs)
      decreases rest
    {
      var x :| x in rest;
      InsertSorted(s - rest, xs, x);
      var k := InsertionPoint(xs, x);
      xs := xs[..k] + [x] + xs[k..];
      rest := rest - {x};
      assert s - rest == s - (rest + {x}) + {x};
    }
    assert s - rest == s;
  }

  lemma {:induction false} SortedExists(s: set<Bytes>) returns (xs: seq<Bytes>)
    ensures SortedList(s, xs)
  {
    if s == {} {
      xs := [];
    } else {
      var x :| x in s;
      var ys := SortedExists(s - {x});
      InsertSorted(s - {x}, ys, x);
      var k := InsertionPoint(ys, x);
      xs := ys[..k] + [x] + ys[k..];
      assert s - {x} + {x} == s;
    }
  }

  /** The ascending list of a set, as a value. */
  ghost function Sorted(s: set<Bytes>): (xs: seq<Bytes>)
    ensures SortedList(s, xs)
  {
    assert exists xs :: SortedList(s, xs) by {
      var xs := SortedExists(s);
    }
    var xs :| SortedList(s, xs);
    xs
  }
}
