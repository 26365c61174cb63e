/** Nearest-rank percentiles, which decide the product gates.

    Samples are only ever compared, so the source's integers and floats are reals
    here.  A percentile is a rational `num / den`. */
module OrderStatistics {
  import opened Results

  // ----- sorting

  ghost predicate Ordered(s: seq<real>) {
    forall i, j :: 0 <= i < j < |s| ==> s[i] <= s[j]
  }

  /** `low` is at most every sample. */
  ghost predicate Floor(low: real, s: seq<real>) {
    forall x :: x in multiset(s) ==> low <= x
  }

  lemma OrderedCons(x: real, s: seq<real>)
    ensures Ordered([x] + s) <==> Ordered(s) && Floor(x, s)
  {
    var t := [x] + s;
    if Ordered(t) {
      assert forall i :: 0 <= i < |s| ==> t[i + 1] == s[i];
      forall y | y in multiset(s) ensures x <= y {
        var i :| 0 <= i < |s| && s[i] == y;
        assert t[0] <= t[i + 1];
      }
    }
    if Ordered(s) && Floor(x, s) {
      forall i, j | 0 <= i < j < |t| ensures t[i] <= t[j] {
        assert t[j] == s[j - 1] && s[j - 1] in multiset(s);
      }
    }
  }

  function Insert(x: real, s: seq<real>): seq<real> {
    if s == [] || x <= s[0] then [x] + s else [s[0]] + Insert(x, s[1..])
  }

  lemma {:induction false} InsertKeeps(x: real, s: seq<real>)
    ensures multiset(Insert(x, s)) == multiset(s) + multiset{x}
  {
    if s != [] && !(x <= s[0]) {
      InsertKeeps(x, s[1..]);
      assert s == [s[0]] + s[1..];
    }
  }

  lemma {:induction false} InsertOrdered(x: real, s: seq<real>)
    requires Ordered(s)
    ensures Ordered(Insert(x, s))
  {
    hide Ordered;
    if s != [] {
      assert s == [s[0]] + s[1..];
      OrderedCons(s[0], s[1..]);
      assert multiset(s) == multiset{s[0]} + multiset(s[1..]);
    }
    if s == [] || x <= s[0] {
      OrderedCons(x, s);
    } else {
      InsertOrdered(x, s[1..]);
      InsertKeeps(x, s[1..]);
      OrderedCons(s[0], Insert(x, s[1..]));
    }
  }

  /** `sorted(values)`. */
  function Sort(values: seq<real>): (r: seq<real>)
    ensures Ordered(r) && multiset(r) == multiset(values) && |r| == |values|
  {
    if values == [] then []
    else
      var rest := Sort(values[1..]);
      assert values == [values[0]] + values[1..];
      InsertKeeps(values[0], rest);
      InsertOrdered(values[0], rest);
      var r := Insert(values[0], rest);
      assert |r| == |multiset(r)| == |multiset(values)|;
      r
  }

  lemma TailsAgree<T>(x: T, a: seq<T>, b: seq<T>)
    requires multiset([x] + a) == multiset([x] + b)
    ensures multiset(a) == multiset(b)
  {
    assert multiset(a) == multiset([x] + a) - multiset{x};
    assert multiset(b) == multiset([x] + b) - multiset{x};
  }

  lemma {:induction false} OrderedUnique(a: seq<real>, b: seq<real>)
    requires Ordered(a) && Ordered(b) && multiset(a) == multiset(b)
    ensures a == b
  {
    hide Ordered;
    assert |a| == |multiset(a)| == |multiset(b)| == |b|;
    if a != [] {
      var x, y, a', b' := a[0], b[0], a[1..], b[1..];
      assert a == [x] + a' && b == [y] + b';
      OrderedCons(x, a');
      OrderedCons(y, b');
      assert multiset(a) == multiset{x} + multiset(a') && multiset(b) == multiset{y} + multiset(b');
      assert x in multiset(b) && y in multiset(a);
      assert x == y;
      TailsAgree(x, a', b');
      OrderedUnique(a', b');
    }
  }

  lemma SortIgnoresOrder(a: seq<real>, b: seq<real>)
    requires multiset(a) == multiset(b)
    ensures Sort(a) == Sort(b)
  {
    OrderedUnique(Sort(a), Sort(b));
  }

  // ----- counting

  /** How many samples meet the gate. */
  function CountAtMost(s: seq<real>, gate: real): (n: nat)
    ensures n <= |s|
  {
    if s == [] then 0 else (if s[0] <= gate then 1 else 0) + CountAtMost(s[1..], gate)
  }

  lemma {:induction false} CountInsert(x: real, s: seq<real>, gate: real)
    ensures CountAtMost(Insert(x, s), gate) == CountAtMost(s, gate) + (if x <= gate then 1 else 0)
  {
    if s != [] && !(x <= s[0]) {
      CountInsert(x, s[1..], gate);
      assert Insert(x, s)[1..] == Insert(x, s[1..]);
    } else {
      assert Insert(x, s)[1..] == s;
    }
  }

  lemma {:induction false} CountSort(values: seq<real>, gate: real)
    ensures CountAtMost(Sort(values), gate) == CountAtMost(values, gate)
  {
    if values != [] {
      CountSort(values[1..], gate);
      CountInsert(values[0], Sort(values[1..]), gate);
    }
  }

  /** In a sorted list the k-th sample meets the gate exactly when more than k samples do. */
  lemma {:induction false} OrderedCount(s: seq<real>, gate: real, k: nat)
    requires Ordered(s) && k < |s|
    ensures s[k] <= gate <==> CountAtMost(s, gate) >= k + 1
  {
    if k > 0 {
      OrderedCount(s[1..], gate, k - 1);
      assert s[1..][k - 1] == s[k];
    } else if !(s[0] <= gate) {
      NoneAtMost(s, gate);
    }
  }

  lemma {:induction false} NoneAtMost(s: seq<real>, gate: real)
    requires forall i :: 0 <= i < |s| ==> s[i] > gate
    ensures CountAtMost(s, gate) == 0
  {
    if s != [] { NoneAtMost(s[1..], gate); }
  }

  // ----- nearest rank

  /** `math.ceil(a / b)` over exact rationals. */
  function CeilDiv(a: nat, b: nat): (q: nat)
    requires b > 0
    ensures q * b >= a
    ensures (q as int - 1) * b < a
  {
    (a + b - 1) / b
  }

  lemma RankInRange(n: nat, num: nat, den: nat)
    requires n > 0 && 0 < num <= den
    ensures 1 <= CeilDiv(n * num, den) <= n
  {
    Scale(n, num, den);
    Scale(den, n, CeilDiv(n * num, den) - 1);
  }

  lemma Scale(n: nat, a: nat, b: int)
    ensures a <= b ==> n * a <= n * b
    ensures n > 0 && a > 0 ==> n * a > 0
  {}

  /** `nearest_rank`. */
  function NearestRank(values: seq<real>, num: nat, den: nat): Result<real>
    requires den > 0
  {
    if values == [] then Err
    else if !(0 < num <= den) then Err
    else
      var q := CeilDiv(|values| * num, den);
      var index := (if q < 1 then 1 else q) - 1;
      RankInRange(|values|, num, den);
      Ok(Sort(values)[index])
  }

  /** The statistic meets a gate exactly when enough samples do; and it is one of the samples. */
  lemma NearestRankGate(values: seq<real>, num: nat, den: nat, gate: real)
    requires values != [] && 0 < num <= den
    ensures NearestRank(values, num, den).Ok?
    ensures NearestRank(values, num, den).value in values
    ensures NearestRank(values, num, den).value <= gate <==> CountAtMost(values, gate) >= CeilDiv(|values| * num, den)
  {
    hide Sort, CountAtMost, CeilDiv;
    var q := CeilDiv(|values| * num, den);
    RankInRange(|values|, num, den);
    OrderedCount(Sort(values), gate, q - 1);
    CountSort(values, gate);
    assert Sort(values)[q - 1] in multiset(Sort(values));
  }

  lemma NearestRankIgnoresOrder(a: seq<real>, b: seq<real>, num: nat, den: nat)
    requires multiset(a) == multiset(b) && den > 0
    ensures NearestRank(a, num, den) == NearestRank(b, num, den)
  {
    hide Sort, CeilDiv;
    assert |a| == |multiset(a)| == |b|;
    SortIgnoresOrder(a, b);
  }

  // ----- the largest sample

  function Max(s: seq<real>): (m: real)
    requires s != []
    ensures m in s && forall x :: x in s ==> x <= m
  {
    if |s| == 1 then s[0]
    else
      var m := Max(s[1..]);
      assert s == [s[0]] + s[1..];
      if s[0] > m then s[0] else m
  }

  lemma MaxIgnoresOrder(a: seq<real>, b: seq<real>)
    requires a != [] && b != [] && forall x :: x in a <==> x in b
    ensures Max(a) == Max(b)
  {
    hide Max;
  }

  datatype Statistics = Statistics(p50: real, p95: real, max: real)

  /** `recomputed_statistics`; any empty list raises. */
  function RecomputedStatistics(representatives: seq<real>, raw: seq<real>): Result<Statistics> {
    var p50, p95 := NearestRank(representatives, 50, 100), NearestRank(representatives, 95, 100);
    if p50.Err? || p95.Err? || raw == [] then Err
    else Ok(Statistics(p50.value, p95.value, Max(raw)))
  }

  lemma StatisticsIgnoreOrder(reps: seq<real>, reps': seq<real>, raw: seq<real>, raw': seq<real>)
    requires multiset(reps) == multiset(reps') && multiset(raw) == multiset(raw')
    ensures RecomputedStatistics(reps, raw) == RecomputedStatistics(reps', raw')
  {
    hide NearestRank, Max;
    NearestRankIgnoresOrder(reps, reps', 50, 100);
    NearestRankIgnoresOrder(reps, reps', 95, 100);
    assert |raw| == |multiset(raw)| == |raw'|;
    assert forall x :: x in raw <==> x in multiset(raw);
    assert forall x :: x in raw' <==> x in multiset(raw');
    if raw != [] { MaxIgnoresOrder(raw, raw'); }
  }

  // ----- the product runner's own forms

  function Concat(lists: seq<seq<real>>): seq<real> {
    if lists == [] then [] else lists[0] + Concat(lists[1..])
  }

  /** `rank`, whose index -1 is the last sample and whose index past the end raises. */
  function Rank(values: seq<real>, percentile: nat): Result<real> {
    if values == [] then Err
    else
      var index := CeilDiv(|values| * percentile, 100) - 1;
      if index == -1 then Ok(Sort(values)[|values| - 1])
      else if index >= |values| then Err
      else Ok(Sort(values)[index])
  }

  lemma RankIsNearestRank(values: seq<real>, percentile: nat)
    requires 0 < percentile <= 100
    ensures Rank(values, percentile) == NearestRank(values, percentile, 100)
  {
    hide Sort, CeilDiv;
    if values != [] { RankInRange(|values|, percentile, 100); }
  }

  /** One representative a run. */
  function Ranks(runs: seq<seq<real>>): Result<seq<real>> {
    if runs == [] then Ok([])
    else
      var first, rest := Rank(runs[0], 50), Ranks(runs[1..]);
      if first.Err? || rest.Err? then Err else Ok([first.value] + rest.value)
  }

  /** The largest of the runs' largest samples. */
  function MaxOfMaxima(runs: seq<seq<real>>): (m: real)
    requires runs != [] && forall i :: 0 <= i < |runs| ==> runs[i] != []
  {
    var first := Max(runs[0]);
    if |runs| == 1 then first
    else
      var rest := MaxOfMaxima(runs[1..]);
      if first > rest then first else rest
  }

  /** `aggregate`. */
  function Aggregate(runs: seq<seq<real>>): Result<Statistics> {
    var representatives := Ranks(runs);
    if representatives.Err? then Err
    else
      var p50, p95 := Rank(representatives.value, 50), Rank(representatives.value, 95);
      if p50.Err? || p95.Err? then Err
      else
        RanksDefined(runs);
        Ok(Statistics(p50.value, p95.value, MaxOfMaxima(runs)))
  }

  lemma {:induction false} RanksDefined(runs: seq<seq<real>>)
    ensures Ranks(runs).Ok? <==> forall i :: 0 <= i < |runs| ==> runs[i] != []
    ensures Ranks(runs).Ok? ==> |Ranks(runs).value| == |runs|
  {
    if runs != [] {
      RanksDefined(runs[1..]);
      RankIsNearestRank(runs[0], 50);
      assert forall i :: 1 <= i < |runs| ==> runs[i] == runs[1..][i - 1];
    }
  }

  lemma {:induction false} MaximaOfConcat(runs: seq<seq<real>>)
    requires runs != [] && forall i :: 0 <= i < |runs| ==> runs[i] != []
    ensures Concat(runs) != [] && MaxOfMaxima(runs) == Max(Concat(runs))
  {
    hide Max;
    if |runs| == 1 {
      assert Concat(runs) == runs[0];
    } else {
      MaximaOfConcat(runs[1..]);
      var all := Concat(runs);
      assert forall x :: x in all <==> x in runs[0] || x in Concat(runs[1..]);
    }
  }

  /** The runner's aggregate is the gate's recomputation over the per-run medians and all samples. */
  lemma AggregateIsRecomputed(runs: seq<seq<real>>)
    ensures Aggregate(runs) ==
      if Ranks(runs).Err? then Err else RecomputedStatistics(Ranks(runs).value, Concat(runs))
  {
    hide Rank, NearestRank, Max, Concat, MaxOfMaxima, Ranks;
    RanksDefined(runs);
    if Ranks(runs).Ok? {
      RankIsNearestRank(Ranks(runs).value, 50);
      RankIsNearestRank(Ranks(runs).value, 95);
      if runs != [] { MaximaOfConcat(runs); } else { NoStatistics(Ranks(runs).value); }
    }
  }

  lemma NoStatistics(reps: seq<real>)
    requires reps == []
    ensures Rank(reps, 50).Err? && NearestRank(reps, 50, 100).Err?
  {}

  // ----- the saturating form

  /** `usize::MAX` on a 64-bit target. */
  const MAX_LENGTH: nat := 0xFFFF_FFFF_FFFF_FFFF

  function Saturate(n: nat): nat {
    if n > MAX_LENGTH then MAX_LENGTH else n
  }

  /** The index expression of `percentile_95`, operator by operator. */
  function SaturatingIndex(length: nat): nat {
    var q := Saturate(Saturate(length * 95) + 99) / 100;
    if q == 0 then 0 else q - 1
  }

  /** The index never leaves a non-empty slice, even where the product saturates; and it is
      the exact one if and only if the unsaturated numerator stays below the next hundred. */
  lemma SaturatingIndexCorrect(length: nat)
    requires 0 < length <= MAX_LENGTH
    ensures SaturatingIndex(length) < length
    ensures SaturatingIndex(length) == CeilDiv(length * 95, 100) - 1 <==>
      length * 95 + 99 < (MAX_LENGTH / 100 + 1) * 100
  {}

  /** `sort_unstable` on the slice. */
  method SortInPlace(a: array<real>)
    modifies a
    ensures a[..] == Sort(old(a[..]))
  {
    var s := Sort(a[..]);
    forall i | 0 <= i < a.Length {
      a[i] := s[i];
    }
  }

  /** `percentile_95`: sorts the slice, and returns the nearest-rank 95th percentile
      wherever the index arithmetic is exact. */
  method Percentile95(values: array<real>) returns (r: real)
    requires values.Length <= MAX_LENGTH
    modifies values
    ensures values.Length == 0 ==> r == 0.0
    ensures values[..] == Sort(old(values[..]))
    ensures values.Length > 0 ==> r == values[SaturatingIndexOf(values.Length)]
    ensures (values.Length > 0 && values.Length * 95 + 99 < (MAX_LENGTH / 100 + 1) * 100) ==>
      NearestRank(old(values[..]), 95, 100) == Ok(r) && Rank(old(values[..]), 95) == Ok(r)
  {
    hide Sort, SaturatingIndex, CeilDiv;
    if values.Length == 0 {
      SortEmpty(values[..]);
      return 0.0;
    }
    SortInPlace(values);
    SaturatingIndexCorrect(values.Length);
    RankInRange(values.Length, 95, 100);
    RankIsNearestRank(old(values[..]), 95);
    r := values[SaturatingIndex(values.Length)];
  }

  lemma SortEmpty(s: seq<real>)
    requires s == []
    ensures Sort(s) == []
  {}

  function SaturatingIndexOf(length: nat): (i: nat)
    requires 0 < length <= MAX_LENGTH
    ensures i < length
  {
    SaturatingIndexCorrect(length);
    SaturatingIndex(length)
  }
}
