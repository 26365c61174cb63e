/** Line numbers, brace matching and test modules of a masked Rust source. */
module RustLayout {
  import opened Results
  import opened Brackets
  import opened RustMask

  // ----- line numbers

  /** The positions of the line feeds. */
  function Newlines(source: string): seq<nat> {
    if source == [] then []
    else
      var n := |source| - 1;
      Newlines(source[..n]) + if source[n] == '\n' then [n] else []
  }

  function CountNewlines(text: string): nat {
    if text == [] then 0
    else CountNewlines(text[..|text| - 1]) + if text[|text| - 1] == '\n' then 1 else 0
  }

  lemma {:induction false} NewlinesAscend(source: string)
    ensures forall i :: 0 <= i < |Newlines(source)| ==> Newlines(source)[i] < |source|
    ensures forall i, j :: 0 <= i < j < |Newlines(source)| ==> Newlines(source)[i] < Newlines(source)[j]
  {
    if source != [] { NewlinesAscend(source[..|source| - 1]); }
  }

  /** As many line feeds lie before `limit` as the list has positions below it. */
  lemma {:induction false} NewlinesBelow(source: string, limit: nat, k: nat)
    requires limit <= |source| && k <= |Newlines(source)|
    requires forall i :: 0 <= i < |Newlines(source)| ==> (Newlines(source)[i] < limit <==> i < k)
    ensures k == CountNewlines(source[..limit])
  {
    var all := Newlines(source);
    if limit < |source| {
      var n := |source| - 1;
      var init := Newlines(source[..n]);
      assert all == init + (if source[n] == '\n' then [n] else []);
      assert source[..n][..limit] == source[..limit];
      assert source[n] == '\n' ==> all[|init|] == n;
      assert forall i :: 0 <= i < |init| ==> init[i] == all[i];
      NewlinesBelow(source[..n], limit, k);
    } else {
      NewlinesAscend(source);
      assert source[..limit] == source;
      assert |all| > 0 ==> all[|all| - 1] < limit;
      NewlinesCounted(source);
    }
  }

  lemma {:induction false} NewlinesCounted(source: string)
    ensures |Newlines(source)| == CountNewlines(source)
  {
    if source != [] { NewlinesCounted(source[..|source| - 1]); }
  }

  /** `bisect.bisect_right` on an ascending list. */
  method BisectRight(a: seq<nat>, x: nat) returns (k: nat)
    requires forall i, j :: 0 <= i < j < |a| ==> a[i] < a[j]
    ensures k <= |a| && forall i :: 0 <= i < |a| ==> (a[i] <= x <==> i < k)
  {
    var lo, hi := 0, |a|;
    while lo < hi
      invariant lo <= hi <= |a|
      invariant forall i :: 0 <= i < lo ==> a[i] <= x
      invariant forall i :: hi <= i < |a| ==> a[i] > x
    {
      var mid := (lo + hi) / 2;
      if x < a[mid] {
        hi := mid;
      } else {
        lo := mid + 1;
      }
    }
    return lo;
  }

  /** The line of a position: one more than the line feeds up to and including it. */
  function LineNumber(source: string, index: nat): nat {
    1 + CountNewlines(source[..if index < |source| then index + 1 else |source|])
  }

  class LineMap {
    var newlines: seq<nat>
    ghost var source: string

    ghost predicate Valid()
      reads this
    {
      newlines == Newlines(source)
    }

    constructor (text: string)
      ensures Valid() && source == text
    {
      newlines, source := Newlines(text), text;
    }

    /** `LineMap.line`. */
    method Line(index: nat) returns (n: nat)
      requires Valid()
      ensures n == LineNumber(source, index)
    {
      NewlinesAscend(source);
      var k := BisectRight(newlines, index);
      NewlinesBelow(source, if index < |source| then index + 1 else |source|, k);
      return k + 1;
    }
  }

  /** Two texts with the same line feeds give the same line numbers. */
  ghost predicate SameLines(a: string, b: string) {
    |a| == |b| && forall p :: 0 <= p < |a| ==> (a[p] == '\n' <==> b[p] == '\n')
  }

  lemma {:induction false} SameCount(a: string, b: string)
    requires SameLines(a, b)
    ensures CountNewlines(a) == CountNewlines(b)
  {
    if a != [] { SameCount(a[..|a| - 1], b[..|b| - 1]); }
  }

  lemma SameLineNumbers(a: string, b: string, index: nat)
    requires SameLines(a, b)
    ensures LineNumber(a, index) == LineNumber(b, index)
  {
    var n := if index < |a| then index + 1 else |a|;
    SameCount(a[..n], b[..n]);
  }

  /** A position found in the masked text has the line number it has in the source. */
  lemma MaskedLineNumbers(source: string, index: nat)
    ensures LineNumber(Mask(source, 0), index) == LineNumber(source, index)
  {
    hide Mask, LineNumber;
    MaskProperties(source);
    var out := Mask(source, 0);
    forall p | 0 <= p < |source| ensures out[p] == '\n' <==> source[p] == '\n' {
      assert MayBecome(source, p, out[p]);
    }
    SameLineNumbers(out, source, index);
  }

  // ----- braces

  function BraceWeight(c: char): int {
    if c == '{' then 1 else if c == '}' then -1 else 0
  }

  function BraceWeights(text: string): (w: seq<int>)
    ensures |w| == |text| && Weights(w)
    ensures forall i :: 0 <= i < |w| ==> w[i] == BraceWeight(text[i])
  {
    seq(|text|, i requires 0 <= i < |text| => BraceWeight(text[i]))
  }

  /** `matching_brace`: the first place where the depth returns to zero. */
  method MatchingBrace(masked: string, opening: nat) returns (r: Option<nat>)
    requires opening < |masked|
    ensures r == Close(BraceWeights(masked), opening + 1, 1)
    ensures r.Some? ==> Closes(BraceWeights(masked), opening + 1, r.value) && masked[r.value] == '}'
    ensures r.None? ==> NeverCloses(BraceWeights(masked), opening + 1)
  {
    hide Closes, NeverCloses, BraceWeights;
    ghost var w := BraceWeights(masked);
    CloseMeaning(w, opening + 1);
    var depth: nat := 1;
    for index := opening + 1 to |masked|
      invariant depth > 0
      invariant Close(w, index, depth) == Close(w, opening + 1, 1)
    {
      if masked[index] == '{' {
        depth := depth + 1;
      } else if masked[index] == '}' {
        depth := depth - 1;
        if depth == 0 {
          return Some(index);
        }
      }
    }
    return None;
  }

  // ----- test modules

  /** A match of the `#[cfg(test)] mod name {` pattern, and its brace. */
  datatype Match = Match(start: nat, opening: nat)

  ghost predicate Matched(text: string, m: Match) {
    m.start <= m.opening < |text|
  }

  /** Position `p` lies in the module of this match. */
  ghost predicate InModule(text: string, m: Match, p: nat)
    requires Matched(text, m)
  {
    var close := Close(BraceWeights(text), m.opening + 1, 1);
    close.Some? && m.start <= p <= close.value
  }

  ghost predicate InModules(text: string, matches: seq<Match>, n: nat, p: nat)
    requires n <= |matches| && forall i :: 0 <= i < |matches| ==> Matched(text, matches[i])
  {
    exists i :: 0 <= i < n && InModule(text, matches[i], p)
  }

  /** `mask_cfg_test_modules`: exactly the closed test modules are blanked. */
  method MaskCfgTestModules(masked: string, matches: seq<Match>) returns (out: string)
    requires forall i :: 0 <= i < |matches| ==> Matched(masked, matches[i])
    ensures |out| == |masked|
    ensures forall p :: 0 <= p < |masked| ==>
      out[p] == if InModules(masked, matches, |matches|, p) then Blanked(masked[p]) else masked[p]
  {
    hide BraceWeights, Blanked, Closes, NeverCloses, InModule;
    var buffer := new char[|masked|](i requires 0 <= i < |masked| => masked[i]);
    for n := 0 to |matches|
      invariant forall p :: 0 <= p < |masked| ==>
        buffer[p] == if InModules(masked, matches, n, p) then Blanked(masked[p]) else masked[p]
    {
      var closing := MatchingBrace(masked, matches[n].opening);
      ModuleStep(masked, matches, n, closing);
      BlankTwice(masked);
      if closing.Some? {
        Blank(buffer, matches[n].start, closing.value + 1);
      }
    }
    return buffer[..];
  }

  lemma BlankTwice(text: string)
    ensures forall p :: 0 <= p < |text| ==> Blanked(Blanked(text[p])) == Blanked(text[p])
  {}

  lemma ModuleStep(text: string, matches: seq<Match>, n: nat, closing: Option<nat>)
    requires n < |matches| && Matched(text, matches[n]) && forall i :: 0 <= i < |matches| ==> Matched(text, matches[i])
    requires closing == Close(BraceWeights(text), matches[n].opening + 1, 1)
    ensures forall p: nat :: InModules(text, matches, n + 1, p) <==>
      InModules(text, matches, n, p) || (closing.Some? && matches[n].start <= p <= closing.value)
  {
    hide BraceWeights;
    forall p: nat ensures InModules(text, matches, n + 1, p) <==>
      InModules(text, matches, n, p) || (closing.Some? && matches[n].start <= p <= closing.value)
    {
      assert InModule(text, matches[n], p) <==> (closing.Some? && matches[n].start <= p <= closing.value);
    }
  }

  /** So line numbers survive this pass too. */
  lemma ModulesKeepLines(masked: string, out: string)
    requires |out| == |masked|
    requires forall p :: 0 <= p < |masked| ==> out[p] == masked[p] || out[p] == Blanked(masked[p])
    ensures forall index: nat :: LineNumber(out, index) == LineNumber(masked, index)
  {
    forall index: nat ensures LineNumber(out, index) == LineNumber(masked, index) {
      SameLineNumbers(out, masked, index);
    }
  }
}
