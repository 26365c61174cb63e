/** What the two Rust scanners share: where comments, strings and runs of hashes end. */
module RustText {
  import opened Results

  /** `source.startswith` for a two-character text. */
  predicate Pair(source: string, i: nat, a: char, b: char) {
    i + 1 < |source| && source[i] == a && source[i + 1] == b
  }

  predicate TextAt(source: string, i: nat, text: string) {
    i + |text| <= |source| && source[i..i + |text|] == text
  }

  /** `source.find(text, from)`: the first occurrence, if any. */
  function FindText(source: string, text: string, from: nat): (r: Option<nat>)
    requires from <= |source|
    ensures r.Some? ==> from <= r.value && TextAt(source, r.value, text)
    ensures forall i :: from <= i < (if r.Some? then r.value else |source|) ==> !TextAt(source, i, text)
    decreases |source| - from
  {
    if TextAt(source, from, text) then Some(from)
    else if from == |source| then None
    else FindText(source, text, from + 1)
  }

  // ----- nested block comments

  /** Where a block comment that is `depth` levels deep at `index` closes. */
  function CommentEnd(source: string, index: nat, depth: nat): (r: Option<nat>)
    ensures (r.Some? && index <= |source|) ==> index <= r.value <= |source|
    decreases |source| - index
  {
    if depth == 0 then Some(index)
    else if index >= |source| then None
    else if Pair(source, index, '/', '*') then CommentEnd(source, index + 2, depth + 1)
    else if Pair(source, index, '*', '/') then CommentEnd(source, index + 2, depth - 1)
    else CommentEnd(source, index + 1, depth)
  }

  /** A comment inside a comment is skipped as a unit: closing `depth + 1` levels is closing one
      and then the others. */
  lemma {:induction false} NestedCommentIsUnit(source: string, index: nat, outer: nat, inner: nat)
    ensures CommentEnd(source, index, outer + inner) ==
      match CommentEnd(source, index, inner) case None => None case Some(e) => CommentEnd(source, e, outer)
    decreases |source| - index, inner
  {
    if inner > 0 && index < |source| {
      if Pair(source, index, '/', '*') {
        NestedCommentIsUnit(source, index + 2, outer, inner + 1);
      } else if Pair(source, index, '*', '/') {
        NestedCommentIsUnit(source, index + 2, outer, inner - 1);
      } else {
        NestedCommentIsUnit(source, index + 1, outer, inner);
      }
    }
  }

  /** A stretch without comment marks is passed over, whatever the depth. */
  lemma {:induction false} PlainCommentText(source: string, index: nat, end: nat, depth: nat)
    requires index <= end <= |source| && depth > 0
    requires forall i :: index <= i < end ==> !Pair(source, i, '/', '*') && !Pair(source, i, '*', '/')
    ensures CommentEnd(source, index, depth) == CommentEnd(source, end, depth)
    decreases end - index
  {
    if index < end { PlainCommentText(source, index + 1, end, depth); }
  }

  // ----- quoted literals

  /** One past the closing quote, from a position inside the literal. */
  function QuoteEnd(source: string, index: nat, quote: char, oneLine: bool): (r: Option<nat>)
    ensures r.Some? ==> index < r.value <= |source| && source[r.value - 1] == quote
    decreases |source| - index
  {
    if index >= |source| then None
    else if source[index] == '\\' then QuoteEnd(source, index + 2, quote, oneLine)
    else if source[index] == quote then Some(index + 1)
    else if oneLine && source[index] == '\n' then None
    else QuoteEnd(source, index + 1, quote, oneLine)
  }

  /** A stretch without quote, backslash or (for one-line literals) line feed is passed over. */
  lemma {:induction false} PlainQuotedText(source: string, index: nat, end: nat, quote: char, oneLine: bool)
    requires index <= end <= |source|
    requires forall i :: index <= i < end ==> source[i] != quote && source[i] != '\\' && !(oneLine && source[i] == '\n')
    ensures QuoteEnd(source, index, quote, oneLine) == QuoteEnd(source, end, quote, oneLine)
    decreases end - index
  {
    if index < end { PlainQuotedText(source, index + 1, end, quote, oneLine); }
  }

  /** The search that stands at `from` comes to stand at `k`, escapes skipped. */
  predicate Live(source: string, from: nat, k: nat)
    decreases |source| - from
  {
    from == k || (from < k && from < |source| && Live(source, from + (if source[from] == '\\' then 2 else 1), k))
  }

  /** The first live quote, with no live line feed before it in a one-line literal. */
  ghost predicate Closing(source: string, from: nat, k: nat, quote: char, oneLine: bool) {
    && from <= k < |source| && Live(source, from, k) && source[k] == quote
    && forall j :: from <= j < k && Live(source, from, j) ==> source[j] != quote && !(oneLine && source[j] == '\n')
  }

  ghost predicate Unclosed(source: string, from: nat, quote: char, oneLine: bool) {
    forall k: nat :: !Closing(source, from, k, quote, oneLine)
  }

  /** The search ends one past the closing quote, or there is none. */
  lemma {:induction false} QuoteEndMeaning(source: string, index: nat, quote: char, oneLine: bool)
    requires quote != '\\' && quote != '\n'
    ensures match QuoteEnd(source, index, quote, oneLine)
      case Some(e) => e > index && Closing(source, index, e - 1, quote, oneLine)
      case None => Unclosed(source, index, quote, oneLine)
    decreases |source| - index
  {
    if index < |source| && source[index] != quote && !(oneLine && source[index] == '\n') {
      var next := index + if source[index] == '\\' then 2 else 1;
      QuoteEndMeaning(source, next, quote, oneLine);
      forall k: nat ensures Closing(source, index, k, quote, oneLine) <==> Closing(source, next, k, quote, oneLine) {
        ClosingStep(source, index, next, k, quote, oneLine);
      }
    } else if index < |source| {
      assert Live(source, index, index);
    }
  }

  lemma ClosingStep(source: string, index: nat, next: nat, k: nat, quote: char, oneLine: bool)
    requires index < |source| && source[index] != quote && !(oneLine && source[index] == '\n')
    requires quote != '\\' && next == index + if source[index] == '\\' then 2 else 1
    ensures Closing(source, index, k, quote, oneLine) <==> Closing(source, next, k, quote, oneLine)
  {
    forall j: nat | j > index ensures Live(source, index, j) <==> Live(source, next, j) {}
    forall j: nat ensures Live(source, next, j) ==> next <= j { LiveForward(source, next, j); }
  }

  lemma LiveForward(source: string, from: nat, k: nat)
    ensures Live(source, from, k) ==> from <= k
  {}

  // ----- raw strings

  /** Where a run of at most `limit` hashes ends. */
  function HashEnd(source: string, index: nat, limit: nat): (end: nat)
    requires index <= |source|
    ensures index <= end <= |source| && end <= index + limit
    ensures forall i :: index <= i < end ==> source[i] == '#'
    ensures end < |source| && end < index + limit ==> source[end] != '#'
    decreases limit
  {
    if limit == 0 || index == |source| || source[index] != '#' then index
    else HashEnd(source, index + 1, limit - 1)
  }

  function Hashes(n: nat): (h: string)
    ensures |h| == n && forall i :: 0 <= i < n ==> h[i] == '#'
  {
    if n == 0 then [] else ['#'] + Hashes(n - 1)
  }

  /** The delimiter that closes a raw string opened with these hashes. */
  function Terminator(hashes: nat): (t: string)
    ensures |t| == hashes + 1
  {
    ['"'] + Hashes(hashes)
  }

  // ----- the loops both scanners run

  /** `nested_block_comment_end`: an unterminated comment runs to the end. */
  method NestedBlockCommentEnd(source: string, start: nat) returns (end: nat)
    requires Pair(source, start, '/', '*')
    ensures end == CommentEndOr(source, start + 2, |source|)
    ensures start + 2 <= end <= |source|
  {
    var depth, index := 1, start + 2;
    while index < |source| && depth > 0
      invariant start + 2 <= index <= |source|
      invariant CommentEnd(source, index, depth) == CommentEnd(source, start + 2, 1)
      decreases |source| - index
    {
      if Pair(source, index, '/', '*') {
        depth, index := depth + 1, index + 2;
      } else if Pair(source, index, '*', '/') {
        depth, index := depth - 1, index + 2;
      } else {
        index := index + 1;
      }
    }
    return index;
  }

  function CommentEndOr(source: string, index: nat, other: nat): nat {
    match CommentEnd(source, index, 1) case Some(e) => e case None => other
  }

  /** `_skip_block_comment`: an unterminated comment is an error. */
  method SkipBlockComment(source: string, start: nat) returns (r: Result<nat>)
    requires Pair(source, start, '/', '*')
    ensures r == match CommentEnd(source, start + 2, 1) case Some(e) => Ok(e) case None => Err
  {
    var depth, index := 1, start + 2;
    while index < |source|
      invariant depth > 0 && index <= |source|
      invariant CommentEnd(source, index, depth) == CommentEnd(source, start + 2, 1)
      decreases |source| - index
    {
      if Pair(source, index, '/', '*') {
        depth, index := depth + 1, index + 2;
      } else if Pair(source, index, '*', '/') {
        depth, index := depth - 1, index + 2;
        if depth == 0 {
          return Ok(index);
        }
      } else {
        index := index + 1;
      }
    }
    return Err;
  }

  /** The two skippers agree wherever the strict one succeeds, and differ exactly on an
      unterminated comment, which the lenient one takes to the end of the source. */
  method SkippersAgree(source: string, start: nat) returns (lenient: nat, strict: Result<nat>)
    requires Pair(source, start, '/', '*')
    ensures strict.Ok? ==> lenient == strict.value
    ensures strict.Err? ==> lenient == |source|
    ensures strict.Err? <==> CommentEnd(source, start + 2, 1).None?
  {
    lenient := NestedBlockCommentEnd(source, start);
    strict := SkipBlockComment(source, start);
  }
}
