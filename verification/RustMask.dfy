/** Masking comments and literals of a Rust source without moving anything. */
module RustMask {
  import opened Results
  import opened RustText

  // ----- the constructs

  /** Where the raw string prefix at `i` ends, if there is one. */
  function RawPrefix(source: string, i: nat): (r: Option<nat>)
    ensures r.Some? ==> i < r.value <= |source|
  {
    if Pair(source, i, 'b', 'r') || Pair(source, i, 'r', 'b') then Some(i + 2)
    else if i < |source| && source[i] == 'r' then Some(i + 1)
    else None
  }

  const MAX_HASHES: nat := 255

  /** `raw_string_end`. */
  function RawStringEnd(source: string, start: nat): (r: Option<nat>)
    ensures r.Some? ==> start < r.value <= |source|
  {
    var prefix := RawPrefix(source, start);
    if prefix.None? then None
    else
      var quote := HashEnd(source, prefix.value, MAX_HASHES);
      if quote == |source| || source[quote] != '"' then None
      else
        var terminator := ['"'] + source[prefix.value..quote];
        match FindText(source, terminator, quote + 1)
        case None => Some(|source|)
        case Some(closing) => Some(closing + |terminator|)
  }

  /** `quoted_literal_end`: an unterminated literal runs to the end. */
  function QuotedLiteralEnd(source: string, start: nat): (end: nat)
    requires start < |source|
    ensures start < end <= |source|
  {
    match QuoteEnd(source, start + 1, '"', false)
    case Some(e) => e
    case None => |source|
  }

  /** `character_literal_end`, with the escape branch as the source has it: it looks for
      `u{` two places after the backslash. */
  function CharacterLiteralEnd(source: string, start: nat): (r: Option<nat>)
    requires start < |source|
    ensures r.Some? ==> start < r.value <= |source|
  {
    var index := start + 1;
    if index >= |source| then None
    else if source[index] != '\\' then ClosingQuote(source, index + 1)
    else if !Pair(source, index + 2, 'u', '{') then ClosingQuote(source, index + 2)
    else
      match FindText(source, ['}'], index + 4)
      case None => None
      case Some(brace) => ClosingQuote(source, brace + 1)
  }

  function ClosingQuote(source: string, index: nat): (r: Option<nat>)
    ensures r.Some? ==> index < r.value <= |source|
  {
    if index < |source| && source[index] == '\'' then Some(index + 1) else None
  }

  function LineEnd(source: string, index: nat): (end: nat)
    requires index <= |source|
    ensures index <= end <= |source|
    decreases |source| - index
  {
    if index == |source| || source[index] == '\n' then index else LineEnd(source, index + 1)
  }

  /** The end of the comment or literal that starts at `i`, if one does. */
  function SpanEnd(source: string, i: nat): (r: Option<nat>)
    requires i < |source|
    ensures r.Some? ==> i < r.value <= |source|
    ensures source[i] == '"' || Pair(source, i, '/', '/') || Pair(source, i, '/', '*') ==> r.Some?
  {
    if Pair(source, i, '/', '/') then Some(LineEnd(source, i + 2))
    else if Pair(source, i, '/', '*') then Some(CommentEndOr(source, i + 2, |source|))
    else if source[i] in "br" && RawStringEnd(source, i).Some? then RawStringEnd(source, i)
    else if source[i] == '"' then Some(QuotedLiteralEnd(source, i))
    else if source[i] == '\'' then CharacterLiteralEnd(source, i)
    else None
  }

  // ----- what the spans are

  /** A string without quotes or escapes inside is one span, line feeds included. */
  lemma StringSpan(source: string, i: nat, close: nat)
    requires i < close < |source| && source[i] == '"' && source[close] == '"'
    requires forall k :: i < k < close ==> source[k] != '"' && source[k] != '\\'
    ensures SpanEnd(source, i) == Some(close + 1)
  {
    PlainQuotedText(source, i + 1, close, '"', false);
  }

  /** So is a block comment without further comment marks. */
  lemma CommentSpan(source: string, i: nat, close: nat)
    requires Pair(source, i, '/', '*') && i + 2 <= close && Pair(source, close, '*', '/')
    requires forall k :: i + 2 <= k < close ==> !Pair(source, k, '/', '*') && !Pair(source, k, '*', '/')
    ensures SpanEnd(source, i) == Some(close + 2)
  {
    PlainCommentText(source, i + 2, close, 1);
    assert CommentEnd(source, close + 2, 0) == Some(close + 2);
  }

  /** A raw string ends with the first quote that its own number of hashes follows. */
  lemma RawSpan(source: string, i: nat, quote: nat, terminator: string, close: nat)
    requires i < quote < close < |source| && quote <= i + 1 + MAX_HASHES && source[i] == 'r' && source[quote] == '"'
    requires forall k :: i + 1 <= k < quote ==> source[k] == '#'
    requires terminator == ['"'] + source[i + 1..quote]
    requires TextAt(source, close, terminator)
    requires forall k :: quote + 1 <= k < close ==> !TextAt(source, k, terminator)
    ensures SpanEnd(source, i) == Some(close + |terminator|)
  {
    hide TextAt, FindText, HashEnd, QuotedLiteralEnd, CharacterLiteralEnd, CommentEnd;
    assert RawPrefix(source, i) == Some(i + 1);
    assert HashEnd(source, i + 1, MAX_HASHES) == quote;
    assert FindText(source, terminator, quote + 1) == Some(close);
    assert RawStringEnd(source, i) == Some(close + |terminator|);
  }

  predicate HexDigit(c: char) {
    '0' <= c <= '9' || 'a' <= c <= 'f' || 'A' <= c <= 'F'
  }

  /** A Rust character literal with its quotes at `i` and `close`: one plain character, a
      one-character escape, a two-digit hexadecimal escape, or a Unicode escape. */
  predicate CharacterLiteral(source: string, i: nat, close: nat) {
    && i + 1 < close < |source| && source[i] == '\'' && source[close] == '\''
    && (|| (close == i + 2 && source[i + 1] !in "'\\\n\r\t")
        || (source[i + 1] == '\\' &&
            (|| (close == i + 3 && source[i + 2] in "'\"\\nrt0")
             || (close == i + 5 && source[i + 2] == 'x' && HexDigit(source[i + 3]) && HexDigit(source[i + 4]))
             || (close > i + 5 && Pair(source, i + 2, 'u', '{') && source[close - 1] == '}' &&
                 forall k :: i + 4 <= k < close - 1 ==> HexDigit(source[k]) || source[k] == '_'))))
  }

  /** What the search does with any quoted text whose body is one character or starts with a
      backslash: it is one span if and only if the body has one character, or two with the
      backslash.  An escape of the form `\?u{` diverts the search. */
  lemma QuotedBody(source: string, i: nat, close: nat)
    requires i + 1 < close < |source| && source[i] == '\'' && source[close] == '\''
    requires close == i + 2 || source[i + 1] == '\\'
    requires source[i + 1] == '\\' ==> close > i + 2
    requires forall k :: i + 3 <= k < close ==> source[k] != '\''
    requires source[i + 1] == '\\' ==> !Pair(source, i + 3, 'u', '{')
    ensures SpanEnd(source, i) == Some(close + 1) <==> close <= i + 3
    ensures close > i + 3 ==> SpanEnd(source, i).None?
  {}

  /** A character literal is one span if and only if its body has at most two characters: plain
      characters and one-character escapes are, hexadecimal and Unicode escapes are missed. */
  lemma CharacterSpans(source: string, i: nat, close: nat)
    requires CharacterLiteral(source, i, close)
    ensures SpanEnd(source, i) == Some(close + 1) <==> close <= i + 3
    ensures close > i + 3 <==> source[i + 1] == '\\' && source[i + 2] in "xu"
    ensures close > i + 3 ==> forall k :: i <= k < close ==> SpanEnd(source, k).None?
  {
    if close > i + 3 {
      forall k | i <= k < close ensures SpanEnd(source, k).None? {
        EscapeBody(source, i, close, k);
      }
    }
  }

  /** No construct starts anywhere in a missed literal. */
  lemma EscapeBody(source: string, i: nat, close: nat, k: nat)
    requires CharacterLiteral(source, i, close) && close > i + 3 && i <= k < close
    ensures SpanEnd(source, k).None?
  {
    hide CommentEnd, HashEnd, FindText, QuoteEnd;
    if k > i {
      assert source[k] in "\\xu{}_" || HexDigit(source[k]);
      assert source[k + 1] in "\\xu{}_'" || HexDigit(source[k + 1]);
      assert RawPrefix(source, k).None?;
    }
  }

  /** So a missed literal, up to its closing quote, is left in the masked text. */
  lemma MissedLiteralSurvives(source: string, i: nat, close: nat)
    requires CharacterLiteral(source, i, close) && close > i + 3
    ensures Mask(source, i) == source[i..close] + Mask(source, close)
  {
    hide SpanEnd, Mask;
    CharacterSpans(source, i, close);
    CodeStretch(source, i, close);
  }

  lemma {:induction false} CodeStretch(source: string, i: nat, end: nat)
    requires i <= end <= |source| && forall k :: i <= k < end ==> SpanEnd(source, k).None?
    ensures Mask(source, i) == source[i..end] + Mask(source, end)
    decreases end - i
  {
    hide SpanEnd, Mask;
    if i == end {
      assert source[i..end] + Mask(source, end) == Mask(source, end);
    } else {
      MaskCode(source, i);
      CodeStretch(source, i + 1, end);
      assert [source[i]] + (source[i + 1..end] + Mask(source, end)) == source[i..end] + Mask(source, end);
    }
  }

  /** The Unicode escape alone, whatever follows it. */
  lemma UnicodeEscapeMissed(source: string, i: nat)
    requires i + 4 <= |source| && source[i..i + 4] == "'\\u{"
    ensures SpanEnd(source, i).None?
  {
    assert source[i + 1] == source[i..i + 4][1] && source[i + 3] == source[i..i + 4][3];
    assert source[i] == source[i..i + 4][0];
  }

  /** Two literals that are missed, and two that are not. */
  lemma LiteralExamples()
    ensures CharacterLiteral("'\\x41'", 0, 5) && SpanEnd("'\\x41'", 0).None?
    ensures CharacterLiteral("'\\u{41}'", 0, 7) && SpanEnd("'\\u{41}'", 0).None?
    ensures CharacterLiteral("'a'", 0, 2) && SpanEnd("'a'", 0) == Some(3)
    ensures CharacterLiteral("'\\''", 0, 3) && SpanEnd("'\\''", 0) == Some(4)
  {
    hide SpanEnd;
    CharacterSpans("'\\x41'", 0, 5);
    CharacterSpans("'\\u{41}'", 0, 7);
    CharacterSpans("'a'", 0, 2);
    CharacterSpans("'\\''", 0, 3);
  }

  /** A lifetime is left alone: no quote follows its first character. */
  lemma LifetimeKept(source: string, i: nat)
    requires i + 2 < |source| && source[i] == '\'' && source[i + 1] != '\\' && source[i + 2] != '\''
    ensures SpanEnd(source, i).None?
  {}

  // ----- the meaning of masking

  function Blanked(c: char): char {
    if c == '\r' || c == '\n' then c else ' '
  }

  function BlankText(s: string): (b: string)
    ensures |b| == |s| && forall k :: 0 <= k < |s| ==> b[k] == Blanked(s[k])
  {
    seq(|s|, k requires 0 <= k < |s| => Blanked(s[k]))
  }

  /** The text from `i` on, each comment or literal that starts where the scan stands blanked. */
  function Mask(source: string, i: nat): (out: string)
    requires i <= |source|
    ensures |out| == |source| - i
    decreases |source| - i
  {
    if i == |source| then []
    else
      match SpanEnd(source, i)
      case Some(end) => BlankText(source[i..end]) + Mask(source, end)
      case None => [source[i]] + Mask(source, i + 1)
  }

  lemma MaskSpan(source: string, i: nat, end: nat)
    requires i < |source| && SpanEnd(source, i) == Some(end)
    ensures i < end <= |source| && Mask(source, i) == BlankText(source[i..end]) + Mask(source, end)
  {
    hide BlankText;
  }

  lemma MaskCode(source: string, i: nat)
    requires i < |source| && SpanEnd(source, i).None?
    ensures Mask(source, i) == [source[i]] + Mask(source, i + 1)
  {}

  /** What the character at one position may have become. */
  ghost predicate MayBecome(source: string, p: nat, c: char)
    requires p < |source|
  {
    && (c == source[p] || c == ' ')
    && (source[p] == '\r' || source[p] == '\n' ==> c == source[p])
    && c != '"'
    && (c == '/' ==> !Pair(source, p, '/', '/') && !Pair(source, p, '/', '*'))
  }

  lemma {:induction false} MaskAt(source: string, i: nat, p: nat)
    requires i <= p < |source|
    ensures MayBecome(source, p, Mask(source, i)[p - i])
    decreases |source| - i
  {
    hide SpanEnd, BlankText, Mask, Pair;
    var end := SpanEnd(source, i);
    SpanStarts(source, i);
    if end.None? {
      MaskCode(source, i);
      if p > i { MaskAt(source, i + 1, p); }
    } else {
      MaskSpan(source, i, end.value);
      if p >= end.value {
        MaskAt(source, end.value, p);
      } else {
        assert Mask(source, i)[p - i] == BlankText(source[i..end.value])[p - i] == Blanked(source[p]);
      }
    }
  }

  lemma SpanStarts(source: string, i: nat)
    requires i < |source|
    ensures var r := SpanEnd(source, i);
      && (r.Some? ==> i < r.value <= |source|)
      && (source[i] == '"' || Pair(source, i, '/', '/') || Pair(source, i, '/', '*') ==> r.Some?)
  {}

  /** Masking keeps the length and every line break, changes a character only to a space,
      and leaves no double quote, no `//` and no block-comment opener. */
  lemma MaskProperties(source: string)
    ensures |Mask(source, 0)| == |source|
    ensures forall p :: 0 <= p < |source| ==> MayBecome(source, p, Mask(source, 0)[p])
    ensures forall p: nat :: !Pair(Mask(source, 0), p, '/', '/') && !Pair(Mask(source, 0), p, '/', '*')
  {
    hide Mask;
    var out := Mask(source, 0);
    forall p | 0 <= p < |source| ensures MayBecome(source, p, out[p]) {
      MaskAt(source, 0, p);
    }
    forall p: nat ensures !Pair(out, p, '/', '/') && !Pair(out, p, '/', '*') {
      if p + 1 < |out| {
        assert MayBecome(source, p, out[p]) && MayBecome(source, p + 1, out[p + 1]);
      }
    }
  }

  /** A text in which no construct starts is left as it is. */
  lemma {:induction false} MaskLeavesCode(source: string, i: nat)
    requires i <= |source|
    requires forall p :: i <= p < |source| ==> SpanEnd(source, p).None?
    ensures Mask(source, i) == source[i..]
    decreases |source| - i
  {
    hide SpanEnd;
    if i < |source| {
      MaskLeavesCode(source, i + 1);
      assert source[i..] == [source[i]] + source[i + 1..];
    }
  }

  // ----- where the scan stands

  /** The scan that stands at `from` comes to stand at `i`. */
  predicate Stands(source: string, from: nat, i: nat)
    decreases |source| - from
  {
    from == i || (from < |source| && from < i &&
      match SpanEnd(source, from)
      case Some(end) => Stands(source, end, i)
      case None => Stands(source, from + 1, i))
  }

  lemma StandsNext(source: string, from: nat, i: nat)
    requires i < |source| && Stands(source, from, i)
    ensures match SpanEnd(source, i)
      case Some(end) => Stands(source, from, end)
      case None => Stands(source, from, i + 1)
    decreases |source| - from
  {
    hide SpanEnd;
    SpanStarts(source, i);
    if from < i {
      SpanStarts(source, from);
      match SpanEnd(source, from)
      case Some(end) => StandsNext(source, end, i);
      case None => StandsNext(source, from + 1, i);
    }
  }

  /** From where the scan stands, the mask is the mask of the rest. */
  lemma {:induction false} MaskFrom(source: string, from: nat, i: nat)
    requires from <= i <= |source| && Stands(source, from, i)
    ensures Mask(source, from)[i - from..] == Mask(source, i)
    decreases |source| - from
  {
    hide SpanEnd, Mask, BlankText;
    if from < i {
      SpanStarts(source, from);
      match SpanEnd(source, from)
      case Some(end) =>
        StandsBounds(source, end, i);
        MaskSpan(source, from, end);
        MaskFrom(source, end, i);
        DropFront(BlankText(source[from..end]), Mask(source, end), i - from);
      case None =>
        MaskCode(source, from);
        MaskFrom(source, from + 1, i);
        DropFront([source[from]], Mask(source, from + 1), i - from);
    }
  }

  lemma StandsBounds(source: string, from: nat, i: nat)
    requires Stands(source, from, i)
    ensures from <= i
  {}

  lemma DropFront(a: string, b: string, n: nat)
    requires |a| <= n <= |a| + |b|
    ensures (a + b)[n..] == b[n - |a|..]
  {}

  /** A position is code when the scan stands there and no span starts. */
  predicate Code(source: string, from: nat, k: nat)
    requires k < |source|
  {
    Stands(source, from, k) && SpanEnd(source, k).None?
  }

  /** What the masker does to any position of any source: code is kept, all else is blanked. */
  lemma {:induction false} MaskedPosition(source: string, from: nat, k: nat)
    requires from <= k < |source|
    ensures Mask(source, from)[k - from] == if Code(source, from, k) then source[k] else Blanked(source[k])
    decreases |source| - from
  {
    hide SpanEnd, Mask, BlankText, Blanked;
    SpanStarts(source, from);
    match SpanEnd(source, from)
    case Some(end) =>
      MaskSpan(source, from, end);
      if k < end {
        NoStop(source, from, end, k);
        assert Mask(source, from)[k - from] == BlankText(source[from..end])[k - from] == Blanked(source[from..end][k - from]) by {
          BlankAt(source[from..end], k - from);
        }
      } else {
        MaskedPosition(source, end, k);
        assert Mask(source, from)[k - from] == Mask(source, end)[k - end];
      }
    case None =>
      MaskCode(source, from);
      if k > from { MaskedPosition(source, from + 1, k); }
  }

  lemma BlankAt(s: string, k: nat)
    requires k < |s|
    ensures BlankText(s)[k] == Blanked(s[k])
  {}

  lemma NoStop(source: string, from: nat, end: nat, k: nat)
    requires from <= k < end && from < |source| && SpanEnd(source, from) == Some(end)
    ensures k < |source| && !Code(source, from, k)
  {
    hide SpanEnd;
    SpanStarts(source, from);
    if Stands(source, end, k) { StandsBounds(source, end, k); }
  }

  /** So any stretch of any source is blanked if and only if no code in it is anything but a blank
      or a line break. */
  lemma StretchBlanked(source: string, a: nat, b: nat)
    requires a <= b <= |source|
    ensures Mask(source, 0)[a..b] == BlankText(source[a..b]) <==>
      forall k :: a <= k < b && Code(source, 0, k) ==> source[k] == Blanked(source[k])
  {
    hide Mask, Code, Blanked;
    var out, blank := Mask(source, 0)[a..b], BlankText(source[a..b]);
    forall k | a <= k < b
      ensures out[k - a] == (if Code(source, 0, k) then source[k] else Blanked(source[k])) && blank[k - a] == Blanked(source[k])
    {
      MaskedPosition(source, 0, k);
    }
    if forall k :: a <= k < b && Code(source, 0, k) ==> source[k] == Blanked(source[k]) {
      forall j | 0 <= j < b - a ensures out[j] == blank[j] {
        assert out[j] == if Code(source, 0, a + j) then source[a + j] else Blanked(source[a + j]) by { MaskedPosition(source, 0, a + j); }
      }
    }
    if out == blank {
      forall k | a <= k < b && Code(source, 0, k) ensures source[k] == Blanked(source[k]) {
        assert out[k - a] == blank[k - a];
      }
    }
  }

  /** Where the scan stands at a character literal, the masker blanks it if and only if its body
      has at most two characters: hexadecimal and Unicode escapes are missed. */
  lemma CharacterMasked(source: string, i: nat, close: nat)
    requires CharacterLiteral(source, i, close) && Stands(source, 0, i)
    ensures Mask(source, 0)[i..close + 1] == BlankText(source[i..close + 1]) <==> close <= i + 3
  {
    hide SpanEnd, Mask;
    CharacterSpans(source, i, close);
    MaskFrom(source, 0, i);
    var out, rest := Mask(source, 0), Mask(source, i);
    assert out[i..close + 1] == out[i..][..close + 1 - i] == rest[..close + 1 - i];
    if close <= i + 3 {
      MaskSpan(source, i, close + 1);
    } else {
      MaskCode(source, i);
      assert rest[0] == '\'' && BlankText(source[i..close + 1])[0] == ' ';
    }
  }

  /** How the scan leaves a literal where it stands: after one that it masks it stands behind it;
      after one that it misses it stands at the closing quote, and it gets behind that quote, in
      step with the source again, if and only if the quote opens no span. */
  lemma AfterLiteral(source: string, i: nat, close: nat)
    requires CharacterLiteral(source, i, close) && Stands(source, 0, i)
    ensures close <= i + 3 ==> Stands(source, 0, close + 1)
    ensures close > i + 3 ==> Stands(source, 0, close)
    ensures close > i + 3 ==> (Stands(source, 0, close + 1) <==> SpanEnd(source, close).None?)
  {
    hide SpanEnd;
    CharacterSpans(source, i, close);
    if close <= i + 3 {
      StandsNext(source, 0, i);
    } else {
      StandsAlong(source, 0, i, close);
      StandsNext(source, 0, close);
      SpanStarts(source, close);
      QuoteSpan(source, close);
      if SpanEnd(source, close).Some? { NotInside(source, 0, close, close + 1); }
    }
  }

  lemma {:induction false} StandsAlong(source: string, from: nat, i: nat, end: nat)
    requires i <= end <= |source| && Stands(source, from, i) && forall k :: i <= k < end ==> SpanEnd(source, k).None?
    ensures Stands(source, from, end)
    decreases end - i
  {
    hide SpanEnd;
    if i < end {
      StandsNext(source, from, i);
      StandsAlong(source, from, i + 1, end);
    }
  }

  lemma QuoteSpan(source: string, i: nat)
    requires i < |source| && source[i] == '\''
    ensures SpanEnd(source, i).Some? ==> SpanEnd(source, i).value > i + 1
  {}

  lemma Associate(a: string, b: string, c: string)
    ensures a + (b + c) == a + b + c
  {}

  /** The knock-on: one character on, a quote closes what the quote of a missed literal opened, and
      whatever stands between the two is blanked in place of it. */
  lemma MissedLiteralKnocksOn(source: string, i: nat, close: nat)
    requires CharacterLiteral(source, i, close) && close > i + 3
    requires close + 2 < |source| && source[close + 1] != '\\' && source[close + 2] == '\''
    ensures Mask(source, i) == source[i..close] + BlankText(source[close..close + 3]) + Mask(source, close + 3)
  {
    hide SpanEnd, Mask, BlankText;
    MissedLiteralSurvives(source, i, close);
    QuoteThree(source, close);
    MaskSpan(source, close, close + 3);
    Associate(source[i..close], BlankText(source[close..close + 3]), Mask(source, close + 3));
  }

  /** A brace in a literal that comes right after a missed one stays in the masked text. */
  lemma KnockOnExample()
    ensures var s := "'\\x41','{'";
      CharacterLiteral(s, 0, 5) && CharacterLiteral(s, 7, 9) && !Stands(s, 0, 7) && Mask(s, 0)[8] == '{'
  {
    var s := "'\\x41','{'";
    hide SpanEnd, Mask, Stands;
    StandsStart(s);
    AfterLiteral(s, 0, 5);
    assert SpanEnd(s, 5) == Some(8) by { QuoteThree(s, 5); }
    StandsNext(s, 0, 5);
    NotInside(s, 0, 5, 7);
    assert SpanEnd(s, 8).None? by { PlainBrace(s, 8); }
    MaskedPosition(s, 0, 8);
  }

  lemma StandsStart(source: string)
    ensures Stands(source, 0, 0)
  {}

  lemma QuoteThree(source: string, i: nat)
    requires i + 2 < |source| && source[i] == '\'' && source[i + 1] != '\\' && source[i + 2] == '\''
    ensures SpanEnd(source, i) == Some(i + 3)
  {}

  lemma PlainBrace(source: string, i: nat)
    requires i < |source| && source[i] == '{'
    ensures SpanEnd(source, i).None?
  {}

  /** The scan never stands inside a span that starts where it stands. */
  lemma {:induction false} NotInside(source: string, from: nat, i: nat, k: nat)
    requires i < |source| && Stands(source, from, i) && SpanEnd(source, i).Some? && i < k < SpanEnd(source, i).value
    ensures !Stands(source, from, k)
    decreases |source| - from
  {
    hide SpanEnd;
    SpanStarts(source, from);
    StandsBounds(source, from, i);
    if from < i {
      match SpanEnd(source, from)
      case Some(end) =>
        StandsBounds(source, end, i);
        NotInside(source, end, i, k);
      case None => NotInside(source, from + 1, i, k);
    } else if Stands(source, SpanEnd(source, i).value, k) {
      StandsBounds(source, SpanEnd(source, i).value, k);
    }
  }

  // ----- the loops

  /** `blank`. */
  method Blank(buffer: array<char>, start: nat, end: nat)
    modifies buffer
    ensures forall p :: 0 <= p < buffer.Length ==>
      buffer[p] == if start <= p < end then Blanked(old(buffer[p])) else old(buffer[p])
  {
    var stop := if end < buffer.Length then end else buffer.Length;
    var index := start;
    while index < stop
      invariant start <= index && (index <= stop || index == start)
      invariant forall p :: 0 <= p < buffer.Length ==>
        buffer[p] == if start <= p < index then Blanked(old(buffer[p])) else old(buffer[p])
    {
      if buffer[index] != '\r' && buffer[index] != '\n' {
        buffer[index] := ' ';
      }
      index := index + 1;
    }
  }

  /** What the buffer holds when the scan stands at `index`: the mask so far, then the source. */
  ghost predicate MaskedUpTo(source: string, buffer: seq<char>, index: nat) {
    && index <= |source| == |buffer|
    && Mask(source, 0) == buffer[..index] + Mask(source, index)
    && buffer[index..] == source[index..]
  }

  lemma SpanMasked(source: string, buffer: seq<char>, index: nat, after: seq<char>, end: nat)
    requires MaskedUpTo(source, buffer, index) && index < |source| && SpanEnd(source, index) == Some(end)
    requires |after| == |buffer|
    requires forall p :: 0 <= p < |buffer| ==> after[p] == if index <= p < end then Blanked(buffer[p]) else buffer[p]
    ensures MaskedUpTo(source, after, end)
  {
    hide SpanEnd, Blanked, BlankText, Mask;
    MaskSpan(source, index, end);
    var span, rest := BlankText(source[index..end]), Mask(source, end);
    BufferAgrees(source, buffer, index);
    assert after[..end] == buffer[..index] + span;
    assert after[end..] == source[end..];
    assert buffer[..index] + (span + rest) == after[..end] + rest;
  }

  lemma BufferAgrees(source: string, buffer: seq<char>, index: nat)
    requires index <= |source| == |buffer| && buffer[index..] == source[index..]
    ensures forall p :: index <= p < |source| ==> buffer[p] == source[p]
  {
    assert forall p :: index <= p < |source| ==> buffer[p] == buffer[index..][p - index];
  }

  lemma CodeKept(source: string, buffer: seq<char>, index: nat)
    requires MaskedUpTo(source, buffer, index) && index < |source| && SpanEnd(source, index).None?
    ensures MaskedUpTo(source, buffer, index + 1)
  {
    hide SpanEnd, Mask;
    MaskCode(source, index);
    assert buffer[index] == buffer[index..][0] == source[index];
    assert buffer[..index + 1] == buffer[..index] + [source[index]];
    assert buffer[index + 1..] == buffer[index..][1..] == source[index + 1..];
  }

  /** The branches of the scan at one position. */
  method ScanAt(source: string, index: nat) returns (end: Option<nat>)
    requires index < |source|
    ensures end == SpanEnd(source, index)
  {
    hide CommentEnd, RawStringEnd, QuotedLiteralEnd, CharacterLiteralEnd;
    if Pair(source, index, '/', '/') {
      LineEndFound(source, index + 2);
      var newline := FindText(source, ['\n'], index + 2);
      return Some(match newline case Some(e) => e case None => |source|);
    }
    if Pair(source, index, '/', '*') {
      var close := NestedBlockCommentEnd(source, index);
      return Some(close);
    }
    if source[index] in "br" {
      var raw := RawEnd(source, index);
      if raw.Some? {
        return raw;
      }
    }
    if source[index] == '"' {
      var close := QuotedEnd(source, index);
      return Some(close);
    }
    if source[index] == '\'' {
      return CharacterLiteralEnd(source, index);
    }
    return None;
  }

  lemma {:induction false} LineEndFound(source: string, index: nat)
    requires index <= |source|
    ensures LineEnd(source, index) == match FindText(source, ['\n'], index) case Some(e) => e case None => |source|
    decreases |source| - index
  {
    if index < |source| {
      assert source[index..index + 1] == [source[index]];
      if source[index] != '\n' { LineEndFound(source, index + 1); }
    }
  }

  /** The loop of `raw_string_end` over its hashes. */
  method HashRun(source: string, start: nat) returns (index: nat)
    requires start <= |source|
    ensures index == HashEnd(source, start, MAX_HASHES)
  {
    index := start;
    while index < |source| && source[index] == '#' && index - start < MAX_HASHES
      invariant start <= index <= |source| && index - start <= MAX_HASHES
      invariant HashEnd(source, index, MAX_HASHES - (index - start)) == HashEnd(source, start, MAX_HASHES)
    {
      index := index + 1;
    }
  }

  method RawEnd(source: string, start: nat) returns (r: Option<nat>)
    requires start < |source|
    ensures r == RawStringEnd(source, start)
  {
    hide HashEnd, FindText, RawPrefix;
    var prefix := RawPrefix(source, start);
    if prefix.None? {
      return None;
    }
    var index := HashRun(source, prefix.value);
    if index >= |source| || source[index] != '"' {
      return None;
    }
    var terminator := ['"'] + source[prefix.value..index];
    var closing := FindText(source, terminator, index + 1);
    return Some(match closing case None => |source| case Some(c) => c + |terminator|);
  }

  /** The loop of `quoted_literal_end`. */
  method QuotedEnd(source: string, start: nat) returns (end: nat)
    requires start < |source|
    ensures end == QuotedLiteralEnd(source, start)
  {
    var index := start + 1;
    while index < |source|
      invariant QuoteEnd(source, index, '"', false) == QuoteEnd(source, start + 1, '"', false)
    {
      if source[index] == '\\' {
        index := index + 2;
      } else if source[index] == '"' {
        return index + 1;
      } else {
        index := index + 1;
      }
    }
    return |source|;
  }

  /** `mask_rust_non_code`. */
  method MaskRustNonCode(source: string) returns (out: string)
    ensures out == Mask(source, 0)
  {
    hide SpanEnd, Mask;
    var masked := new char[|source|](i requires 0 <= i < |source| => source[i]);
    assert masked[..] == source;
    var index := 0;
    while index < |source|
      invariant index <= |source|
      invariant MaskedUpTo(source, masked[..], index)
    {
      var end := ScanAt(source, index);
      SpanStarts(source, index);
      if end.Some? {
        ghost var before := masked[..];
        Blank(masked, index, end.value);
        SpanMasked(source, before, index, masked[..], end.value);
        index := end.value;
      } else {
        CodeKept(source, masked[..], index);
        index := index + 1;
      }
    }
    MaskEnd(source);
    return masked[..];
  }

  lemma MaskEnd(source: string)
    ensures Mask(source, |source|) == []
  {}
}
