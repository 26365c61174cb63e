/** The tokenizer of Rust source text. */
module RustTokens {
  import opened Results
  import opened RustText

  /** The Unicode classes that the scan consults. */
  datatype Classes = Classes(space: char -> bool, alpha: char -> bool, alnum: char -> bool)

  datatype Token = Token(text: string, start: nat, end: nat, identifier: bool)

  // ----- literals

  /** `_quoted_end` on a literal that must be closed. */
  function MustClose(source: string, open: nat, quote: char): (r: Result<Option<nat>>)
    ensures r.Ok? ==> r.value.Some? && open < r.value.value <= |source|
  {
    match QuoteEnd(source, open + 1, quote, true)
    case Some(e) => Ok(Some(e))
    case None => Err
  }

  /** `_raw_string_end`. */
  function RawEnd(source: string, start: nat): (r: Result<Option<nat>>)
    ensures r.Ok? && r.value.Some? ==> start < r.value.value <= |source|
  {
    if Pair(source, start, 'b', 'r') || Pair(source, start, 'c', 'r') then RawAfter(source, start + 2)
    else if start < |source| && source[start] == 'r' then RawAfter(source, start + 1)
    else Ok(None)
  }

  function RawAfter(source: string, prefixEnd: nat): (r: Result<Option<nat>>)
    requires prefixEnd <= |source|
    ensures r.Ok? && r.value.Some? ==> prefixEnd < r.value.value <= |source|
  {
    var quote := HashEnd(source, prefixEnd, |source|);
    if quote == |source| || source[quote] != '"' then Ok(None)
    else
      var terminator := Terminator(quote - prefixEnd);
      match FindText(source, terminator, quote + 1)
      case None => Err
      case Some(end) => Ok(Some(end + |terminator|))
  }

  /** `_literal_end`. */
  function LiteralEnd(source: string, start: nat): (r: Result<Option<nat>>)
    requires start < |source|
    ensures r.Ok? && r.value.Some? ==> start < r.value.value <= |source|
  {
    var raw := RawEnd(source, start);
    if raw.Err? || raw.value.Some? then raw
    else if Pair(source, start, 'b', '"') || Pair(source, start, 'c', '"') then MustClose(source, start + 1, '"')
    else if source[start] == '"' then MustClose(source, start, '"')
    else if Pair(source, start, 'b', '\'') then MustClose(source, start + 1, '\'')
    else if source[start] == '\'' then Ok(QuoteEnd(source, start + 1, '\'', true))
    else Ok(None)
  }

  /** A quote swallows everything up to the next quote on its line when no backslash stands between:
      two lifetimes on one line are taken for one literal, with all that is between them. */
  lemma QuotedStretch(source: string, start: nat, close: nat)
    requires start < close < |source| && source[start] == '\'' && source[close] == '\''
    requires forall k :: start < k < close ==> source[k] != '\'' && source[k] != '\\' && source[k] != '\n'
    ensures LiteralEnd(source, start) == Ok(Some(close + 1))
  {
    PlainQuotedText(source, start + 1, close, '\'', true);
  }

  /** And a quote that no other quote follows on its line swallows nothing. */
  lemma LoneQuote(source: string, start: nat, end: nat)
    requires start < end <= |source| && source[start] == '\'' && (end == |source| || source[end] == '\n')
    requires forall k :: start < k < end ==> source[k] != '\'' && source[k] != '\\' && source[k] != '\n'
    ensures LiteralEnd(source, start) == Ok(None)
  {
    PlainQuotedText(source, start + 1, end, '\'', true);
  }

  /** At any quote of any source: a literal is taken to start if and only if a quote closes it on its
      line, escapes skipped, and it ends there.  Whether the quote belongs to a lifetime is not asked. */
  lemma QuoteTaken(source: string, start: nat)
    requires start < |source| && source[start] == '\''
    ensures match LiteralEnd(source, start)
      case Ok(Some(e)) => e > start + 1 && Closing(source, start + 1, e - 1, '\'', true)
      case Ok(None) => Unclosed(source, start + 1, '\'', true)
      case Err => false
  {
    hide Closing, Unclosed;
    QuoteEndMeaning(source, start + 1, '\'', true);
  }

  /** So on a line whose rest has no backslash, a quote is taken for the start of a literal if and
      only if another quote follows on the line, and the literal ends with the next one. */
  lemma LifetimeSwallows(source: string, start: nat, end: nat)
    requires start < end <= |source| && source[start] == '\'' && (end == |source| || source[end] == '\n')
    requires forall k :: start < k < end ==> source[k] != '\\' && source[k] != '\n'
    ensures LiteralEnd(source, start).Ok?
    ensures LiteralEnd(source, start).value.Some? <==> exists k :: start < k < end && source[k] == '\''
    ensures LiteralEnd(source, start).value.Some? ==>
      var next := LiteralEnd(source, start).value.value - 1;
      start < next < end && source[next] == '\'' && forall k :: start < k < next ==> source[k] != '\''
  {
    hide LiteralEnd;
    var next := NextQuote(source, start + 1, end);
    if next < end {
      QuotedStretch(source, start, next);
    } else {
      LoneQuote(source, start, end);
    }
  }

  /** The first quote in `[from, end)`, or `end`. */
  function NextQuote(source: string, from: nat, end: nat): (k: nat)
    requires from <= end <= |source|
    ensures from <= k <= end && (k < end ==> source[k] == '\'')
    ensures forall j :: from <= j < k ==> source[j] != '\''
    decreases end - from
  {
    if from == end || source[from] == '\'' then from else NextQuote(source, from + 1, end)
  }

  /** The parenthesis that opens a parameter list between two lifetimes is lost, and the one that
      closes it is not. */
  lemma LifetimesExample()
    ensures LiteralEnd("'a>(x: &'a str)", 0) == Ok(Some(9))
  {
    QuotedStretch("'a>(x: &'a str)", 0, 8);
  }

  // ----- tokens

  predicate WordCharacter(c: Classes, ch: char) {
    ch == '_' || c.alnum(ch)
  }

  /** The longest run of word characters. */
  function IdentifierEnd(c: Classes, source: string, index: nat): (end: nat)
    requires index <= |source|
    ensures index <= end <= |source|
    ensures forall i :: index <= i < end ==> WordCharacter(c, source[i])
    ensures end < |source| ==> !WordCharacter(c, source[end])
    decreases |source| - index
  {
    if index < |source| && WordCharacter(c, source[index]) then IdentifierEnd(c, source, index + 1)
    else index
  }

  function AfterLine(source: string, index: nat): (next: nat)
    requires index <= |source|
    ensures index <= next <= |source|
  {
    match FindText(source, ['\n'], index)
    case None => |source|
    case Some(e) => e + 1
  }

  /** What the scan meets at one position. */
  datatype Lexeme = Skip(next: nat) | Emit(token: Token) | Fail

  function LexemeAt(c: Classes, source: string, i: nat): (l: Lexeme)
    requires i < |source|
    ensures l.Skip? ==> i < l.next <= |source|
    ensures l.Emit? ==> l.token.start == i < l.token.end <= |source| && l.token.text == source[i..l.token.end]
  {
    if c.space(source[i]) then Skip(i + 1)
    else if Pair(source, i, '/', '/') then Skip(AfterLine(source, i + 2))
    else if Pair(source, i, '/', '*') then
      match CommentEnd(source, i + 2, 1) case Some(e) => Skip(e) case None => Fail
    else
      match LiteralEnd(source, i)
      case Err => Fail
      case Ok(Some(e)) => Skip(e)
      case Ok(None) =>
        if source[i] == '_' || c.alpha(source[i]) then
          var end := IdentifierEnd(c, source, i + 1);
          Emit(Token(source[i..end], i, end, true))
        else Emit(Token(source[i..i + 1], i, i + 1, false))
  }

  function TokensFrom(c: Classes, source: string, i: nat): Result<seq<Token>>
    requires i <= |source|
    decreases |source| - i
  {
    if i == |source| then Ok([])
    else
      match LexemeAt(c, source, i)
      case Fail => Err
      case Skip(next) => TokensFrom(c, source, next)
      case Emit(t) =>
        match TokensFrom(c, source, t.end)
        case Err => Err
        case Ok(rest) => Ok([t] + rest)
  }

  /** Ordered, disjoint, exact, non-empty slices of the source, from `from` on. */
  ghost predicate Slices(source: string, tokens: seq<Token>, from: nat) {
    && (forall k :: 0 <= k < |tokens| ==>
          from <= tokens[k].start < tokens[k].end <= |source| && tokens[k].text == source[tokens[k].start..tokens[k].end])
    && (forall j, k :: 0 <= j < k < |tokens| ==> tokens[j].end <= tokens[k].start)
  }

  lemma {:induction false} TokensAreSlices(c: Classes, source: string, i: nat)
    requires i <= |source| && TokensFrom(c, source, i).Ok?
    ensures Slices(source, TokensFrom(c, source, i).value, i)
    decreases |source| - i
  {
    hide LexemeAt;
    if i < |source| {
      LexemeBounds(c, source, i);
      match LexemeAt(c, source, i)
      case Skip(next) => TokensAreSlices(c, source, next);
      case Emit(t) => TokensAreSlices(c, source, t.end);
    }
  }

  lemma LexemeBounds(c: Classes, source: string, i: nat)
    requires i < |source|
    ensures var l := LexemeAt(c, source, i);
      && (l.Skip? ==> i < l.next <= |source|)
      && (l.Emit? ==> l.token.start == i < l.token.end <= |source| && l.token.text == source[i..l.token.end])
  {}

  // ----- the loops

  method CountHashes(source: string, prefixEnd: nat) returns (hashes: nat)
    requires prefixEnd <= |source|
    ensures prefixEnd + hashes == HashEnd(source, prefixEnd, |source|)
  {
    hashes := 0;
    while prefixEnd + hashes < |source| && source[prefixEnd + hashes] == '#'
      invariant prefixEnd + hashes <= |source|
      invariant HashEnd(source, prefixEnd + hashes, |source| - hashes) == HashEnd(source, prefixEnd, |source|)
      decreases |source| - hashes
    {
      hashes := hashes + 1;
    }
  }

  method QuotedEnd(source: string, start: nat, quote: char) returns (r: Option<nat>)
    requires start < |source|
    ensures r == QuoteEnd(source, start + 1, quote, true)
  {
    var index := start + 1;
    while index < |source|
      invariant QuoteEnd(source, index, quote, true) == QuoteEnd(source, start + 1, quote, true)
    {
      var ch := source[index];
      if ch == '\\' {
        index := index + 2;
        continue;
      }
      if ch == quote {
        return Some(index + 1);
      }
      if ch == '\n' {
        break;
      }
      index := index + 1;
    }
    return None;
  }

  method ScanIdentifier(c: Classes, source: string, start: nat) returns (end: nat)
    requires start < |source|
    ensures end == IdentifierEnd(c, source, start + 1)
  {
    end := start + 1;
    while end < |source| && WordCharacter(c, source[end])
      invariant end <= |source|
      invariant IdentifierEnd(c, source, end) == IdentifierEnd(c, source, start + 1)
    {
      end := end + 1;
    }
  }

  method ScanRaw(source: string, prefixEnd: nat) returns (r: Result<Option<nat>>)
    requires prefixEnd <= |source|
    ensures r == RawAfter(source, prefixEnd)
  {
    hide HashEnd, FindText, Terminator;
    var hashes := CountHashes(source, prefixEnd);
    var quote := prefixEnd + hashes;
    if quote >= |source| || source[quote] != '"' {
      return Ok(None);
    }
    var terminator := Terminator(hashes);
    var end := FindText(source, terminator, quote + 1);
    if end.None? {
      return Err;
    }
    return Ok(Some(end.value + |terminator|));
  }

  method ScanClosed(source: string, open: nat, quote: char) returns (r: Result<Option<nat>>)
    requires open < |source|
    ensures r == MustClose(source, open, quote)
  {
    var end := QuotedEnd(source, open, quote);
    return if end.Some? then Ok(end) else Err;
  }

  method ScanLiteral(source: string, start: nat) returns (r: Result<Option<nat>>)
    requires start < |source|
    ensures r == LiteralEnd(source, start)
  {
    hide RawAfter, MustClose, QuoteEnd;
    var raw: Result<Option<nat>> := Ok(None);
    if Pair(source, start, 'b', 'r') || Pair(source, start, 'c', 'r') {
      raw := ScanRaw(source, start + 2);
    } else if source[start] == 'r' {
      raw := ScanRaw(source, start + 1);
    }
    if raw.Err? || raw.value.Some? {
      return raw;
    }
    if Pair(source, start, 'b', '"') || Pair(source, start, 'c', '"') {
      r := ScanClosed(source, start + 1, '"');
    } else if source[start] == '"' {
      r := ScanClosed(source, start, '"');
    } else if Pair(source, start, 'b', '\'') {
      r := ScanClosed(source, start + 1, '\'');
    } else if source[start] == '\'' {
      var closing := QuotedEnd(source, start, '\'');
      r := Ok(closing);
    } else {
      r := Ok(None);
    }
  }

  method ScanLexeme(c: Classes, source: string, i: nat) returns (l: Lexeme)
    requires i < |source|
    ensures l == LexemeAt(c, source, i)
  {
    hide LiteralEnd, CommentEnd, AfterLine, IdentifierEnd;
    if c.space(source[i]) {
      return Skip(i + 1);
    }
    if Pair(source, i, '/', '/') {
      return Skip(AfterLine(source, i + 2));
    }
    if Pair(source, i, '/', '*') {
      var end := SkipBlockComment(source, i);
      return match end case Ok(e) => Skip(e) case Err => Fail;
    }
    var literal := ScanLiteral(source, i);
    if literal.Err? {
      return Fail;
    }
    if literal.value.Some? {
      return Skip(literal.value.value);
    }
    if source[i] == '_' || c.alpha(source[i]) {
      var end := ScanIdentifier(c, source, i);
      return Emit(Token(source[i..end], i, end, true));
    }
    return Emit(Token(source[i..i + 1], i, i + 1, false));
  }

  function Prepend(done: seq<Token>, rest: Result<seq<Token>>): Result<seq<Token>> {
    if rest.Err? then Err else Ok(done + rest.value)
  }

  lemma PrependNothing(r: Result<seq<Token>>)
    ensures Prepend([], r) == r
  {
    if r.Ok? { assert [] + r.value == r.value; }
  }

  /** `_tokens`. */
  method Tokens(c: Classes, source: string) returns (r: Result<seq<Token>>)
    ensures r == TokensFrom(c, source, 0)
    ensures r.Ok? ==> Slices(source, r.value, 0)
  {
    hide LexemeAt, TokensFrom, Slices;
    var tokens: seq<Token> := [];
    var index := 0;
    PrependNothing(TokensFrom(c, source, 0));
    while index < |source|
      invariant index <= |source|
      invariant TokensFrom(c, source, 0) == Prepend(tokens, TokensFrom(c, source, index))
    {
      var l := ScanLexeme(c, source, index);
      TokensStep(c, source, index, tokens);
      LexemeBounds(c, source, index);
      match l
      case Fail =>
        return Err;
      case Skip(next) =>
        index := next;
      case Emit(t) =>
        tokens := tokens + [t];
        index := t.end;
    }
    TokensEnd(c, source);
    if TokensFrom(c, source, 0).Ok? { TokensAreSlices(c, source, 0); }
    assert tokens + [] == tokens;
    return Ok(tokens);
  }

  lemma TokensStep(c: Classes, source: string, i: nat, done: seq<Token>)
    requires i < |source|
    ensures match LexemeAt(c, source, i)
      case Fail => TokensFrom(c, source, i).Err?
      case Skip(next) => TokensFrom(c, source, i) == TokensFrom(c, source, next)
      case Emit(t) => Prepend(done, TokensFrom(c, source, i)) == Prepend(done + [t], TokensFrom(c, source, t.end))
  {
    hide LexemeAt;
    LexemeBounds(c, source, i);
    if LexemeAt(c, source, i).Emit? {
      var t := LexemeAt(c, source, i).token;
      var rest := TokensFrom(c, source, t.end);
      if rest.Ok? { assert done + ([t] + rest.value) == done + [t] + rest.value; }
    }
  }

  lemma TokensEnd(c: Classes, source: string)
    ensures TokensFrom(c, source, |source|) == Ok([])
  {}
}
