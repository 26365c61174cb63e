/** Extracting the bodies of `#[test]` functions from a token list. */
module RustTestBodies {
  import opened Results
  import opened Brackets
  import opened RustTokens

  // ----- brackets of a token list

  function Weight(t: Token, opening: string, closing: string): int {
    if t.text == opening then 1 else if t.text == closing then -1 else 0
  }

  function TokenWeights(tokens: seq<Token>, opening: string, closing: string): (w: seq<int>)
    ensures |w| == |tokens| && Weights(w)
    ensures forall i :: 0 <= i < |w| ==> w[i] == Weight(tokens[i], opening, closing)
  {
    seq(|tokens|, i requires 0 <= i < |tokens| => Weight(tokens[i], opening, closing))
  }

  /** The token that matches the opening bracket at `start`. */
  function Match(tokens: seq<Token>, start: nat, opening: string, closing: string): (r: Option<nat>)
    requires start < |tokens|
  {
    if tokens[start].text != opening then None
    else Close(TokenWeights(tokens, opening, closing), start + 1, 1)
  }

  /** `end` closes the bracket at `start`: the first place where the depth is zero again. */
  ghost predicate Matches(tokens: seq<Token>, start: nat, end: nat, opening: string, closing: string) {
    && start < end < |tokens| && tokens[start].text == opening && tokens[end].text == closing
    && Closes(TokenWeights(tokens, opening, closing), start + 1, end)
  }

  lemma MatchMeaning(tokens: seq<Token>, start: nat, opening: string, closing: string)
    requires start < |tokens| && opening != closing
    ensures match Match(tokens, start, opening, closing)
      case Some(end) => Matches(tokens, start, end, opening, closing)
      case None => tokens[start].text != opening || NeverCloses(TokenWeights(tokens, opening, closing), start + 1)
  {
    hide Closes, NeverCloses;
    var w := TokenWeights(tokens, opening, closing);
    CloseMeaning(w, start + 1);
    if tokens[start].text == opening && Close(w, start + 1, 1).Some? {
      var end := Close(w, start + 1, 1).value;
      assert start < end < |w| by { ClosesBounds(w, start + 1, end); }
      InsideBalanced(w, start + 1, end);
    }
  }

  lemma ClosesBounds(w: seq<int>, from: nat, close: nat)
    requires Closes(w, from, close)
    ensures from <= close < |w|
  {}

  /** `_matching`. */
  method Matching(tokens: seq<Token>, start: nat, opening: string, closing: string) returns (r: Result<nat>)
    requires start < |tokens| && opening != closing
    ensures r == match Match(tokens, start, opening, closing) case Some(e) => Ok(e) case None => Err
  {
    hide TokenWeights;
    if tokens[start].text != opening {
      return Err;
    }
    ghost var w := TokenWeights(tokens, opening, closing);
    var depth: nat := 0;
    for index := start to |tokens|
      invariant index == start ==> depth == 0
      invariant index > start ==> depth > 0 && Close(w, index, depth) == Close(w, start + 1, 1)
    {
      assert w[index] == Weight(tokens[index], opening, closing);
      if tokens[index].text == opening {
        depth := depth + 1;
      } else if tokens[index].text == closing {
        depth := depth - 1;
        if depth == 0 {
          return Ok(index);
        }
      }
    }
    return Err;
  }

  // ----- where a body starts

  /** Outside all parentheses and square brackets opened since `start`. */
  predicate TopLevel(tokens: seq<Token>, start: nat, k: nat)
    requires start <= k <= |tokens|
  {
    && Depth(TokenWeights(tokens, "(", ")"), start, k) == 0
    && Depth(TokenWeights(tokens, "[", "]"), start, k) == 0
  }

  predicate Stops(tokens: seq<Token>, start: nat, k: nat)
    requires start <= k < |tokens|
  {
    (tokens[k].text == "{" || tokens[k].text == ";") && TopLevel(tokens, start, k)
  }

  /** The first top-level brace or semicolon at or after `k`. */
  function FirstStop(tokens: seq<Token>, start: nat, k: nat): (r: Option<nat>)
    requires start <= k <= |tokens|
    ensures r.Some? ==> k <= r.value < |tokens| && Stops(tokens, start, r.value)
    ensures forall j :: k <= j < (if r.Some? then r.value else |tokens|) ==> !Stops(tokens, start, j)
    decreases |tokens| - k
  {
    if k == |tokens| then None else if Stops(tokens, start, k) then Some(k) else FirstStop(tokens, start, k + 1)
  }

  /** The body's brace, unless a semicolon comes first. */
  function BodyStart(tokens: seq<Token>, start: nat): (r: Option<nat>)
    requires start <= |tokens|
    ensures r.Some? ==> start <= r.value < |tokens| && tokens[r.value].text == "{" && TopLevel(tokens, start, r.value)
  {
    var stop := FirstStop(tokens, start, start);
    if stop.Some? && tokens[stop.value].text == "{" then stop else None
  }

  /** One turn of the search: what the current token does to both depths, and whether it stops. */
  lemma StopStep(tokens: seq<Token>, start: nat, k: nat)
    requires start <= k < |tokens|
    ensures var round, square := TokenWeights(tokens, "(", ")"), TokenWeights(tokens, "[", "]");
      && Depth(round, start, k + 1) == Depth(round, start, k) + Weight(tokens[k], "(", ")")
      && Depth(square, start, k + 1) == Depth(square, start, k) + Weight(tokens[k], "[", "]")
      && (Stops(tokens, start, k) <==>
            (tokens[k].text == "{" || tokens[k].text == ";") && Depth(round, start, k) == 0 && Depth(square, start, k) == 0)
    ensures FirstStop(tokens, start, k) == if Stops(tokens, start, k) then Some(k) else FirstStop(tokens, start, k + 1)
  {
    hide TokenWeights;
  }

  lemma StopEnd(tokens: seq<Token>, start: nat)
    requires start <= |tokens|
    ensures FirstStop(tokens, start, |tokens|).None?
    ensures Depth(TokenWeights(tokens, "(", ")"), start, start) == 0
    ensures Depth(TokenWeights(tokens, "[", "]"), start, start) == 0
  {}

  /** `_function_body_start`. */
  method FunctionBodyStart(tokens: seq<Token>, start: nat) returns (r: Result<nat>)
    requires start <= |tokens|
    ensures r == match BodyStart(tokens, start) case Some(k) => Ok(k) case None => Err
  {
    hide TokenWeights, FirstStop, Depth, Stops;
    ghost var round, square := TokenWeights(tokens, "(", ")"), TokenWeights(tokens, "[", "]");
    var parentheses, brackets := 0, 0;
    StopEnd(tokens, start);
    for index := start to |tokens|
      invariant parentheses == Depth(round, start, index) && brackets == Depth(square, start, index)
      invariant FirstStop(tokens, start, start) == FirstStop(tokens, start, index)
    {
      var text := tokens[index].text;
      StopStep(tokens, start, index);
      if text == "(" {
        parentheses := parentheses + 1;
      } else if text == ")" {
        parentheses := parentheses - 1;
      } else if text == "[" {
        brackets := brackets + 1;
      } else if text == "]" {
        brackets := brackets - 1;
      } else if text == "{" && parentheses == 0 && brackets == 0 {
        return Ok(index);
      } else if text == ";" && parentheses == 0 && brackets == 0 {
        return Err;
      }
    }
    return Err;
  }

  lemma {:induction false} NeverOpened(tokens: seq<Token>, start: nat, c: nat, k: nat)
    requires start <= c < |tokens| && tokens[c].text == ")" && start <= k <= |tokens|
    requires forall j :: start <= j < |tokens| ==> tokens[j].text != "("
    ensures Depth(TokenWeights(tokens, "(", ")"), start, k) <= if k > c then -1 else 0
    decreases k
  {
    if k > start { NeverOpened(tokens, start, c, k - 1); }
  }

  /** When a parenthesis closes that none has opened, as between two lifetimes, no body is found
      behind it. */
  lemma UnopenedParenthesis(tokens: seq<Token>, start: nat, c: nat)
    requires start <= c < |tokens| && tokens[c].text == ")"
    requires forall j :: start <= j < |tokens| ==> tokens[j].text != "("
    requires forall j :: start <= j < c ==> tokens[j].text != "{" && tokens[j].text != ";"
    ensures BodyStart(tokens, start).None?
  {
    hide TokenWeights, Depth;
    var stop := FirstStop(tokens, start, start);
    if stop.Some? && stop.value != c { NeverOpened(tokens, start, c, stop.value); }
  }

  // ----- the extraction

  /** One extracted function: its `fn` token and the braces of its body. */
  datatype Site = Site(fn: nat, open: nat, close: nat)

  predicate AttributeAt(tokens: seq<Token>, i: nat) {
    i + 1 < |tokens| && tokens[i].text == "#" && tokens[i + 1].text == "["
  }

  /** `#[test]`, with its closing bracket at `end`. */
  predicate IsTest(tokens: seq<Token>, i: nat, end: nat) {
    end == i + 3 < |tokens| && tokens[i + 2].identifier && tokens[i + 2].text == "test"
  }

  predicate FnAt(tokens: seq<Token>, i: nat) {
    i < |tokens| && tokens[i].identifier && tokens[i].text == "fn"
  }

  /** The function whose `fn` stands at `i`, if it has a name and a closed body. */
  function SiteAt(tokens: seq<Token>, i: nat): Option<Site>
    requires i < |tokens|
  {
    if i + 1 >= |tokens| || !tokens[i + 1].identifier then None
    else
      match BodyStart(tokens, i + 2)
      case None => None
      case Some(open) =>
        match Match(tokens, open, "{", "}")
        case None => None
        case Some(close) => Some(Site(i, open, close))
  }

  function Cons(s: Site, rest: Result<seq<Site>>): Result<seq<Site>> {
    if rest.Err? then Err else Ok([s] + rest.value)
  }

  /** The functions found from token `i` on, where `pending` says whether a `#[test]` is waiting. */
  function Scan(tokens: seq<Token>, i: nat, pending: bool): Result<seq<Site>>
    requires i <= |tokens|
    decreases |tokens| - i
  {
    if i == |tokens| then Ok([])
    else if AttributeAt(tokens, i) then
      match Match(tokens, i + 1, "[", "]")
      case None => Err
      case Some(end) => (MatchMeaning(tokens, i + 1, "[", "]"); Scan(tokens, end + 1, pending || IsTest(tokens, i, end)))
    else if FnAt(tokens, i) && pending then
      if SiteAt(tokens, i).None? then Err else Cons(SiteAt(tokens, i).value, Scan(tokens, i + 1, false))
    else Scan(tokens, i + 1, pending)
  }

  /** The site's braces match and open at top level after the name. */
  ghost predicate GoodSite(tokens: seq<Token>, s: Site) {
    && s.fn + 2 <= s.open < s.close < |tokens|
    && FnAt(tokens, s.fn) && tokens[s.fn + 1].identifier
    && Matches(tokens, s.open, s.close, "{", "}")
    && BodyStart(tokens, s.fn + 2) == Some(s.open)
  }

  lemma SiteIsGood(tokens: seq<Token>, i: nat)
    requires FnAt(tokens, i) && SiteAt(tokens, i).Some?
    ensures GoodSite(tokens, SiteAt(tokens, i).value) && SiteAt(tokens, i).value.fn == i
  {
    hide BodyStart, Match, Matches;
    var open := BodyStart(tokens, i + 2).value;
    BodyStartBounds(tokens, i + 2);
    MatchMeaning(tokens, open, "{", "}");
    MatchesBounds(tokens, open, Match(tokens, open, "{", "}").value);
  }

  lemma BodyStartBounds(tokens: seq<Token>, start: nat)
    requires start <= |tokens| && BodyStart(tokens, start).Some?
    ensures start <= BodyStart(tokens, start).value < |tokens|
  {}

  lemma MatchesBounds(tokens: seq<Token>, start: nat, end: nat)
    requires Matches(tokens, start, end, "{", "}")
    ensures start < end < |tokens|
  {}

  /** A `#[test]` attribute begins somewhere in `[from, to)`. */
  ghost predicate Marked(tokens: seq<Token>, from: nat, to: nat) {
    exists a :: from <= a && a + 3 < to && a + 3 < |tokens| && AttributeAt(tokens, a) && IsTest(tokens, a, a + 3)
  }

  /** The sites come in order, each good, and each after the first one has a `#[test]` of its
      own between its predecessor and itself; so has the first, unless one was pending. */
  ghost predicate GoodSites(tokens: seq<Token>, i: nat, pending: bool, sites: seq<Site>) {
    && (forall k :: 0 <= k < |sites| ==> GoodSite(tokens, sites[k]) && i <= sites[k].fn)
    && (forall k :: 0 <= k < |sites| - 1 ==> sites[k].fn < sites[k + 1].fn)
    && (forall k :: 0 < k < |sites| ==> Marked(tokens, sites[k - 1].fn, sites[k].fn))
    && (|sites| > 0 && !pending ==> Marked(tokens, i, sites[0].fn))
  }

  lemma {:induction false} ScanGood(tokens: seq<Token>, i: nat, pending: bool)
    requires i <= |tokens| && Scan(tokens, i, pending).Ok?
    ensures GoodSites(tokens, i, pending, Scan(tokens, i, pending).value)
    decreases |tokens| - i
  {
    hide GoodSite, SiteAt, Match, Matches, AttributeAt, IsTest, FnAt;
    if i < |tokens| {
      ScanBounds(tokens, i);
      var sites := Scan(tokens, i, pending).value;
      if AttributeAt(tokens, i) {
        var end := Match(tokens, i + 1, "[", "]").value;
        ScanGood(tokens, end + 1, pending || IsTest(tokens, i, end));
        if |sites| > 0 && !pending {
          TestIsAt(tokens, i, end);
          if !IsTest(tokens, i, end) { MarkedFrom(tokens, end + 1, i, sites[0].fn); }
        }
      } else if FnAt(tokens, i) && pending {
        SiteIsGood(tokens, i);
        ScanGood(tokens, i + 1, false);
        var rest := Scan(tokens, i + 1, false).value;
        assert sites == [SiteAt(tokens, i).value] + rest;
        if |rest| > 0 { MarkedFrom(tokens, i + 1, i, rest[0].fn); }
      } else {
        ScanGood(tokens, i + 1, pending);
        if |sites| > 0 && !pending { MarkedFrom(tokens, i + 1, i, sites[0].fn); }
      }
    }
  }

  lemma ScanBounds(tokens: seq<Token>, i: nat)
    requires i < |tokens|
    ensures AttributeAt(tokens, i) && Match(tokens, i + 1, "[", "]").Some? ==> i + 1 < Match(tokens, i + 1, "[", "]").value < |tokens|
    ensures AttributeAt(tokens, i) ==> i + 1 < |tokens|
  {
    hide Match, Matches;
    if AttributeAt(tokens, i) {
      MatchMeaning(tokens, i + 1, "[", "]");
      if Match(tokens, i + 1, "[", "]").Some? { MatchesFits(tokens, i + 1, Match(tokens, i + 1, "[", "]").value); }
    }
  }

  lemma MatchesFits(tokens: seq<Token>, start: nat, end: nat)
    requires Matches(tokens, start, end, "[", "]")
    ensures start < end < |tokens|
  {}

  lemma TestIsAt(tokens: seq<Token>, i: nat, end: nat)
    ensures IsTest(tokens, i, end) ==> end == i + 3 < |tokens|
  {}

  lemma MarkedFrom(tokens: seq<Token>, from: nat, lower: nat, to: nat)
    requires Marked(tokens, from, to) && lower <= from
    ensures Marked(tokens, lower, to)
  {
    hide AttributeAt, IsTest;
  }

  // ----- what the bodies are

  function NameOf(tokens: seq<Token>, s: Site): string {
    if s.fn + 1 < |tokens| then tokens[s.fn + 1].text else []
  }

  /** Where a body begins and ends in the source. */
  function From(tokens: seq<Token>, s: Site): nat {
    if s.open < |tokens| then tokens[s.open].start else 0
  }

  function To(tokens: seq<Token>, s: Site): nat {
    if s.close < |tokens| then tokens[s.close].end else 0
  }

  function Body(source: string, tokens: seq<Token>, s: Site): string {
    if From(tokens, s) <= To(tokens, s) <= |source| then source[From(tokens, s)..To(tokens, s)] else []
  }

  lemma SiteBounds(source: string, tokens: seq<Token>, s: Site)
    requires Slices(source, tokens, 0) && GoodSite(tokens, s)
    ensures s.fn + 2 <= s.open < s.close < |tokens|
    ensures From(tokens, s) < To(tokens, s) <= |source|
  {
    hide Matches, BodyStart;
    assert tokens[s.open].start < tokens[s.open].end <= tokens[s.close].start;
  }

  lemma TokenOrder(source: string, tokens: seq<Token>, i: nat, j: nat)
    requires Slices(source, tokens, 0) && i < j < |tokens|
    ensures tokens[i].start < tokens[i].end <= tokens[j].start < tokens[j].end
  {}

  /** A body is brace-balanced, and any two bodies are nested, equal or disjoint in the source. */
  lemma BodiesNestOrAreDisjoint(source: string, tokens: seq<Token>, a: Site, b: Site)
    requires Slices(source, tokens, 0) && GoodSite(tokens, a) && GoodSite(tokens, b) && a.open <= b.open
    ensures a.close < |tokens| && Depth(TokenWeights(tokens, "{", "}"), a.open, a.close + 1) == 0
    ensures From(tokens, a) < To(tokens, a) <= |source|
    ensures
      || (From(tokens, a) == From(tokens, b) && To(tokens, a) == To(tokens, b))
      || To(tokens, a) <= From(tokens, b)
      || (From(tokens, a) < From(tokens, b) && To(tokens, b) <= To(tokens, a))
  {
    hide GoodSite, Slices;
    SiteBounds(source, tokens, a);
    SiteBounds(source, tokens, b);
    Balanced(tokens, a);
    if a.open == b.open {
      SameClose(tokens, a, b);
    } else {
      SitesNest(tokens, a, b);
      TokenOrder(source, tokens, a.open, b.open);
      if b.close < a.close {
        TokenOrder(source, tokens, b.close, a.close);
      } else {
        TokenOrder(source, tokens, a.close, b.open);
      }
    }
  }

  lemma SitesNest(tokens: seq<Token>, a: Site, b: Site)
    requires GoodSite(tokens, a) && GoodSite(tokens, b) && a.open < b.open
    ensures b.close < a.close || a.close < b.open
  {
    hide Closes, BodyStart;
    NestedOrDisjoint(TokenWeights(tokens, "{", "}"), a.open, a.close, b.open, b.close);
  }

  lemma Balanced(tokens: seq<Token>, s: Site)
    requires GoodSite(tokens, s)
    ensures s.open <= s.close < |tokens| && Depth(TokenWeights(tokens, "{", "}"), s.open, s.close + 1) == 0
  {
    hide Closes, BodyStart;
    var w := TokenWeights(tokens, "{", "}");
    assert w[s.open] == 1;
    DepthSplit(w, s.open, s.open + 1, s.close + 1);
    assert Depth(w, s.open, s.open + 1) == Depth(w, s.open, s.open) + w[s.open];
    InsideBalanced(w, s.open + 1, s.close);
    assert Depth(w, s.open + 1, s.close + 1) == Depth(w, s.open + 1, s.close) + w[s.close];
  }

  lemma SameClose(tokens: seq<Token>, a: Site, b: Site)
    requires GoodSite(tokens, a) && GoodSite(tokens, b) && a.open == b.open
    ensures a.close == b.close
  {
    hide TokenWeights, BodyStart;
    var w := TokenWeights(tokens, "{", "}");
    FirstCloses(w, a.open + 1, a.close, b.close);
    FirstCloses(w, a.open + 1, b.close, a.close);
  }

  lemma FirstCloses(w: seq<int>, from: nat, c: nat, d: nat)
    requires Closes(w, from, c) && Closes(w, from, d)
    ensures d <= c
  {}

  // ----- the whole extraction

  predicate DistinctSites(tokens: seq<Token>, sites: seq<Site>) {
    forall j, k :: 0 <= j < k < |sites| ==> NameOf(tokens, sites[j]) != NameOf(tokens, sites[k])
  }

  /** Each site's slice of the source under the site's name. */
  function BodyMap(source: string, tokens: seq<Token>, sites: seq<Site>): map<string, string> {
    if sites == [] then map[]
    else
      var s := sites[|sites| - 1];
      BodyMap(source, tokens, sites[..|sites| - 1])[NameOf(tokens, s) := Body(source, tokens, s)]
  }

  lemma {:induction false} BodyMapAt(source: string, tokens: seq<Token>, sites: seq<Site>, k: nat)
    requires DistinctSites(tokens, sites) && k < |sites|
    ensures NameOf(tokens, sites[k]) in BodyMap(source, tokens, sites)
    ensures BodyMap(source, tokens, sites)[NameOf(tokens, sites[k])] == Body(source, tokens, sites[k])
  {
    hide Body, NameOf;
    if k < |sites| - 1 { BodyMapAt(source, tokens, sites[..|sites| - 1], k); }
  }

  lemma {:induction false} BodyMapKey(source: string, tokens: seq<Token>, sites: seq<Site>, name: string)
    ensures name in BodyMap(source, tokens, sites) <==> exists k :: 0 <= k < |sites| && NameOf(tokens, sites[k]) == name
  {
    hide Body, NameOf;
    if sites != [] {
      BodyMapKey(source, tokens, sites[..|sites| - 1], name);
      assert forall k :: 0 <= k < |sites| - 1 ==> sites[..|sites| - 1][k] == sites[k];
    }
  }

  ghost predicate Extractable(tokens: seq<Token>) {
    Scan(tokens, 0, false).Ok? && DistinctSites(tokens, Scan(tokens, 0, false).value)
  }

  function After(done: seq<Site>, rest: Result<seq<Site>>): Result<seq<Site>> {
    if rest.Err? then Err else Ok(done + rest.value)
  }

  lemma AfterCons(done: seq<Site>, s: Site, rest: Result<seq<Site>>)
    ensures After(done, Cons(s, rest)) == After(done + [s], rest)
  {
    if rest.Ok? {
      assert done + ([s] + rest.value) == done + [s] + rest.value;
    }
  }

  lemma AfterNothing(done: seq<Site>, rest: Result<seq<Site>>)
    ensures After([], rest) == rest && After(done, Ok([])) == Ok(done)
  {
    if rest.Ok? { assert [] + rest.value == rest.value; }
    assert done + [] == done;
  }

  /** One more site in the table, and what a repeated name means for the whole scan. */
  lemma CollectStep(source: string, tokens: seq<Token>, sites: seq<Site>, s: Site, rest: Result<seq<Site>>)
    requires DistinctSites(tokens, sites)
    ensures BodyMap(source, tokens, sites + [s]) == BodyMap(source, tokens, sites)[NameOf(tokens, s) := Body(source, tokens, s)]
    ensures NameOf(tokens, s) !in BodyMap(source, tokens, sites) ==> DistinctSites(tokens, sites + [s])
    ensures (NameOf(tokens, s) in BodyMap(source, tokens, sites) && After(sites + [s], rest).Ok?) ==>
      !DistinctSites(tokens, After(sites + [s], rest).value)
  {
    hide Body, NameOf;
    var longer := sites + [s];
    assert longer[..|sites|] == sites && longer[|sites|] == s;
    BodyMapKey(source, tokens, sites, NameOf(tokens, s));
    if NameOf(tokens, s) in BodyMap(source, tokens, sites) && rest.Ok? {
      var k :| 0 <= k < |sites| && NameOf(tokens, sites[k]) == NameOf(tokens, s);
      var all := longer + rest.value;
      assert all[k] == sites[k] && all[|sites|] == s;
    }
  }

  method FindSite(tokens: seq<Token>, i: nat) returns (r: Option<Site>)
    requires i < |tokens|
    ensures r == SiteAt(tokens, i)
  {
    hide BodyStart, Match;
    if i + 1 >= |tokens| || !tokens[i + 1].identifier {
      return None;
    }
    var open := FunctionBodyStart(tokens, i + 2);
    if open.Err? {
      return None;
    }
    BodyStartBounds(tokens, i + 2);
    var close := Matching(tokens, open.value, "{", "}");
    if close.Err? {
      return None;
    }
    return Some(Site(i, open.value, close.value));
  }

  /** `test_bodies`, on the tokens of a source. */
  method TestBodies(source: string, tokens: seq<Token>) returns (r: Result<map<string, string>>)
    requires Slices(source, tokens, 0)
    ensures r.Ok? <==> Extractable(tokens)
    ensures r.Ok? ==> r.value == BodyMap(source, tokens, Scan(tokens, 0, false).value)
  {
    hide AttributeAt, IsTest, FnAt, SiteAt, Scan, GoodSite, Match, Slices, BodyMap, DistinctSites, Body;
    var matches: map<string, string> := map[];
    var pending, index := false, 0;
    ghost var sites: seq<Site> := [];
    NothingCollected(source, tokens);
    AfterNothing([], Scan(tokens, 0, false));
    while index < |tokens|
      invariant index <= |tokens|
      invariant DistinctSites(tokens, sites) && matches == BodyMap(source, tokens, sites)
      invariant Scan(tokens, 0, false) == After(sites, Scan(tokens, index, pending))
    {
      ScanBounds(tokens, index);
      ScanStep(tokens, index, pending);
      if AttributeAt(tokens, index) {
        var end := Matching(tokens, index + 1, "[", "]");
        if end.Err? {
          return Err;
        }
        pending := pending || IsTest(tokens, index, end.value);
        index := end.value + 1;
      } else if FnAt(tokens, index) && pending {
        var site := FindSite(tokens, index);
        if site.None? {
          return Err;
        }
        CollectStep(source, tokens, sites, site.value, Scan(tokens, index + 1, false));
        AfterCons(sites, site.value, Scan(tokens, index + 1, false));
        var name := NameOf(tokens, site.value);
        if name in matches {
          return Err;
        }
        matches := matches[name := Body(source, tokens, site.value)];
        sites := sites + [site.value];
        pending := false;
        index := index + 1;
      } else {
        index := index + 1;
      }
    }
    ScanEnd(tokens, pending);
    AfterNothing(sites, Ok([]));
    return Ok(matches);
  }

  lemma NothingCollected(source: string, tokens: seq<Token>)
    ensures DistinctSites(tokens, []) && BodyMap(source, tokens, []) == map[]
  {}

  lemma ScanEnd(tokens: seq<Token>, pending: bool)
    ensures Scan(tokens, |tokens|, pending) == Ok([])
  {}

  lemma ScanStep(tokens: seq<Token>, i: nat, pending: bool)
    requires i < |tokens|
    ensures Scan(tokens, i, pending) ==
      if AttributeAt(tokens, i) then
        match Match(tokens, i + 1, "[", "]")
        case None => Err
        case Some(end) => ScanBounds(tokens, i); Scan(tokens, end + 1, pending || IsTest(tokens, i, end))
      else if FnAt(tokens, i) && pending then
        if SiteAt(tokens, i).None? then Err else Cons(SiteAt(tokens, i).value, Scan(tokens, i + 1, false))
      else Scan(tokens, i + 1, pending)
  {
    hide Match, SiteAt, IsTest;
  }

  /** From the source text: tokens, then bodies.  Each body is a good site's slice. */
  method TestBodiesOf(c: Classes, source: string)
    returns (r: Result<map<string, string>>, ghost tokens: seq<Token>, ghost sites: seq<Site>)
    ensures r.Ok? <==> TokensFrom(c, source, 0).Ok? && Extractable(TokensFrom(c, source, 0).value)
    ensures r.Ok? ==> TokensFrom(c, source, 0) == Ok(tokens) && Slices(source, tokens, 0)
    ensures r.Ok? ==> Scan(tokens, 0, false) == Ok(sites) && GoodSites(tokens, 0, false, sites) && DistinctSites(tokens, sites)
    ensures r.Ok? ==> r.value == BodyMap(source, tokens, sites)
  {
    hide TokensFrom, Slices, GoodSites, BodyMap, Scan, DistinctSites;
    var scanned := Tokens(c, source);
    tokens, sites := [], [];
    if scanned.Err? {
      return Err, tokens, sites;
    }
    tokens := scanned.value;
    r := TestBodies(source, scanned.value);
    if r.Ok? {
      sites := Scan(tokens, 0, false).value;
      ScanGood(tokens, 0, false);
    }
  }
}
