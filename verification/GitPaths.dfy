/** Repository paths: the safety test, and joining and splitting at slashes. */
module GitPaths {
  import opened ByteStrings

  // ----- splitting and joining

  predicate PlainName(name: seq<char>) {
    name != [] && '/' !in name
  }

  ghost predicate PlainNames(names: seq<Bytes>) {
    forall i :: 0 <= i < |names| ==> PlainName(names[i])
  }

  /** `f"{prefix}/{name}" if prefix else name`. */
  function Child(prefix: Bytes, name: Bytes): Bytes {
    if prefix == [] then name else prefix + ['/'] + name
  }

  /** The path reached by descending through `names` from the root. */
  function Join(names: seq<Bytes>): Bytes {
    if names == [] then [] else Child(Join(names[..|names| - 1]), names[|names| - 1])
  }

  function Split(path: Bytes): (names: seq<Bytes>)
    ensures |names| > 0
    decreases |path|
  {
    var k := Find(path, '/', 0);
    if k < 0 then [path] else [path[..k]] + Split(path[k + 1..])
  }

  lemma JoinSnoc(names: seq<Bytes>, name: Bytes)
    ensures Join(names + [name]) == Child(Join(names), name)
  {
    assert (names + [name])[..|names|] == names;
  }

  lemma {:induction false} JoinFront(name: Bytes, rest: seq<Bytes>)
    requires PlainName(name) && PlainNames(rest) && rest != []
    ensures Join(rest) != []
    ensures Join([name] + rest) == name + ['/'] + Join(rest)
  {
    var init, last := rest[..|rest| - 1], rest[|rest| - 1];
    assert rest == init + [last];
    assert [name] + rest == ([name] + init) + [last];
    JoinSnoc([name] + init, last);
    JoinSnoc(init, last);
    if init == [] {
      assert [name] + init == [name];
      assert Join([name]) == name by { JoinSnoc([], name); assert [] + [name] == [name]; }
    } else {
      JoinFront(name, init);
    }
  }

  /** Joining plain names can be undone, so distinct name lists give distinct paths. */
  lemma {:induction false} SplitJoin(names: seq<Bytes>)
    requires names != [] && PlainNames(names)
    ensures Split(Join(names)) == names
  {
    var first, rest := names[0], names[1..];
    assert names == [first] + rest;
    if rest == [] {
      JoinSnoc([], first);
      assert [] + [first] == names;
    } else {
      JoinFront(first, rest);
      var p := Join(names);
      assert p[0..] == p == first + (['/'] + Join(rest));
      FindSeparator(p, 0, first, '/', Join(rest));
      assert p[..|first|] == first && p[|first| + 1..] == Join(rest);
      SplitJoin(rest);
    }
  }

  lemma JoinInjective(a: seq<Bytes>, b: seq<Bytes>)
    requires a != [] && b != [] && PlainNames(a) && PlainNames(b)
    requires Join(a) == Join(b)
    ensures a == b
  {
    SplitJoin(a);
    SplitJoin(b);
  }

  lemma {:induction false} JoinSplit(path: Bytes)
    requires PlainNames(Split(path))
    ensures Join(Split(path)) == path
    decreases |path|
  {
    var k := Find(path, '/', 0);
    if k < 0 {
      JoinSnoc([], path);
      assert [] + [path] == [path];
    } else {
      var first, rest := path[..k], Split(path[k + 1..]);
      assert Split(path) == [first] + rest;
      assert PlainNames(rest) by {
        assert forall i :: 0 <= i < |rest| ==> rest[i] == Split(path)[i + 1];
      }
      assert PlainName(first) by { assert first == Split(path)[0]; }
      JoinSplit(path[k + 1..]);
      JoinFront(first, rest);
      assert path == first + ['/'] + path[k + 1..];
    }
  }

  lemma SplitHead(head: Bytes, tail: Bytes)
    requires '/' !in head
    ensures Split(head + ['/'] + tail) == [head] + Split(tail)
  {
    var s := head + ['/'] + tail;
    assert s[0..] == s == head + (['/'] + tail);
    FindSeparator(s, 0, head, '/', tail);
    assert s[..|head|] == head && s[|head| + 1..] == tail;
  }

  lemma {:induction false} SplitAtSlash(a: Bytes, b: Bytes)
    ensures Split(a + ['/'] + b) == Split(a) + Split(b)
    decreases |a|
  {
    hide Split;
    var k := Find(a, '/', 0);
    if k < 0 {
      SplitHead(a, b);
      SplitLast(a);
    } else {
      var head, tail := a[..k], a[k + 1..];
      assert '/' !in head;
      SplitHead(head, tail);
      SplitHead(head, tail + ['/'] + b);
      SplitAtSlash(tail, b);
      assert a == head + ['/'] + tail;
      assert a + ['/'] + b == head + ['/'] + (tail + ['/'] + b);
    }
  }

  lemma SplitLast(a: Bytes)
    requires Find(a, '/', 0) < 0
    ensures Split(a) == [a]
  {}

  // ----- the safety test

  function Upper(c: char): char {
    if 'a' <= c <= 'z' then (c as int - 32) as char else c
  }

  function UpperText(s: Bytes): (u: Bytes)
    ensures |u| == |s|
  {
    seq(|s|, i requires 0 <= i < |s| => Upper(s[i]))
  }

  /** `WINDOWS_RESERVED_NAMES`; the superscript digits are two bytes each in UTF-8. */
  predicate ReservedName(u: Bytes) {
    || u in {"CON", "PRN", "AUX", "NUL"}
    || (&& |u| >= 4
        && u[..3] in {"COM", "LPT"}
        && (|| (|u| == 4 && '1' <= u[3] <= '9')
            || (|u| == 5 && u[3] as int == 0xC2 && u[4] as int in {0xB9, 0xB2, 0xB3})))
  }

  /** `windows_path_components_are_safe` on one component. */
  predicate SafeComponent(part: Bytes) {
    && part != []
    && part[|part| - 1] !in {' ', '.'}
    && (forall i :: 0 <= i < |part| ==> part[i] !in "<>:\"|?*" && part[i] as int >= 32)
    && var dot := Find(part, '.', 0);
       !ReservedName(UpperText(if dot < 0 then part else part[..dot]))
  }

  /** A component that names something below the directory it stands in. */
  predicate ProperComponent(part: Bytes) {
    part != ".." && SafeComponent(part)
  }

  /** The part of the safety test that looks at the whole text. */
  predicate SafeText(value: Bytes) {
    value != [] && '\\' !in value && NUL !in value && value[0] != '/' && !(|value| >= 2 && value[1] == ':')
  }

  /** What `PurePosixPath.parts` drops. */
  predicate Dropped(part: Bytes) {
    part == [] || part == "."
  }

  /** `safe_git_path`.  Dropped components are never looked at, so the one-component path
      "." has no parts at all and passes. */
  predicate SafeGitPath(value: Bytes) {
    && SafeText(value)
    && var parts := Split(value);
       forall i :: 0 <= i < |parts| ==> Dropped(parts[i]) || ProperComponent(parts[i])
  }

  /** What is dropped is never proper. */
  lemma DroppedIsImproper(part: Bytes)
    requires Dropped(part)
    ensures !ProperComponent(part)
  {}

  /** The components of an accepted path are all proper if and only if none is empty or ".". */
  lemma SafePathProper(path: Bytes)
    requires SafeGitPath(path)
    ensures (forall i :: 0 <= i < |Split(path)| ==> ProperComponent(Split(path)[i])) <==>
      (forall i :: 0 <= i < |Split(path)| ==> Split(path)[i] != [] && Split(path)[i] != ".")
  {
    hide ProperComponent, Split, SafeText;
    forall part | Dropped(part) ensures !ProperComponent(part) {
      DroppedIsImproper(part);
    }
  }

  lemma NoColon(part: Bytes, i: nat)
    requires i < |part| && part[i] == ':'
    ensures !SafeComponent(part)
  {
    assert "<>:\"|?*"[2] == ':';
  }

  /** On a name without slashes the test lets exactly one improper name through. */
  lemma SafeName(name: Bytes)
    requires '/' !in name
    ensures SafeGitPath(name) <==> name == "." || ('\\' !in name && NUL !in name && ProperComponent(name))
  {
    hide SafeComponent, Split;
    SplitLast(name);
    assert Split(name)[0] == name && (name != [] ==> name[0] in name);
    assert name == "." ==> SafeText(name);
    if name == [] { DroppedIsImproper(name); }
    if |name| >= 2 && name[1] == ':' { NoColon(name, 1); }
  }

  lemma LetterIsProper(c: char)
    requires 'a' <= c <= 'z'
    ensures ProperComponent([c])
  {
    assert Find([c], '.', 0) == -1;
  }

  /** Three accepted paths with a component that names nothing. */
  lemma DroppedExamples()
    ensures SafeGitPath(".") && SafeGitPath("a//b") && SafeGitPath("a/./b")
    ensures Split(".") == ["."] && Split("a//b") == ["a", [], "b"] && Split("a/./b") == ["a", ".", "b"]
  {
    hide ProperComponent, Split;
    SplitLast(".");
    SplitLast("b");
    SplitHead([], "b");
    SplitHead("a", "/b");
    SplitHead(".", "b");
    SplitHead("a", "./b");
    assert [] + ['/'] + "b" == "/b" && "." + ['/'] + "b" == "./b";
    assert "a" + ['/'] + "/b" == "a//b" && "a" + ['/'] + "./b" == "a/./b";
    LetterIsProper('a');
    LetterIsProper('b');
  }
}
