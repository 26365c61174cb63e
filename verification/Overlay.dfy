/** Laying selected source paths over a consumer checkout.

    A tree is the map from the paths of its files to their contents.  Directories
    have no entry of their own, as in a Git tree, so a path exists when a file
    lies at it or below it. */
module Overlay {
  import opened ByteStrings
  import opened GitPaths
  import opened Results

  // ----- string prefixes and path components

  predicate StartsWith(s: Bytes, prefix: Bytes) {
    |prefix| <= |s| && s[..|prefix|] == prefix
  }

  /** `path.startswith(root + "/")`. */
  predicate Below(path: Bytes, root: Bytes) {
    StartsWith(path, root + ['/'])
  }

  lemma BelowTransitive(a: Bytes, b: Bytes, c: Bytes)
    requires Below(a, b) && Below(b, c)
    ensures Below(a, c)
  {
    assert a[..|c| + 1] == a[..|b| + 1][..|c| + 1] == b[..|c| + 1];
  }

  /** Two paths above one path are comparable. */
  lemma AncestorsComparable(path: Bytes, a: Bytes, b: Bytes)
    requires Below(path, a) && Below(path, b)
    ensures a == b || Below(a, b) || Below(b, a)
  {
    if |a| < |b| {
      assert b[..|a| + 1] == path[..|b| + 1][..|a| + 1] == path[..|a| + 1];
    } else {
      assert a[..|b|] == path[..|a| + 1][..|b|] == path[..|b|];
      if |a| > |b| {
        assert a[..|b| + 1] == path[..|a| + 1][..|b| + 1];
      }
    }
  }

  /** What `PurePosixPath` keeps as parts. */
  predicate Kept(part: Bytes) {
    !Dropped(part)
  }

  function KeptParts(parts: seq<Bytes>): (kept: seq<Bytes>)
    ensures forall i :: 0 <= i < |kept| ==> Kept(kept[i]) && kept[i] in parts
  {
    if parts == [] then []
    else (if Kept(parts[0]) then [parts[0]] else []) + KeptParts(parts[1..])
  }

  lemma {:induction false} KeptPartsFixed(parts: seq<Bytes>)
    requires forall i :: 0 <= i < |parts| ==> Kept(parts[i])
    ensures KeptParts(parts) == parts
  {
    if parts != [] { KeptPartsFixed(parts[1..]); }
  }

  /** `PurePosixPath(value).parts` of a relative path. */
  function Parts(value: Bytes): seq<Bytes> {
    KeptParts(Split(value))
  }

  /** `PurePosixPath(value).as_posix()` of a relative path: "." when no part is left. */
  function Normal(value: Bytes): Bytes {
    if Parts(value) == [] then "." else Join(Parts(value))
  }

  lemma {:induction false} SplitPlain(value: Bytes)
    ensures forall i :: 0 <= i < |Split(value)| ==> '/' !in Split(value)[i]
    decreases |value|
  {
    var k := Find(value, '/', 0);
    if k >= 0 { SplitPlain(value[k + 1..]); }
  }

  lemma PartsPlain(value: Bytes)
    ensures PlainNames(Parts(value))
  {
    SplitPlain(value);
  }

  /** Normalising is a projection, and keeps the parts. */
  lemma NormalIdempotent(value: Bytes)
    ensures Parts(Normal(value)) == Parts(value) && Normal(Normal(value)) == Normal(value)
  {
    PartsPlain(value);
    if Parts(value) == [] {
      assert Split(".") == ["."];
    } else {
      SplitJoin(Parts(value));
      KeptPartsFixed(Parts(value));
    }
  }

  /** No component is empty or ".". */
  ghost predicate NothingDropped(path: Bytes) {
    forall i :: 0 <= i < |Split(path)| ==> !Dropped(Split(path)[i])
  }

  lemma PartsKept(value: Bytes)
    requires Split(value) == Parts(value)
    ensures NothingDropped(value)
  {
    hide Split;
    var parts := Split(value);
    forall i | 0 <= i < |parts| ensures !Dropped(parts[i]) { assert Kept(Parts(value)[i]); }
  }

  /** A path is its own normal form if and only if it is "." or nothing in it is dropped;
      so two accepted paths, one with a dropped component, may name one file. */
  lemma NormalFixed(value: Bytes)
    ensures Normal(value) == value <==> value == "." || NothingDropped(value)
  {
    hide NothingDropped, Split, Join, KeptParts;
    PartsPlain(value);
    var parts := Parts(value);
    if NothingDropped(value) {
      AllKept(value);
      JoinSplit(value);
    }
    if value == "." {
      SplitLast(value);
      NothingKept([value]);
    }
    if Normal(value) == value && parts != [] {
      SplitJoin(parts);
      PartsKept(value);
    }
  }

  lemma AllKept(value: Bytes)
    requires NothingDropped(value)
    ensures Parts(value) == Split(value)
  {
    KeptPartsFixed(Split(value));
  }

  lemma JoinOne(name: Bytes)
    ensures Join([name]) == name
  {
    JoinSnoc([], name);
    assert [] + [name] == [name];
  }

  lemma {:induction false} JoinPrefix(a: seq<Bytes>, rest: seq<Bytes>)
    requires a != [] && rest != [] && PlainNames(a) && PlainNames(rest)
    ensures Join(a + rest) == Join(a) + ['/'] + Join(rest)
  {
    hide Join, PlainName;
    var first, others := a[0], a[1..];
    assert a == [first] + others;
    if others == [] {
      assert a == [first];
      assert a + rest == [first] + rest;
      JoinFront(first, rest);
      JoinOne(first);
    } else {
      JoinPrefix(others, rest);
      JoinFront(first, others);
      JoinFront(first, others + rest);
      assert a + rest == [first] + (others + rest);
      assert first + ['/'] + (Join(others) + ['/'] + Join(rest)) == first + ['/'] + Join(others) + ['/'] + Join(rest);
    }
  }

  lemma BelowGivesPrefix(path: seq<Bytes>, root: seq<Bytes>)
    requires path != [] && root != [] && PlainNames(path) && PlainNames(root)
    requires Below(Join(path), Join(root))
    ensures root <= path
  {
    hide Join, Split, PlainName;
    var p, r := Join(path), Join(root);
    SplitJoin(path);
    SplitJoin(root);
    var tail := p[|r| + 1..];
    assert p == r + ['/'] + tail;
    SplitAtSlash(r, tail);
  }

  lemma PrefixGivesBelow(path: seq<Bytes>, root: seq<Bytes>)
    requires path != [] && root != [] && PlainNames(path) && PlainNames(root)
    requires root <= path && root != path
    ensures Below(Join(path), Join(root))
  {
    hide Join, PlainName;
    var rest := path[|root|..];
    assert path == root + rest;
    JoinPrefix(root, rest);
  }

  /** The textual prefix test of the source is containment of the component lists. */
  lemma BelowIsContainment(path: seq<Bytes>, root: seq<Bytes>)
    requires path != [] && root != [] && PlainNames(path) && PlainNames(root)
    ensures (Join(path) == Join(root) || Below(Join(path), Join(root))) <==> root <= path
  {
    hide Join, Below, PlainName;
    if Below(Join(path), Join(root)) { BelowGivesPrefix(path, root); }
    if Join(path) == Join(root) { JoinInjective(path, root); }
    if root <= path && root != path { PrefixGivesBelow(path, root); }
  }

  // ----- the list of overlay roots

  const FORBIDDEN_PRODUCT_ROOTS: seq<seq<Bytes>> := [
    ["crates", "rssh-app"], ["crates", "rssh-config"], ["crates", "rssh-core"],
    ["crates", "rssh-diagnostics"], ["crates", "rssh-domain"], ["crates", "rssh-functional-tests"],
    ["crates", "rssh-native"], ["crates", "rssh-pty"], ["crates", "rssh-renderer"],
    ["crates", "rssh-ssh"], ["crates", "rssh-test-support"], ["crates", "rssh-web"], ["tauri"]]

  predicate ProductOwned(normalized: Bytes) {
    exists i :: 0 <= i < |FORBIDDEN_PRODUCT_ROOTS| &&
      var root := Join(FORBIDDEN_PRODUCT_ROOTS[i]);
      normalized == root || Below(normalized, root)
  }

  /** `validate_overlay_path`. */
  function ValidateOverlayPath(value: Bytes): Result<Bytes> {
    if value == [] || value[0] == '/' || value in [".", ".."] || ".." in Parts(value) || '\\' in value then Err
    else if ProductOwned(Normal(value)) then Err
    else Ok(Normal(value))
  }

  lemma ForbiddenRootsPlain(i: nat)
    requires i < |FORBIDDEN_PRODUCT_ROOTS|
    ensures FORBIDDEN_PRODUCT_ROOTS[i] != [] && PlainNames(FORBIDDEN_PRODUCT_ROOTS[i])
    ensures FORBIDDEN_PRODUCT_ROOTS[i][0] != "."
  {}

  lemma DotIsNotBelow(a: Bytes)
    ensures !Below(".", a)
  {
    assert (a + ['/'])[|a|] == '/' && "."[..1][0] == '.';
  }

  /** Being owned by the product is a matter of leading components. */
  lemma OwnedRoot(value: Bytes, i: nat)
    requires i < |FORBIDDEN_PRODUCT_ROOTS|
    ensures var root := FORBIDDEN_PRODUCT_ROOTS[i];
      (Normal(value) == Join(root) || Below(Normal(value), Join(root))) <==> root <= Parts(value)
  {
    hide FORBIDDEN_PRODUCT_ROOTS, Below;
    ForbiddenRootsPlain(i);
    var root := FORBIDDEN_PRODUCT_ROOTS[i];
    PartsPlain(value);
    if Parts(value) == [] {
      SplitJoin(root);
      assert Split(".") == ["."];
      DotIsNotBelow(Join(root));
    } else {
      BelowIsContainment(Parts(value), root);
    }
  }

  /** Acceptance read on components: a relative path that never climbs and does not lie in a
      directory that the product owns.  It may lie above one: see `ProductFilesSurvive`. */
  lemma AcceptedPathContained(value: Bytes)
    ensures ValidateOverlayPath(value).Ok? <==>
      && value != [] && value[0] != '/' && value != "." && '\\' !in value
      && ".." !in Parts(value)
      && (forall i :: 0 <= i < |FORBIDDEN_PRODUCT_ROOTS| ==> !(FORBIDDEN_PRODUCT_ROOTS[i] <= Parts(value)))
  {
    hide FORBIDDEN_PRODUCT_ROOTS, ProductOwned, Parts, Normal;
    OwnedMeaning(value);
    if value == ".." { ClimbingParts(); }
  }

  lemma OwnedMeaning(value: Bytes)
    ensures ProductOwned(Normal(value)) <==>
      exists i :: 0 <= i < |FORBIDDEN_PRODUCT_ROOTS| && FORBIDDEN_PRODUCT_ROOTS[i] <= Parts(value)
  {
    hide FORBIDDEN_PRODUCT_ROOTS, Below, Parts, Normal, Join;
    forall i | 0 <= i < |FORBIDDEN_PRODUCT_ROOTS|
      ensures var root := FORBIDDEN_PRODUCT_ROOTS[i];
        (Normal(value) == Join(root) || Below(Normal(value), Join(root))) <==> root <= Parts(value)
    {
      OwnedRoot(value, i);
    }
  }

  lemma ClimbingParts()
    ensures ".." in Parts("..")
  {
    SplitLast("..");
    assert KeptParts([".."]) == [".."];
  }

  lemma {:induction false} NothingKept(parts: seq<Bytes>)
    ensures KeptParts(parts) == [] <==> forall i :: 0 <= i < |parts| ==> Dropped(parts[i])
  {
    if parts != [] {
      NothingKept(parts[1..]);
      assert forall i :: 1 <= i < |parts| ==> parts[i] == parts[1..][i - 1];
    }
  }

  lemma SoleDot(parts: seq<Bytes>)
    requires PlainNames(parts) && parts != [] && parts[0] != "."
    ensures Join(parts) != "."
  {
    SplitJoin(parts);
    SplitLast(".");
  }

  /** The source refuses "." itself but none of its other relative spellings: a path is accepted
      as the whole checkout exactly when it is made of slashes and dots that stand alone. */
  lemma WholeCheckoutAccepted(value: Bytes)
    ensures ValidateOverlayPath(value) == Ok(".") <==>
      && value != [] && value[0] != '/' && value != "."
      && forall i :: 0 <= i < |Split(value)| ==> Dropped(Split(value)[i])
  {
    hide FORBIDDEN_PRODUCT_ROOTS, Split, Join, ProductOwned, KeptParts;
    var parts := Parts(value);
    PartsPlain(value);
    NothingKept(Split(value));
    AcceptedPathContained(value);
    if parts == [] {
      NoBackslash(value);
      forall i | 0 <= i < |FORBIDDEN_PRODUCT_ROOTS| ensures !(FORBIDDEN_PRODUCT_ROOTS[i] <= parts) {
        ForbiddenRootsPlain(i);
      }
    } else {
      SoleDot(parts);
      assert Normal(value) != ".";
      assert exists i :: 0 <= i < |Split(value)| && !Dropped(Split(value)[i]);
    }
  }

  /** A path of dropped components alone is made of dots and slashes. */
  lemma {:induction false} NoBackslash(value: Bytes)
    requires forall i :: 0 <= i < |Split(value)| ==> Dropped(Split(value)[i])
    ensures '\\' !in value
    decreases |value|
  {
    hide Split;
    var k := Find(value, '/', 0);
    if k < 0 {
      SplitLast(value);
      assert Dropped(Split(value)[0]);
    } else {
      var head, tail := value[..k], value[k + 1..];
      assert value == head + ['/'] + tail && '/' !in head;
      SplitHead(head, tail);
      assert Dropped(Split(value)[0]);
      assert forall i :: 0 <= i < |Split(tail)| ==> Split(tail)[i] == Split(value)[i + 1];
      NoBackslash(tail);
      MemberOfThree(head, tail);
    }
  }

  lemma MemberOfThree(head: Bytes, tail: Bytes)
    requires '\\' !in head && '\\' !in tail
    ensures '\\' !in head + ['/'] + tail
  {}

  /** Refused, and three accepted spellings of the same. */
  lemma WholeCheckoutExamples()
    ensures ValidateOverlayPath(".") == Err
    ensures ValidateOverlayPath("./") == Ok(".") && ValidateOverlayPath("./.") == Ok(".") && ValidateOverlayPath("././.") == Ok(".")
  {
    hide ValidateOverlayPath, Split;
    DotRefused();
    SplitLast(".");
    SplitLast([]);
    SplitHead(".", []);
    SplitHead(".", ".");
    SplitHead(".", "./.");
    assert "." + ['/'] + [] == "./" && "." + ['/'] + "." == "./." && "." + ['/'] + "./." == "././.";
    WholeCheckoutAccepted("./");
    WholeCheckoutAccepted("./.");
    WholeCheckoutAccepted("././.");
  }

  lemma DotRefused()
    ensures ValidateOverlayPath(".") == Err
  {}

  /** No overlay root is nested in another. */
  ghost predicate Separate(roots: seq<Bytes>) {
    forall i, j :: 0 <= i < |roots| && 0 <= j < |roots| ==> !Below(roots[i], roots[j])
  }

  /** The list without its repetitions, in the order of first appearance. */
  function Dedup(xs: seq<Bytes>): (d: seq<Bytes>)
    ensures forall x :: x in d <==> x in xs
    ensures forall i, j :: 0 <= i < j < |d| ==> d[i] != d[j]
  {
    if xs == [] then []
    else
      var d, last := Dedup(xs[..|xs| - 1]), xs[|xs| - 1];
      assert xs == xs[..|xs| - 1] + [last];
      if last in d then d else d + [last]
  }

  function Normals(values: seq<Bytes>): (ns: seq<Bytes>)
    ensures |ns| == |values|
    ensures forall i :: 0 <= i < |values| ==> ns[i] == Normal(values[i])
  {
    seq(|values|, i requires 0 <= i < |values| => Normal(values[i]))
  }

  lemma DedupSnoc(xs: seq<Bytes>, x: Bytes)
    ensures Dedup(xs + [x]) == if x in xs then Dedup(xs) else Dedup(xs) + [x]
  {
    assert (xs + [x])[..|xs|] == xs;
  }

  /** Which path lists the contract may hold, said of the list as given. */
  ghost predicate AcceptedRoots(values: seq<Bytes>) {
    && (forall i :: 0 <= i < |values| ==> ValidateOverlayPath(values[i]).Ok?)
    && Separate(Normals(values))
  }

  lemma SeparateDedup(xs: seq<Bytes>)
    ensures Separate(Dedup(xs)) <==> Separate(xs)
  {
    hide Below, Dedup;
    assert forall i :: 0 <= i < |xs| ==> xs[i] in Dedup(xs);
    assert forall i :: 0 <= i < |Dedup(xs)| ==> Dedup(xs)[i] in xs;
  }

  lemma NormalsStep(values: seq<Bytes>, n: nat)
    requires n < |values|
    ensures Normals(values[..n + 1]) == Normals(values[..n]) + [Normal(values[n])]
  {
    hide Normal;
  }

  /** `contract_overlay_paths`, on the path fields of its two sections. */
  method ContractOverlayPaths(values: seq<Bytes>) returns (r: Result<seq<Bytes>>)
    ensures r.Ok? <==> AcceptedRoots(values)
    ensures r.Ok? ==> r.value == Dedup(Normals(values))
  {
    hide ValidateOverlayPath, Normal, Dedup, Normals, Below;
    var paths: seq<Bytes> := [];
    assert Normals([]) == [] && Dedup([]) == [] by { DedupEmpty(); }
    for n := 0 to |values|
      invariant forall i :: 0 <= i < n ==> ValidateOverlayPath(values[i]).Ok?
      invariant paths == Dedup(Normals(values[..n]))
    {
      var v := ValidateOverlayPath(values[n]);
      if v.Err? {
        return Err;
      }
      ValidatedIsNormal(values[n]);
      NormalsStep(values, n);
      DedupSnoc(Normals(values[..n]), v.value);
      if v.value !in paths {
        paths := paths + [v.value];
      }
    }
    assert values[..|values|] == values;
    SeparateDedup(Normals(values));
    for left := 0 to |paths|
      invariant forall i, j :: 0 <= i < left && i < j < |paths| ==> !Nested(paths[i], paths[j])
    {
      for right := left + 1 to |paths|
        invariant forall j :: left < j < right ==> !Nested(paths[left], paths[j])
      {
        if Nested(paths[left], paths[right]) {
          assert !Separate(paths);
          return Err;
        }
      }
    }
    SeparateFromPairs(paths);
    return Ok(paths);
  }

  predicate Nested(left: Bytes, right: Bytes) {
    Below(left, right) || Below(right, left)
  }

  lemma DedupEmpty()
    ensures Normals([]) == [] && Dedup([]) == []
  {}

  lemma ValidatedIsNormal(value: Bytes)
    requires ValidateOverlayPath(value).Ok?
    ensures ValidateOverlayPath(value).value == Normal(value)
  {}

  lemma SeparateFromPairs(paths: seq<Bytes>)
    requires forall i, j :: 0 <= i < j < |paths| ==> !Nested(paths[i], paths[j])
    ensures Separate(paths)
  {
    forall i, j | 0 <= i < |paths| && 0 <= j < |paths| ensures !Below(paths[i], paths[j]) {
      if i < j { assert !Nested(paths[i], paths[j]); }
      else if j < i { assert !Nested(paths[j], paths[i]); }
    }
  }

  // ----- the overlay itself

  type Files<V> = map<Bytes, V>

  function At<V>(files: Files<V>, path: Bytes): Option<V> {
    if path in files then Some(files[path]) else None
  }

  lemma SameEverywhere<V>(a: Files<V>, b: Files<V>)
    requires forall p :: At(a, p) == At(b, p)
    ensures a == b
  {
    assert forall p :: p in a ==> At(a, p) == At(b, p) && p in b;
    assert forall p :: p in b ==> At(a, p) == At(b, p) && p in a;
  }

  /** What lies at or below a root in the file system, where "." is the checkout itself. */
  predicate Covers(root: Bytes, path: Bytes) {
    root == "." || path == root || Below(path, root)
  }

  predicate Covered(roots: seq<Bytes>, path: Bytes) {
    exists i :: 0 <= i < |roots| && Covers(roots[i], path)
  }

  /** No file is also a directory. */
  ghost predicate TreeShaped<V>(files: Files<V>) {
    forall p, q :: p in files && q in files ==> !Below(p, q)
  }

  /** `(tree / root).exists()`. */
  predicate Exists<V>(files: Files<V>, root: Bytes) {
    root == "." || exists p :: p in files.Keys && Covers(root, p)
  }

  /** Creating the parents of `root` meets a file. */
  predicate Blocked<V>(files: Files<V>, root: Bytes) {
    exists p :: p in files.Keys && Below(root, p)
  }

  /** The declarative result: the source under the roots, the consumer elsewhere. */
  function Overlaid<V>(consumer: Files<V>, source: Files<V>, roots: seq<Bytes>): Files<V> {
    (map p | p in consumer && !Covered(roots, p) :: consumer[p])
    + (map p | p in source && Covered(roots, p) :: source[p])
  }

  /** Every root can be copied when its turn comes: the source has it, and each
      consumer file above it has been replaced by then. */
  ghost predicate Ready<V>(consumer: Files<V>, source: Files<V>, roots: seq<Bytes>) {
    forall i :: 0 <= i < |roots| ==> CanCopy(consumer, source, roots[..i], roots[i])
  }

  ghost predicate CanCopy<V>(consumer: Files<V>, source: Files<V>, done: seq<Bytes>, root: Bytes) {
    && Exists(source, root)
    && forall p :: p in consumer && Below(root, p) ==> Covered(done, p)
  }

  lemma CoveredSnoc(roots: seq<Bytes>, root: Bytes, path: Bytes)
    ensures Covered(roots + [root], path) <==> Covered(roots, path) || Covers(root, path)
  {
    hide Covers;
    if Covered(roots, path) {
      var i :| 0 <= i < |roots| && Covers(roots[i], path);
      assert (roots + [root])[i] == roots[i];
    }
    if Covers(root, path) {
      assert (roots + [root])[|roots|] == root;
    }
  }

  lemma OverlaidAt<V>(consumer: Files<V>, source: Files<V>, roots: seq<Bytes>, path: Bytes)
    ensures At(Overlaid(consumer, source, roots), path) == At(if Covered(roots, path) then source else consumer, path)
  {
    hide Covered;
  }

  /** One turn of the loop, on maps. */
  lemma OverlaidSnoc<V>(consumer: Files<V>, source: Files<V>, roots: seq<Bytes>, root: Bytes)
    ensures Overlaid(consumer, source, roots + [root]) == Overlaid(Overlaid(consumer, source, roots), source, [root])
  {
    hide Covered, Overlaid, At, Covers;
    var now := Overlaid(consumer, source, roots);
    var left, right := Overlaid(consumer, source, roots + [root]), Overlaid(now, source, [root]);
    forall p ensures At(left, p) == At(right, p) {
      CoveredSnoc(roots, root, p);
      CoveredSnoc([], root, p);
      NoneCovered(p);
      assert [] + [root] == [root];
      OverlaidAt(consumer, source, roots, p);
      OverlaidAt(consumer, source, roots + [root], p);
      OverlaidAt(now, source, [root], p);
    }
    SameEverywhere(left, right);
  }

  lemma NoneCovered(path: Bytes)
    ensures !Covered([], path)
  {}

  lemma OverlaidNone<V>(consumer: Files<V>, source: Files<V>)
    ensures Overlaid(consumer, source, []) == consumer
  {
    forall p ensures !Covered([], p) { NoneCovered(p); }
  }

  /** What blocks a root in the half-overlaid tree is exactly a consumer file still in place. */
  lemma BlockedNow<V>(consumer: Files<V>, source: Files<V>, done: seq<Bytes>, root: Bytes)
    requires TreeShaped(source) && Exists(source, root)
    ensures !Blocked(Overlaid(consumer, source, done), root) <==> CanCopy(consumer, source, done, root)
  {
    hide Covered, Below;
    var now := Overlaid(consumer, source, done);
    if Blocked(now, root) {
      var p :| p in now.Keys && Below(root, p);
      if Covered(done, p) {
        DotIsNotBelow(p);
        var q :| q in source.Keys && Covers(root, q);
        if q != root { BelowTransitive(q, root, p); }
        assert false;
      }
    }
    if !Blocked(now, root) {
      forall p | p in consumer && Below(root, p) ensures Covered(done, p) {
        assert !(p in now.Keys);
      }
    }
  }

  /** Nothing the loop produces is both a file and a directory. */
  lemma OverlaidTreeShaped<V>(consumer: Files<V>, source: Files<V>, root: Bytes)
    requires TreeShaped(consumer) && TreeShaped(source) && !Blocked(consumer, root)
    ensures TreeShaped(Overlaid(consumer, source, [root]))
  {
    hide Covered, Below;
    var now := Overlaid(consumer, source, [root]);
    forall p ensures Covered([root], p) <==> Covers(root, p) {
      CoveredSnoc([], root, p);
      NoneCovered(p);
      assert [] + [root] == [root];
    }
    forall p, q | p in now && q in now ensures !Below(p, q) {
      if Below(p, q) && Covers(root, p) && !Covers(root, q) {
        if p != root { AncestorsComparable(p, q, root); }
      } else if Below(p, q) && Covers(root, q) && q != root && root != "." {
        BelowTransitive(p, q, root);
      }
    }
  }

  /** A checkout directory. */
  class Checkout<V(!new)> {
    var files: Files<V>

    constructor (initial: Files<V>)
      ensures files == initial
    {
      files := initial;
    }

    /** `shutil.rmtree` of a directory, or `unlink` of a file. */
    method Remove(root: Bytes)
      modifies this
      ensures files == map p | p in old(files) && !Covers(root, p) :: old(files)[p]
    {
      files := map p | p in files && !Covers(root, p) :: files[p];
    }

    /** `shutil.copytree` of a directory, or `copy2` of a file. */
    method Copy(source: Files<V>, root: Bytes)
      modifies this
      ensures files == old(files) + map p | p in source && Covers(root, p) :: source[p]
    {
      files := files + map p | p in source && Covers(root, p) :: source[p];
    }

    /** `overlay_paths`.  On failure the roots before the failing one have been laid. */
    method OverlayPaths(source: Files<V>, roots: seq<Bytes>) returns (ok: bool, ghost done: nat)
      requires TreeShaped(files) && TreeShaped(source)
      modifies this
      ensures TreeShaped(files)
      ensures ok <==> Ready(old(files), source, roots)
      ensures done <= |roots| && files == Overlaid(old(files), source, roots[..done])
      ensures ok <==> done == |roots|
      ensures !ok ==> Ready(old(files), source, roots[..done]) && !CanCopy(old(files), source, roots[..done], roots[done])
    {
      hide Covers, Covered, Overlaid, TreeShaped, CanCopy, Exists, Blocked, Ready;
      OverlaidNone(files, source);
      ReadyNone(files, source);
      assert roots[..0] == [];
      for n := 0 to |roots|
        invariant TreeShaped(files)
        invariant Ready(old(files), source, roots[..n])
        invariant files == Overlaid(old(files), source, roots[..n])
      {
        var root := roots[n];
        CanCopyMeaning(old(files), source, roots[..n], root);
        if !Exists(source, root) || Blocked(files, root) {
          NotReady(old(files), source, roots, n);
          return false, n;
        }
        ReadySnoc(old(files), source, roots[..n], root);
        OverlaidSnoc(old(files), source, roots[..n], root);
        assert roots[..n] + [root] == roots[..n + 1];
        OverlaidTreeShaped(files, source, root);
        OneRoot(files, source, root);
        Remove(root);
        Copy(source, root);
      }
      assert roots[..|roots|] == roots;
      return true, |roots|;
    }
  }

  lemma ReadyNone<V>(consumer: Files<V>, source: Files<V>)
    ensures Ready(consumer, source, [])
  {}

  lemma CanCopyMeaning<V>(consumer: Files<V>, source: Files<V>, done: seq<Bytes>, root: Bytes)
    requires TreeShaped(source)
    ensures CanCopy(consumer, source, done, root) <==>
      Exists(source, root) && !Blocked(Overlaid(consumer, source, done), root)
  {
    hide Exists, Blocked, Overlaid, Covered, Below;
    if Exists(source, root) { BlockedNow(consumer, source, done, root); }
  }

  lemma ReadySnoc<V>(consumer: Files<V>, source: Files<V>, roots: seq<Bytes>, root: Bytes)
    requires Ready(consumer, source, roots) && CanCopy(consumer, source, roots, root)
    ensures Ready(consumer, source, roots + [root])
  {
    hide CanCopy;
    var longer := roots + [root];
    forall i | 0 <= i < |longer| ensures CanCopy(consumer, source, longer[..i], longer[i]) {
      assert longer[..i] == roots[..i];
      assert i < |roots| ==> longer[i] == roots[i];
      assert roots[..|roots|] == roots;
    }
  }

  lemma NotReady<V>(consumer: Files<V>, source: Files<V>, roots: seq<Bytes>, n: nat)
    requires n < |roots| && !CanCopy(consumer, source, roots[..n], roots[n])
    ensures !Ready(consumer, source, roots)
  {
    hide CanCopy;
  }

  lemma OneRoot<V>(files: Files<V>, source: Files<V>, root: Bytes)
    ensures Overlaid(files, source, [root]) ==
      (map p | p in files && !Covers(root, p) :: files[p]) + (map p | p in source && Covers(root, p) :: source[p])
  {
    hide Covers;
    assert forall p :: Covered([root], p) ==> Covers(root, p);
    forall p | Covers(root, p) ensures Covered([root], p) {
      assert [root][0] == root;
    }
  }

  // ----- order, and agreement with the predicted files

  ghost predicate SameRoots(a: seq<Bytes>, b: seq<Bytes>) {
    forall r :: r in a <==> r in b
  }

  lemma CoveredByMember(roots: seq<Bytes>, path: Bytes)
    ensures Covered(roots, path) <==> exists r :: r in roots && Covers(r, path)
  {
    hide Covers;
    if r :| r in roots && Covers(r, path) {
      var i :| 0 <= i < |roots| && roots[i] == r;
      assert Covers(roots[i], path);
    }
  }

  /** The result depends on the set of roots alone. */
  lemma OverlaidIgnoresOrder<V>(consumer: Files<V>, source: Files<V>, a: seq<Bytes>, b: seq<Bytes>)
    requires SameRoots(a, b)
    ensures Overlaid(consumer, source, a) == Overlaid(consumer, source, b)
  {
    hide Covers, Covered;
    forall p ensures Covered(a, p) <==> Covered(b, p) {
      CoveredByMember(a, p);
      CoveredByMember(b, p);
    }
  }

  /** A root is not blocked when its turn comes: no consumer file stands above it, or the
      whole checkout has been laid before. */
  ghost predicate Clear<V>(consumer: Files<V>, roots: seq<Bytes>, i: nat)
    requires i < |roots|
  {
    Blocked(consumer, roots[i]) ==> "." in roots[..i]
  }

  lemma CopyMeaning<V>(consumer: Files<V>, source: Files<V>, roots: seq<Bytes>, i: nat)
    requires Separate(roots) && i < |roots|
    ensures CanCopy(consumer, source, roots[..i], roots[i]) <==> Exists(source, roots[i]) && Clear(consumer, roots, i)
  {
    hide Below, Exists;
    var done := roots[..i];
    if "." in done {
      forall p ensures Covered(done, p) { DotCovers(done, p); }
    } else {
      forall p | Below(roots[i], p) ensures !Covered(done, p) {
        if Covered(done, p) {
          var j :| 0 <= j < |done| && Covers(done[j], p);
          assert done[j] in done && roots[j] == done[j];
          if p != roots[j] { BelowTransitive(roots[i], p, roots[j]); }
          assert false;
        }
      }
    }
  }

  lemma DotCovers(roots: seq<Bytes>, path: Bytes)
    requires "." in roots
    ensures Covered(roots, path)
  {
    var i :| 0 <= i < |roots| && roots[i] == ".";
    assert Covers(roots[i], path);
  }

  /** For every list of separate roots: the loop succeeds exactly when the source has each root
      and none is blocked when its turn comes. */
  lemma ReadyMeaning<V>(consumer: Files<V>, source: Files<V>, roots: seq<Bytes>)
    requires Separate(roots)
    ensures Ready(consumer, source, roots) <==>
      forall i :: 0 <= i < |roots| ==> Exists(source, roots[i]) && Clear(consumer, roots, i)
  {
    hide Exists, Clear, CanCopy, Separate;
    forall i | 0 <= i < |roots|
      ensures CanCopy(consumer, source, roots[..i], roots[i]) <==> Exists(source, roots[i]) && Clear(consumer, roots, i)
    {
      CopyMeaning(consumer, source, roots, i);
    }
    if Ready(consumer, source, roots) {
      forall i | 0 <= i < |roots| ensures Exists(source, roots[i]) && Clear(consumer, roots, i) {
        assert CanCopy(consumer, source, roots[..i], roots[i]);
      }
    }
  }

  /** The whole checkout is a root, the source has every root, and a consumer file stands above one. */
  ghost predicate OrderSensitive<V>(consumer: Files<V>, source: Files<V>, roots: seq<Bytes>) {
    && "." in roots
    && (forall r :: r in roots ==> Exists(source, r))
    && exists r :: r in roots && Blocked(consumer, r)
  }

  lemma SeparateSet(a: seq<Bytes>, b: seq<Bytes>)
    requires Separate(a) && SameRoots(a, b)
    ensures Separate(b)
  {
    hide Below;
    forall i, j | 0 <= i < |b| && 0 <= j < |b| ensures !Below(b[i], b[j]) {
      assert b[i] in a && b[j] in a;
    }
  }

  lemma DotNotBlocked<V>(consumer: Files<V>)
    ensures !Blocked(consumer, ".")
  {
    forall p ensures !Below(".", p) { DotIsNotBelow(p); }
  }

  /** Unless the roots are order-sensitive, the verdict is a matter of the set alone. */
  lemma VerdictOfSet<V>(consumer: Files<V>, source: Files<V>, roots: seq<Bytes>)
    requires Separate(roots) && !OrderSensitive(consumer, source, roots)
    ensures Ready(consumer, source, roots) <==> forall r :: r in roots ==> Exists(source, r) && !Blocked(consumer, r)
  {
    hide Separate, Exists, Blocked, Ready;
    ReadyMeaning(consumer, source, roots);
    if Ready(consumer, source, roots) {
      forall r | r in roots ensures Exists(source, r) {
        var i :| 0 <= i < |roots| && roots[i] == r;
        assert Clear(consumer, roots, i);
      }
      forall r | r in roots ensures !Blocked(consumer, r) {
        var i :| 0 <= i < |roots| && roots[i] == r;
        assert Clear(consumer, roots, i);
        assert forall x :: x in roots[..i] ==> x in roots;
      }
    }
  }

  /** What the loop lays never depends on the order of the roots, and whether it succeeds does
      not either, unless the roots are order-sensitive. */
  lemma OverlayIgnoresOrder<V>(consumer: Files<V>, source: Files<V>, a: seq<Bytes>, b: seq<Bytes>)
    requires Separate(a) && SameRoots(a, b)
    ensures Overlaid(consumer, source, a) == Overlaid(consumer, source, b)
    ensures !OrderSensitive(consumer, source, a) ==> (Ready(consumer, source, a) <==> Ready(consumer, source, b))
  {
    hide Separate, Ready, Exists, Blocked, Overlaid;
    OverlaidIgnoresOrder(consumer, source, a, b);
    SeparateSet(a, b);
    if !OrderSensitive(consumer, source, a) {
      VerdictOfSet(consumer, source, a);
      VerdictOfSet(consumer, source, b);
    }
  }

  /** The list with the root at `k` moved to the front. */
  function Promoted(roots: seq<Bytes>, k: nat): seq<Bytes>
    requires k < |roots|
  {
    [roots[k]] + roots[..k] + roots[k + 1..]
  }

  lemma PromotedSame(roots: seq<Bytes>, k: nat)
    requires k < |roots|
    ensures multiset(Promoted(roots, k)) == multiset(roots) && SameRoots(roots, Promoted(roots, k))
  {
    assert roots == roots[..k] + [roots[k]] + roots[k + 1..];
    assert multiset(Promoted(roots, k)) == multiset(roots);
    forall r ensures r in roots <==> r in Promoted(roots, k) {
      assert r in roots <==> r in multiset(roots);
      assert r in Promoted(roots, k) <==> r in multiset(Promoted(roots, k));
    }
  }

  /** Order-sensitive roots succeed with the whole checkout first and fail with a blocked root first. */
  lemma SensitiveVerdicts<V>(consumer: Files<V>, source: Files<V>, roots: seq<Bytes>, dot: nat, blocked: nat)
    requires Separate(roots) && OrderSensitive(consumer, source, roots)
    requires dot < |roots| && roots[dot] == "." && blocked < |roots| && Blocked(consumer, roots[blocked])
    ensures Ready(consumer, source, Promoted(roots, dot)) && !Ready(consumer, source, Promoted(roots, blocked))
  {
    hide Separate, Exists, Blocked, Ready;
    var good, bad := Promoted(roots, dot), Promoted(roots, blocked);
    PromotedSame(roots, dot);
    PromotedSame(roots, blocked);
    SeparateSet(roots, good);
    SeparateSet(roots, bad);
    ReadyMeaning(consumer, source, good);
    ReadyMeaning(consumer, source, bad);
    DotNotBlocked(consumer);
    forall i | 0 <= i < |good| ensures Exists(source, good[i]) && Clear(consumer, good, i) {
      assert good[i] in roots;
      assert i > 0 ==> good[..i][0] == ".";
    }
    assert bad[..0] == [] && !Clear(consumer, bad, 0);
  }

  /** Exactly when the verdict depends on the order: some rearrangement of the roots gets another
      verdict if and only if the roots are order-sensitive. */
  lemma OrderMatters<V>(consumer: Files<V>, source: Files<V>, roots: seq<Bytes>)
    requires Separate(roots)
    ensures (exists other :: multiset(other) == multiset(roots) && Ready(consumer, source, other) != Ready(consumer, source, roots))
      <==> OrderSensitive(consumer, source, roots)
  {
    hide Separate, Ready, Overlaid, Exists, Blocked;
    if OrderSensitive(consumer, source, roots) {
      var dot :| 0 <= dot < |roots| && roots[dot] == ".";
      var r :| r in roots && Blocked(consumer, r);
      var k :| 0 <= k < |roots| && roots[k] == r;
      SensitiveVerdicts(consumer, source, roots, dot, k);
      PromotedSame(roots, dot);
      PromotedSame(roots, k);
      var other := if Ready(consumer, source, roots) then Promoted(roots, k) else Promoted(roots, dot);
      assert multiset(other) == multiset(roots) && Ready(consumer, source, other) != Ready(consumer, source, roots);
    } else {
      forall other | multiset(other) == multiset(roots) ensures Ready(consumer, source, other) == Ready(consumer, source, roots) {
        assert forall x :: x in roots <==> x in multiset(roots);
        assert forall x :: x in other <==> x in multiset(other);
        OverlayIgnoresOrder(consumer, source, roots, other);
      }
    }
  }

  lemma SlashFacts()
    ensures Below("a/b", "a") && !Below("a/b", ".") && !Below("a/b", "a/b")
  {
    assert "a/b"[..2] == "a" + ['/'];
    assert "a/b"[..2][0] == 'a' && ("." + ['/'])[0] == '.';
  }

  lemma ForbiddenFirst(i: nat)
    requires i < |FORBIDDEN_PRODUCT_ROOTS|
    ensures FORBIDDEN_PRODUCT_ROOTS[i] != [] && FORBIDDEN_PRODUCT_ROOTS[i][0] in ["crates", "tauri"]
  {}

  lemma SplitExample()
    ensures Split("a/b") == ["a", "b"] && Split("./") == [".", []]
  {
    hide Split;
    SplitLast("b");
    SplitLast([]);
    SplitHead("a", "b");
    SplitHead(".", []);
    assert "a" + ['/'] + "b" == "a/b" && "." + ['/'] + [] == "./";
  }

  lemma NormalExample()
    ensures Normal("a/b") == "a/b" && Normal("./") == "." && Parts("a/b") == ["a", "b"]
  {
    hide Split, Join;
    SplitExample();
    KeptPartsFixed(["a", "b"]);
    NothingKept([".", []]);
    JoinSplit("a/b");
  }

  lemma AcceptedExample()
    ensures ValidateOverlayPath("a/b") == Ok("a/b") && ValidateOverlayPath("./") == Ok(".")
  {
    hide FORBIDDEN_PRODUCT_ROOTS, ValidateOverlayPath, Normal, Parts;
    NormalExample();
    AcceptedPathContained("a/b");
    forall i | 0 <= i < |FORBIDDEN_PRODUCT_ROOTS| ensures !(FORBIDDEN_PRODUCT_ROOTS[i] <= Parts("a/b")) {
      ForbiddenFirst(i);
    }
    ValidatedIsNormal("a/b");
    WholeCheckoutExamples();
  }

  lemma ContractExample()
    ensures AcceptedRoots(["./", "a/b"]) && Dedup(Normals(["./", "a/b"])) == [".", "a/b"]
  {
    hide Below, ValidateOverlayPath, Normal, Dedup;
    SlashFacts();
    DotIsNotBelow(".");
    DotIsNotBelow("a/b");
    AcceptedExample();
    NormalExample();
    assert Normals(["./", "a/b"]) == [".", "a/b"];
    DedupTwo(".", "a/b");
  }

  /** A pair of trees and a contract's path list for which the order matters. */
  lemma OrderMattersExample()
    ensures AcceptedRoots(["./", "a/b"]) && Dedup(Normals(["./", "a/b"])) == [".", "a/b"]
    ensures var consumer, source := map["a" := 0], map["a/b" := 1];
      && Separate([".", "a/b"]) && OrderSensitive(consumer, source, [".", "a/b"])
      && Ready(consumer, source, [".", "a/b"]) && !Ready(consumer, source, ["a/b", "."])
  {
    hide Ready, AcceptedRoots, Normals, Dedup, Separate, OrderSensitive, Blocked;
    var consumer: Files<int>, source: Files<int> := map["a" := 0], map["a/b" := 1];
    var roots := [".", "a/b"];
    ContractExample();
    SensitiveExample(consumer, source, "a/b");
    SensitiveVerdicts(consumer, source, roots, 0, 1);
    assert Promoted(roots, 0) == roots && Promoted(roots, 1) == ["a/b", "."];
  }

  lemma SeparateTwo(a: Bytes, b: Bytes)
    requires !Below(a, b) && !Below(b, a)
    ensures Separate([a, b])
  {
    NotBelowItself(a);
    NotBelowItself(b);
    hide Below;
  }

  lemma SensitiveExample(consumer: Files<int>, source: Files<int>, r: Bytes)
    requires r == "a/b" && "a" in consumer && r in source
    ensures Separate([".", r]) && OrderSensitive(consumer, source, [".", r]) && Blocked(consumer, r)
  {
    hide Below, Separate;
    var roots := [".", r];
    SlashFacts();
    DotIsNotBelow(r);
    SeparateTwo(".", r);
    assert "a" in consumer.Keys && r in source.Keys && Covers(r, r);
    assert roots[0] == "." && roots[1] == r;
    assert Exists(source, ".") && Exists(source, r) && Blocked(consumer, r);
    assert forall x :: x in roots ==> x == "." || x == r;
  }

  lemma DedupTwo(a: Bytes, b: Bytes)
    requires a != b
    ensures Dedup([a, b]) == [a, b]
  {
    DedupEmpty();
    DedupSnoc([], a);
    DedupSnoc([a], b);
    assert [] + [a] == [a] && [a] + [b] == [a, b];
  }

  // ----- the product's own files

  /** The list that the contract yields: separate, and each root the normal form of an accepted path. */
  ghost predicate ContractRoots(roots: seq<Bytes>) {
    && Separate(roots)
    && forall r :: r in roots ==> exists v :: ValidateOverlayPath(v) == Ok(r)
  }

  lemma AcceptedListIsContract(values: seq<Bytes>)
    requires AcceptedRoots(values)
    ensures ContractRoots(Dedup(Normals(values)))
  {
    hide ValidateOverlayPath, Normal, Dedup, Separate;
    SeparateDedup(Normals(values));
    forall r | r in Dedup(Normals(values)) ensures exists v :: ValidateOverlayPath(v) == Ok(r) {
      assert r in Normals(values);
      var i :| 0 <= i < |values| && Normals(values)[i] == r;
      ValidatedIsNormal(values[i]);
      assert ValidateOverlayPath(values[i]) == Ok(r);
    }
  }

  /** No overlay of these roots that succeeds changes a file the product owns. */
  ghost predicate KeepsProduct(roots: seq<Bytes>) {
    forall consumer: Files<int>, source: Files<int>, p ::
      TreeShaped(consumer) && TreeShaped(source) && Ready(consumer, source, roots) && ProductOwned(p) ==>
        At(Overlaid(consumer, source, roots), p) == At(consumer, p)
  }

  /** The root is the whole checkout, or lies above a directory that the product owns. */
  ghost predicate AboveProduct(r: Bytes) {
    r == "." || exists i :: 0 <= i < |FORBIDDEN_PRODUCT_ROOTS| && Parts(r) <= FORBIDDEN_PRODUCT_ROOTS[i]
  }

  lemma RootFacts(r: Bytes, v: Bytes)
    requires ValidateOverlayPath(v) == Ok(r)
    ensures !ProductOwned(r) && Normal(r) == r && PlainNames(Parts(r))
    ensures r != "." ==> Parts(r) != [] && Join(Parts(r)) == r
  {
    hide FORBIDDEN_PRODUCT_ROOTS, Split, Join, KeptParts;
    NormalIdempotent(v);
    PartsPlain(r);
  }

  /** A root that covers a product file is the whole checkout or lies above its directory. */
  lemma CoveringRoot(r: Bytes, v: Bytes, p: Bytes)
    requires ValidateOverlayPath(v) == Ok(r) && Covers(r, p) && ProductOwned(p)
    ensures AboveProduct(r)
  {
    hide FORBIDDEN_PRODUCT_ROOTS, Parts, Below, Join;
    RootFacts(r, v);
    if r != "." {
      var i :| 0 <= i < |FORBIDDEN_PRODUCT_ROOTS| &&
        (p == Join(FORBIDDEN_PRODUCT_ROOTS[i]) || Below(p, Join(FORBIDDEN_PRODUCT_ROOTS[i])));
      var root := Join(FORBIDDEN_PRODUCT_ROOTS[i]);
      NotInProduct(r, i);
      if p != r && p != root { AncestorsComparable(p, r, root); }
      assert Below(root, r);
      ForbiddenRootsPlain(i);
      BelowIsContainment(FORBIDDEN_PRODUCT_ROOTS[i], Parts(r));
    }
  }

  lemma NotInProduct(r: Bytes, i: nat)
    requires !ProductOwned(r) && i < |FORBIDDEN_PRODUCT_ROOTS|
    ensures r != Join(FORBIDDEN_PRODUCT_ROOTS[i]) && !Below(r, Join(FORBIDDEN_PRODUCT_ROOTS[i]))
  {
    hide FORBIDDEN_PRODUCT_ROOTS, Below, Join;
  }

  /** The trees that show it: the source has nothing but the roots, the consumer one product file. */
  lemma ProductLost(roots: seq<Bytes>, r: Bytes)
    requires ContractRoots(roots) && r in roots && AboveProduct(r)
    ensures !KeepsProduct(roots)
  {
    hide FORBIDDEN_PRODUCT_ROOTS, Parts, Below, Join, ValidateOverlayPath, Ready, Overlaid, Covered;
    var i := ProductBelow(r, roots);
    var lost := Join(FORBIDDEN_PRODUCT_ROOTS[i]);
    var consumer: Files<int> := map[lost := 0];
    var source: Files<int> := map x | x in roots && x != "." :: 1;
    assert ProductOwned(lost);
    forall x | x in roots ensures x != lost && !Below(x, lost) && Exists(source, x) {
      var v :| ValidateOverlayPath(v) == Ok(x);
      RootFacts(x, v);
      NotInProduct(x, i);
      assert x != "." ==> x in source.Keys && Covers(x, x);
    }
    assert TreeShaped(consumer) by { NotBelowItself(lost); }
    assert TreeShaped(source) by { SourceShaped(roots, source); }
    assert Ready(consumer, source, roots) by {
      ReadyMeaning(consumer, source, roots);
      forall k | 0 <= k < |roots| ensures Exists(source, roots[k]) && Clear(consumer, roots, k) { assert roots[k] in roots; }
    }
    assert Covered(roots, lost) by { CoveredByMember(roots, lost); }
    OverlaidAt(consumer, source, roots, lost);
    assert At(Overlaid(consumer, source, roots), lost) != At(consumer, lost);
  }

  lemma NotBelowItself(p: Bytes)
    ensures !Below(p, p)
  {}

  lemma SourceShaped(roots: seq<Bytes>, source: Files<int>)
    requires Separate(roots) && forall x :: x in source ==> x in roots
    ensures TreeShaped(source)
  {
    hide Below;
    forall p, q | p in source && q in source ensures !Below(p, q) {
      assert p in roots && q in roots;
    }
  }

  lemma ProductBelow(r: Bytes, roots: seq<Bytes>) returns (i: nat)
    requires ContractRoots(roots) && r in roots && AboveProduct(r)
    ensures i < |FORBIDDEN_PRODUCT_ROOTS| && Covers(r, Join(FORBIDDEN_PRODUCT_ROOTS[i]))
  {
    hide Below, Join, ValidateOverlayPath, Parts, Separate;
    if r == "." {
      i := 0;
    } else {
      i :| 0 <= i < |FORBIDDEN_PRODUCT_ROOTS| && Parts(r) <= FORBIDDEN_PRODUCT_ROOTS[i];
      var v :| ValidateOverlayPath(v) == Ok(r);
      RootFacts(r, v);
      ForbiddenRootsPlain(i);
      BelowIsContainment(FORBIDDEN_PRODUCT_ROOTS[i], Parts(r));
    }
  }

  /** Product files survive every overlay of the contract's roots if and only if no root is the
      whole checkout or lies above a product-owned directory: the path test looks one way only. */
  lemma ProductFilesSurvive(roots: seq<Bytes>)
    requires ContractRoots(roots)
    ensures KeepsProduct(roots) <==> forall r :: r in roots ==> !AboveProduct(r)
  {
    hide AboveProduct, ValidateOverlayPath, Ready, Overlaid, Covered, ProductOwned, TreeShaped, Separate, At;
    if forall r :: r in roots ==> !AboveProduct(r) {
      forall consumer: Files<int>, source: Files<int>, p | ProductOwned(p)
        ensures At(Overlaid(consumer, source, roots), p) == At(consumer, p)
      {
        OverlaidAt(consumer, source, roots, p);
        CoveredByMember(roots, p);
        if Covered(roots, p) {
          var r :| r in roots && Covers(r, p);
          var v :| ValidateOverlayPath(v) == Ok(r);
          CoveringRoot(r, v, p);
        }
      }
    } else {
      var r :| r in roots && AboveProduct(r);
      ProductLost(roots, r);
    }
  }

  lemma ForbiddenPairs(i: nat)
    requires i < |FORBIDDEN_PRODUCT_ROOTS|
    ensures FORBIDDEN_PRODUCT_ROOTS[i] == ["tauri"] || |FORBIDDEN_PRODUCT_ROOTS[i]| == 2
  {}

  lemma FirstForbidden()
    ensures |FORBIDDEN_PRODUCT_ROOTS| > 0 && ["crates"] <= FORBIDDEN_PRODUCT_ROOTS[0]
  {}

  /** One such root: the directory of all crates. */
  lemma ProductLostExample()
    ensures ValidateOverlayPath("crates") == Ok("crates") && AboveProduct("crates")
  {
    hide FORBIDDEN_PRODUCT_ROOTS, ValidateOverlayPath, Split, Join;
    FirstForbidden();
    SplitLast("crates");
    KeptPartsFixed(["crates"]);
    JoinSplit("crates");
    var parts := Parts("crates");
    assert parts == ["crates"] && Normal("crates") == "crates";
    assert parts <= FORBIDDEN_PRODUCT_ROOTS[0];
    AcceptedPathContained("crates");
    forall i | 0 <= i < |FORBIDDEN_PRODUCT_ROOTS| ensures !(FORBIDDEN_PRODUCT_ROOTS[i] <= parts) {
      ForbiddenPairs(i);
    }
    ValidatedIsNormal("crates");
  }

  predicate Predicted(roots: seq<Bytes>, path: Bytes) {
    exists i :: 0 <= i < |roots| && Below(path, roots[i])
  }

  /** `expected_files`, on the two commits' file maps. */
  function ExpectedFiles<V>(source: Files<V>, consumer: Files<V>, roots: seq<Bytes>): Files<V> {
    (map p | p in consumer && !Predicted(roots, p) :: consumer[p])
    + (map p | p in source && Predicted(roots, p) :: source[p])
  }

  lemma ExpectedAt<V>(source: Files<V>, consumer: Files<V>, roots: seq<Bytes>, path: Bytes)
    ensures At(ExpectedFiles(source, consumer, roots), path) == At(if Predicted(roots, path) then source else consumer, path)
  {
    hide Predicted;
  }

  /** The two commits agree wherever the loop lays a path that the prediction leaves alone, except
      at the paths given: at each root itself or, when the whole checkout is a root, everywhere
      outside the other roots. */
  ghost predicate RootsAgree<V>(consumer: Files<V>, source: Files<V>, roots: seq<Bytes>, except: set<Bytes>) {
    if "." in roots then forall p :: p in except || Predicted(roots, p) || At(source, p) == At(consumer, p)
    else forall r :: r in roots ==> r in except || At(source, r) == At(consumer, r)
  }

  /** Where loop and prediction differ in what they cover. */
  lemma CoverageGap(roots: seq<Bytes>, path: Bytes)
    requires Separate(roots)
    ensures Predicted(roots, path) ==> Covered(roots, path)
    ensures (Covered(roots, path) && !Predicted(roots, path)) <==> !Predicted(roots, path) && ("." in roots || path in roots)
    ensures path in roots ==> !Predicted(roots, path)
  {
    hide Below;
    CoveredByMember(roots, path);
    if Predicted(roots, path) {
      var i :| 0 <= i < |roots| && Below(path, roots[i]);
      assert Covers(roots[i], path);
    }
  }

  /** Away from the exceptions, the laid tree is the predicted one if and only if the two
      commits agree at the roots. */
  lemma LaidAsPredicted<V>(consumer: Files<V>, source: Files<V>, roots: seq<Bytes>, except: set<Bytes>)
    requires Separate(roots)
    ensures (forall p :: p in except || At(Overlaid(consumer, source, roots), p) == At(ExpectedFiles(source, consumer, roots), p)) <==>
      RootsAgree(consumer, source, roots, except)
  {
    hide Separate, Overlaid, ExpectedFiles, Covered, Predicted, At;
    var laid, expected := Overlaid(consumer, source, roots), ExpectedFiles(source, consumer, roots);
    forall p ensures At(laid, p) == At(expected, p) <==>
      Predicted(roots, p) || !("." in roots || p in roots) || At(source, p) == At(consumer, p)
    {
      OverlaidAt(consumer, source, roots, p);
      ExpectedAt(source, consumer, roots, p);
      CoverageGap(roots, p);
    }
    forall p | p in roots ensures !Predicted(roots, p) { CoverageGap(roots, p); }
  }

  /** The laid tree is the predicted one if and only if the two commits agree at the roots. */
  lemma OverlaidIsExpected<V>(consumer: Files<V>, source: Files<V>, roots: seq<Bytes>)
    requires Separate(roots)
    ensures Overlaid(consumer, source, roots) == ExpectedFiles(source, consumer, roots) <==>
      RootsAgree(consumer, source, roots, {})
  {
    hide Separate, Overlaid, ExpectedFiles, RootsAgree;
    LaidAsPredicted(consumer, source, roots, {});
    if RootsAgree(consumer, source, roots, {}) {
      SameEverywhere(Overlaid(consumer, source, roots), ExpectedFiles(source, consumer, roots));
    }
  }

  /** The failing family: wherever the consumer has a file at a root that is a directory in the
      source, the prediction keeps the file on top of the directory, and the loop does not. */
  lemma PredictionKeepsRootFile<V>(consumer: Files<V>, source: Files<V>, roots: seq<Bytes>, r: Bytes)
    requires Separate(roots) && r in roots && r != "."
    requires r in consumer && r !in source && Exists(source, r)
    ensures r !in Overlaid(consumer, source, roots) && r in ExpectedFiles(source, consumer, roots)
    ensures !TreeShaped(ExpectedFiles(source, consumer, roots))
  {
    hide Separate, Overlaid, ExpectedFiles, Covered, Predicted, Below;
    var expected := ExpectedFiles(source, consumer, roots);
    CoverageGap(roots, r);
    OverlaidAt(consumer, source, roots, r);
    ExpectedAt(source, consumer, roots, r);
    var q :| q in source.Keys && Covers(r, q);
    PredictedBelow(roots, r, q);
    ExpectedAt(source, consumer, roots, q);
    assert r in expected && q in expected && Below(q, r);
  }

  lemma PredictedBelow(roots: seq<Bytes>, r: Bytes, path: Bytes)
    requires r in roots && Below(path, r)
    ensures Predicted(roots, path)
  {
    var i :| 0 <= i < |roots| && roots[i] == r;
    assert Below(path, roots[i]);
  }

  /** One such pair of trees. */
  lemma RootFileExample()
    ensures var consumer, source := map["a" := 0], map["a/b" := 1];
      Overlaid(consumer, source, ["a"]) != ExpectedFiles(source, consumer, ["a"])
  {
    hide Overlaid, ExpectedFiles;
    var consumer: Files<int>, source: Files<int> := map["a" := 0], map["a/b" := 1];
    assert Covers("a", "a/b") by { assert "a/b"[..2] == "a" + ['/']; }
    assert "a/b" in source.Keys && Exists(source, "a") && "a" in ["a"];
    PredictionKeepsRootFile(consumer, source, ["a"], "a");
  }
}
