/** Verifying a prepared checkout file by file. */
module CheckoutProof {
  import opened ByteStrings
  import opened Overlay
  import opened Results

  datatype Leaf = Leaf(mode: Bytes, blob: Bytes)

  const APP_MANIFEST: Bytes := "crates/rssh-app/Cargo.toml"
  const LOCK_FILE: Bytes := "Cargo.lock"
  const REGULAR: Bytes := "100644"
  const EXECUTABLE: Bytes := "100755"

  /** What the walk finds: a directory or a file, with its link flag; for a file
      also the owner's execute bit and the bytes. */
  datatype Entry =
    | Directory(path: Bytes, link: bool)
    | Regular(path: Bytes, link: bool, executable: bool, data: Bytes)

  /** `tree_files` lets only the two regular modes through. */
  ghost predicate RegularModes(files: Files<Leaf>) {
    forall p :: p in files ==> files[p].mode in {REGULAR, EXECUTABLE}
  }

  ghost predicate DistinctPaths(walk: seq<Entry>) {
    forall i, j :: 0 <= i < j < |walk| ==> walk[i].path != walk[j].path
  }

  /** The walk does not descend into the top-level `.git` directory. */
  predicate Pruned(path: Bytes) {
    Below(path, ".git")
  }

  predicate Visited(e: Entry) {
    !Pruned(e.path)
  }

  predicate Counted(e: Entry) {
    e.Regular? && Visited(e)
  }

  function Allowed(): set<Bytes> {
    {APP_MANIFEST, LOCK_FILE}
  }

  function BlobId(sha1: Digest, data: Bytes): Bytes {
    ObjectId(sha1, BlobKind, data)
  }

  /** The predicted files with the permitted replacements. */
  function Permitted(sha1: Digest, expected: Files<Leaf>, overrides: map<Bytes, Bytes>): Files<Leaf> {
    expected + map p | p in overrides :: Leaf(REGULAR, BlobId(sha1, overrides[p]))
  }

  function Without(overrides: map<Bytes, Bytes>, rest: set<Bytes>): map<Bytes, Bytes> {
    map p | p in overrides.Keys - rest :: overrides[p]
  }

  /** What a file looks like to Git; a file system without an execute bit takes the mode on trust. */
  function LeafOf(sha1: Digest, posix: bool, e: Entry, claimed: Bytes): Leaf
    requires e.Regular?
  {
    Leaf(if !posix then claimed else if e.executable then EXECUTABLE else REGULAR, BlobId(sha1, e.data))
  }

  /** The checkout holds exactly these files: each one is found, and nothing else is. */
  ghost predicate Holds(sha1: Digest, posix: bool, walk: seq<Entry>, files: Files<Leaf>) {
    && (forall i :: 0 <= i < |walk| && Counted(walk[i]) ==> Matches(sha1, posix, walk[i], files))
    && (forall p :: p in files ==> Found(walk, p))
  }

  predicate Matches(sha1: Digest, posix: bool, e: Entry, files: Files<Leaf>) {
    e.Regular? && e.path in files && files[e.path] == LeafOf(sha1, posix, e, files[e.path].mode)
  }

  ghost predicate Found(walk: seq<Entry>, path: Bytes) {
    exists i :: 0 <= i < |walk| && Counted(walk[i]) && walk[i].path == path
  }

  ghost predicate LinkFree(walk: seq<Entry>) {
    forall i :: 0 <= i < |walk| && Visited(walk[i]) ==> !walk[i].link
  }

  method CheckFile(sha1: Digest, posix: bool, e: Entry, permitted: Files<Leaf>) returns (ok: bool)
    requires e.Regular? && RegularModes(permitted)
    ensures ok <==> Matches(sha1, posix, e, permitted)
  {
    hide BlobId;
    if e.path !in permitted {
      return false;
    }
    var leaf := permitted[e.path];
    if BlobId(sha1, e.data) != leaf.blob {
      return false;
    }
    if posix && e.executable != (leaf.mode == EXECUTABLE) {
      return false;
    }
    return true;
  }

  /** The expected files with the overrides written over them, if those are allowed. */
  method ApplyOverrides(sha1: Digest, expected: Files<Leaf>, overrides: map<Bytes, Bytes>) returns (r: Result<Files<Leaf>>)
    ensures r.Ok? <==> overrides.Keys <= Allowed()
    ensures r.Ok? ==> r.value == Permitted(sha1, expected, overrides)
  {
    hide BlobId, Permitted;
    var permitted := expected;
    var rest := overrides.Keys;
    NoOverrides(sha1, expected, overrides);
    while rest != {}
      invariant rest <= overrides.Keys && overrides.Keys - rest <= Allowed()
      invariant permitted == Permitted(sha1, expected, Without(overrides, rest))
      decreases rest
    {
      var path :| path in rest;
      if path !in Allowed() {
        return Err;
      }
      PermittedStep(sha1, expected, overrides, rest, path);
      permitted := permitted[path := Leaf(REGULAR, BlobId(sha1, overrides[path]))];
      rest := rest - {path};
    }
    assert overrides == Without(overrides, rest);
    return Ok(permitted);
  }

  lemma NoOverrides(sha1: Digest, expected: Files<Leaf>, overrides: map<Bytes, Bytes>)
    ensures Permitted(sha1, expected, Without(overrides, overrides.Keys)) == expected
  {}

  /** The walk, file by file. */
  method CheckWalk(sha1: Digest, posix: bool, walk: seq<Entry>, permitted: Files<Leaf>) returns (ok: bool)
    requires RegularModes(permitted)
    ensures ok <==> LinkFree(walk) && Holds(sha1, posix, walk, permitted)
  {
    hide BlobId, Matches, Counted, Visited;
    var seen: set<Bytes> := {};
    for n := 0 to |walk|
      invariant LinkFree(walk[..n])
      invariant forall i :: 0 <= i < n && Counted(walk[i]) ==> Matches(sha1, posix, walk[i], permitted)
      invariant forall p :: p in seen <==> Found(walk[..n], p)
    {
      var e := walk[n];
      assert walk[..n + 1] == walk[..n] + [e];
      if Visited(e) && e.link {
        return false;
      }
      FoundSnoc(walk[..n], e);
      CountedMeaning(e);
      if Counted(e) {
        var good := CheckFile(sha1, posix, e, permitted);
        if !good {
          return false;
        }
        seen := seen + {e.path};
      }
    }
    assert walk[..|walk|] == walk;
    AllSeen(sha1, posix, walk, permitted, seen);
    return seen == permitted.Keys;
  }

  /** `verify_checkout`. */
  method VerifyCheckout(sha1: Digest, posix: bool, rootIsLink: bool, walk: seq<Entry>,
                        expected: Files<Leaf>, overrides: map<Bytes, Bytes>) returns (ok: bool)
    requires RegularModes(expected)
    ensures ok <==>
      && !rootIsLink
      && overrides.Keys <= Allowed()
      && LinkFree(walk)
      && Holds(sha1, posix, walk, Permitted(sha1, expected, overrides))
  {
    hide LinkFree, Holds, Permitted, RegularModes;
    if rootIsLink {
      return false;
    }
    var permitted := ApplyOverrides(sha1, expected, overrides);
    if permitted.Err? {
      return false;
    }
    PermittedModes(sha1, expected, overrides);
    ok := CheckWalk(sha1, posix, walk, permitted.value);
  }

  lemma CountedMeaning(e: Entry)
    ensures Counted(e) ==> e.Regular?
  {}

  lemma FoundSnoc(walk: seq<Entry>, e: Entry)
    ensures forall p :: Found(walk + [e], p) <==> Found(walk, p) || (Counted(e) && e.path == p)
  {
    hide Counted;
    var longer := walk + [e];
    forall p ensures Found(longer, p) <==> Found(walk, p) || (Counted(e) && e.path == p) {
      if Found(walk, p) {
        var i :| 0 <= i < |walk| && Counted(walk[i]) && walk[i].path == p;
        assert longer[i] == walk[i];
      }
      if Counted(e) && e.path == p {
        assert longer[|walk|] == e;
      }
    }
  }

  lemma PermittedStep(sha1: Digest, expected: Files<Leaf>, overrides: map<Bytes, Bytes>, rest: set<Bytes>, path: Bytes)
    requires path in rest && rest <= overrides.Keys
    ensures Permitted(sha1, expected, Without(overrides, rest - {path})) ==
      Permitted(sha1, expected, Without(overrides, rest))
        [path := Leaf(REGULAR, BlobId(sha1, overrides[path]))]
  {
    hide BlobId;
  }

  lemma PermittedModes(sha1: Digest, expected: Files<Leaf>, overrides: map<Bytes, Bytes>)
    requires RegularModes(expected)
    ensures RegularModes(Permitted(sha1, expected, overrides))
  {
    hide BlobId;
  }

  lemma AllSeen(sha1: Digest, posix: bool, walk: seq<Entry>, files: Files<Leaf>, seen: set<Bytes>)
    requires forall i :: 0 <= i < |walk| && Counted(walk[i]) ==> Matches(sha1, posix, walk[i], files)
    requires forall p :: p in seen <==> Found(walk, p)
    ensures seen == files.Keys <==> Holds(sha1, posix, walk, files)
  {
    hide LeafOf, Counted;
    assert forall i :: 0 <= i < |walk| && Counted(walk[i]) ==> walk[i].Regular? by {
      forall i | 0 <= i < |walk| && Counted(walk[i]) ensures walk[i].Regular? { CountedMeaning(walk[i]); }
    }
    forall p | p in seen ensures p in files {
      var i :| 0 <= i < |walk| && Counted(walk[i]) && walk[i].path == p;
      assert Matches(sha1, posix, walk[i], files);
    }
  }

  /** On a file system with execute bits: the map of the files found. */
  function Content(sha1: Digest, walk: seq<Entry>): Files<Leaf> {
    if walk == [] then map[]
    else
      var e, rest := walk[|walk| - 1], Content(sha1, walk[..|walk| - 1]);
      if Counted(e) then rest[e.path := LeafOf(sha1, true, e, [])] else rest
  }

  lemma {:induction false} ContentFound(sha1: Digest, walk: seq<Entry>, path: Bytes)
    ensures path in Content(sha1, walk) <==> Found(walk, path)
  {
    if walk != [] {
      var init, e := walk[..|walk| - 1], walk[|walk| - 1];
      ContentFound(sha1, init, path);
      FoundSnoc(init, e);
      assert init + [e] == walk;
    }
  }

  lemma {:induction false} ContentAt(sha1: Digest, walk: seq<Entry>, i: nat)
    requires DistinctPaths(walk) && i < |walk| && Counted(walk[i])
    ensures walk[i].path in Content(sha1, walk)
    ensures Content(sha1, walk)[walk[i].path] == LeafOf(sha1, true, walk[i], [])
  {
    hide BlobId, LeafOf, Counted;
    CountedMeaning(walk[i]);
    if i < |walk| - 1 {
      var init := walk[..|walk| - 1];
      assert DistinctPaths(init) && init[i] == walk[i];
      ContentAt(sha1, init, i);
    }
  }

  /** Where modes are visible, the file-by-file test is equality of two maps. */
  lemma HoldsIsEquality(sha1: Digest, walk: seq<Entry>, files: Files<Leaf>)
    requires DistinctPaths(walk)
    ensures Holds(sha1, true, walk, files) <==> Content(sha1, walk) == files
  {
    hide BlobId, Counted, Content, DistinctPaths;
    var content := Content(sha1, walk);
    forall p ensures p in content <==> Found(walk, p) { ContentFound(sha1, walk, p); }
    forall i | 0 <= i < |walk| && Counted(walk[i])
      ensures walk[i].Regular? && walk[i].path in content
      ensures content[walk[i].path] == LeafOf(sha1, true, walk[i], [])
    {
      CountedMeaning(walk[i]);
      ContentAt(sha1, walk, i);
    }
    if Holds(sha1, true, walk, files) {
      forall p | p in content ensures p in files && content[p] == files[p] {
        var i :| 0 <= i < |walk| && Counted(walk[i]) && walk[i].path == p;
        assert Matches(sha1, true, walk[i], files);
      }
      assert content == files;
    }
  }

  lemma PermittedAt(sha1: Digest, files: Files<Leaf>, overrides: map<Bytes, Bytes>, path: Bytes)
    ensures At(Permitted(sha1, files, overrides), path) ==
      if path in overrides then Some(Leaf(REGULAR, BlobId(sha1, overrides[path]))) else At(files, path)
  {
    hide BlobId;
  }

  /** Overridden alike, two file maps agree if and only if they do outside the overrides. */
  lemma PermittedEqual(sha1: Digest, a: Files<Leaf>, b: Files<Leaf>, overrides: map<Bytes, Bytes>)
    ensures Permitted(sha1, a, overrides) == Permitted(sha1, b, overrides) <==>
      forall p :: p in overrides.Keys || At(a, p) == At(b, p)
  {
    hide Permitted, BlobId, At;
    forall p ensures At(Permitted(sha1, a, overrides), p) == At(Permitted(sha1, b, overrides), p) <==>
      p in overrides.Keys || At(a, p) == At(b, p)
    {
      PermittedAt(sha1, a, overrides, p);
      PermittedAt(sha1, b, overrides, p);
    }
    if forall p :: p in overrides.Keys || At(a, p) == At(b, p) {
      SameEverywhere(Permitted(sha1, a, overrides), Permitted(sha1, b, overrides));
    }
  }

  /** A checkout that holds the laid tree with the overrides passes against the prediction with the
      overrides if and only if the two commits agree at the overlay roots that are not overridden. */
  lemma LaidCheckoutVerifies(sha1: Digest, walk: seq<Entry>, consumer: Files<Leaf>, source: Files<Leaf>, roots: seq<Bytes>,
                             overrides: map<Bytes, Bytes>)
    requires DistinctPaths(walk) && Separate(roots)
    requires Content(sha1, walk) == Permitted(sha1, Overlaid(consumer, source, roots), overrides)
    ensures Holds(sha1, true, walk, Permitted(sha1, ExpectedFiles(source, consumer, roots), overrides)) <==>
      RootsAgree(consumer, source, roots, overrides.Keys)
  {
    hide Holds, Content, Separate, DistinctPaths, Overlaid, ExpectedFiles, Permitted, RootsAgree, At;
    var laid, expected := Overlaid(consumer, source, roots), ExpectedFiles(source, consumer, roots);
    HoldsIsEquality(sha1, walk, Permitted(sha1, expected, overrides));
    PermittedEqual(sha1, laid, expected, overrides);
    LaidAsPredicted(consumer, source, roots, overrides.Keys);
  }
}
