/** Two supplies of the same tree agree: what the snapshot calls a directory is
    what the object store calls one, because both sit under the digest of their bytes. */
module ContentAddressing {
  import opened ByteStrings
  import opened RawTree
  import opened ObjectGraph
  import opened StoredObjects
  import opened ObjectStore
  import opened TreeMeaning
  import opened Snapshot
  import opened Reachability
  import opened Results

  /** The framed bytes of everything in a store. */
  ghost function Frames(store: map<Bytes, Stored>): set<Bytes> {
    set o | o in store :: Framed(store[o].kind, store[o].raw)
  }

  /** No two of these byte strings share a digest.  This is the one thing asked
      of SHA-1, and only of the objects in evidence. */
  ghost predicate CollisionFree(sha1: Digest, frames: set<Bytes>) {
    forall x, y :: x in frames && y in frames && sha1(x) == sha1(y) ==> x == y
  }

  ghost predicate Addressed(sha1: Digest, store: map<Bytes, Stored>) {
    forall o :: o in store ==> ObjectId(sha1, store[o].kind, store[o].raw) == o
  }

  lemma GoodStoreAddressed(sha1: Digest, records: seq<ObjectRecord>)
    requires AllGood(sha1, records)
    ensures Addressed(sha1, StoreOf(records))
    ensures forall o :: o in StoreOf(records) ==> WellFormedObject(StoreOf(records)[o])
  {
    hide StoreOf, RawOf, ObjectId, WellFormedObject;
    StoreKeys(records);
    forall o | o in StoreOf(records)
      ensures ObjectId(sha1, StoreOf(records)[o].kind, StoreOf(records)[o].raw) == o && WellFormedObject(StoreOf(records)[o])
    {
      var i :| 0 <= i < |records| && records[i].oid == o;
      StoreEntry(records, i);
      assert GoodRecord(sha1, records[i]);
    }
  }

  /** Two stores that hold an object under the same ID hold the same object. */
  lemma SameObject(sha1: Digest, a: map<Bytes, Stored>, b: map<Bytes, Stored>, o: Bytes)
    requires Addressed(sha1, a) && Addressed(sha1, b) && o in a && o in b
    requires CollisionFree(sha1, Frames(a) + Frames(b))
    ensures a[o] == b[o]
  {
    hide Framed;
    assert Framed(a[o].kind, a[o].raw) in Frames(a) && Framed(b[o].kind, b[o].raw) in Frames(b);
    FramedInjective(a[o].kind, a[o].raw, b[o].kind, b[o].raw);
  }

  lemma SameTrees(sha1: Digest, a: map<Bytes, Stored>, b: map<Bytes, Stored>)
    requires Addressed(sha1, a) && Addressed(sha1, b)
    requires CollisionFree(sha1, Frames(a) + Frames(b))
    ensures forall o :: o in TreesOf(a) && o in TreesOf(b) ==> TreesOf(a)[o] == TreesOf(b)[o]
  {
    hide Frames, CollisionFree, TreeOf, ObjectId;
    forall o | o in TreesOf(a) && o in TreesOf(b) ensures TreesOf(a)[o] == TreesOf(b)[o] {
      SameObject(sha1, a, b, o);
    }
  }

  /** Subdirectories of supplied directories are supplied. */
  ghost predicate TreeClosed(trees: Trees) {
    forall o, e :: o in trees && e in trees[o] && e.kind == TreeKind ==> e.oid in trees
  }

  lemma {:induction false} DirsAgree(a: Trees, b: Trees, root: Bytes, names: Names)
    requires AllPresent(a, root) && TreeClosed(b) && root in b
    requires forall o :: o in a && o in b ==> a[o] == b[o]
    ensures DirAt(a, root, names) == DirAt(b, root, names)
    ensures DirAt(b, root, names).Some? ==>
      && DirAt(b, root, names).value in b
      && EntriesOf(a, DirAt(b, root, names).value) == EntriesOf(b, DirAt(b, root, names).value)
  {
    hide EntryNamed;
    if names == [] {
      assert DirAt(a, root, names) == Some(root);
    } else {
      DirsAgree(a, b, root, names[..|names| - 1]);
      assert DirAt(a, root, names).Some? ==> DirAt(a, root, names).value in a;
    }
  }

  /** A complete snapshot and a closed store give a tree the same meaning. */
  lemma MeaningsAgree(a: Trees, b: Trees, root: Bytes, leaves: map<Bytes, Leaf>)
    requires AllPresent(a, root) && TreeClosed(b) && root in b
    requires forall o :: o in a && o in b ==> a[o] == b[o]
    requires Means(a, root, leaves)
    ensures Means(b, root, leaves)
  {
    hide AllPresent, TreeClosed, EntryNamed, DirAt, EntriesOf;
    forall names ensures LeafAt(a, root, names) == LeafAt(b, root, names) {
      if names != [] { DirsAgree(a, b, root, names[..|names| - 1]); }
    }
  }

  // ----- the trees of an accepted store are closed

  lemma {:induction false} EntryIsDemanded(es: seq<Entry>, e: Entry)
    requires e in es && e.mode != GITLINK
    ensures Demand(e.oid, e.kind) in EntryDemands(es)
  {
    var last := es[|es| - 1];
    if e != last {
      assert e in es[..|es| - 1] by {
        var i :| 0 <= i < |es| && es[i] == e;
        assert es[..|es| - 1][i] == e;
      }
      EntryIsDemanded(es[..|es| - 1], e);
    }
  }

  lemma StoreTreesClosed(store: map<Bytes, Stored>, refs: seq<Bytes>, boundaries: set<Bytes>)
    requires ExactClosure(GraphOf(store, refs, boundaries))
    ensures TreeClosed(TreesOf(store))
  {
    hide Reachable, TreeOf, Demanded;
    var g := GraphOf(store, refs, boundaries);
    forall o, e | o in TreesOf(store) && e in TreesOf(store)[o] && e.kind == TreeKind ensures e.oid in TreesOf(store) {
      DemandFollows(g, o, e);
      assert Satisfied(g, Demand(e.oid, e.kind));
    }
  }

  lemma DemandFollows(g: Graph, o: Bytes, e: Entry)
    requires ExactClosure(g) && o in g.objects && g.objects[o].TreeNode? && e in g.objects[o].entries
    ensures Demanded(g, Demand(e.oid, e.kind)) && e.mode != GITLINK
  {
    hide Reachable, EntryDemands;
    var d := Demand(o, TreeKind);
    assert Demanded(g, d) && Satisfied(g, d);
    EntryIsDemanded(g.objects[o].entries, e);
    assert Demand(e.oid, e.kind) in Next(g)(d);
    StepReachable(CommitDemands(g.refs), Next(g), d, Demand(e.oid, e.kind));
  }

  /** The tree of a certified commit is in the store. */
  lemma CommitTreePresent(store: map<Bytes, Stored>, refs: seq<Bytes>, boundaries: set<Bytes>, r: Bytes)
    requires ExactClosure(GraphOf(store, refs, boundaries)) && r in refs
    ensures r in store && NodeOf(store[r]).CommitNode? && NodeOf(store[r]).tree in TreesOf(store)
    ensures FullSha(NodeOf(store[r]).tree)
  {
    hide Reachable, TreeOf;
    var g := GraphOf(store, refs, boundaries);
    var i :| 0 <= i < |refs| && refs[i] == r;
    var d := Demand(r, CommitKind);
    assert CommitDemands(refs)[i] == d;
    RootReachable(CommitDemands(refs), Next(g), d);
    assert Demanded(g, d) && Satisfied(g, d);
    var tree := g.objects[r].tree;
    assert Demand(tree, TreeKind) in Next(g)(d);
    StepReachable(CommitDemands(refs), Next(g), d, Demand(tree, TreeKind));
    assert Demanded(g, Demand(tree, TreeKind)) && Satisfied(g, Demand(tree, TreeKind));
  }
}
