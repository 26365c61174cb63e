/** What a graph of trees means: which paths lead to which leaves.

    The meaning is given by lookup, one name at a time, with no bound on depth
    and no memory of what was visited. */
module TreeMeaning {
  import opened ByteStrings
  import opened GitPaths
  import opened RawTree
  import opened ObjectGraph
  import opened Results

  type Names = seq<Bytes>
  type Trees = map<Bytes, seq<Entry>>

  datatype Leaf = Leaf(mode: Bytes, kind: Kind, oid: Bytes)

  function LeafOf(e: Entry): Leaf {
    Leaf(e.mode, e.kind, e.oid)
  }

  /** `trees.get(oid, [])`. */
  function EntriesOf(trees: Trees, oid: Bytes): seq<Entry> {
    if oid in trees then trees[oid] else []
  }

  ghost predicate NamedTrees(trees: Trees) {
    forall o :: o in trees ==> Admissible(trees[o]) && DistinctNames(trees[o])
  }

  function EntryNamed(es: seq<Entry>, name: Bytes): (r: Option<Entry>)
    ensures r.Some? ==> r.value in es && r.value.name == name
  {
    if es == [] then None
    else if es[0].name == name then Some(es[0])
    else EntryNamed(es[1..], name)
  }

  lemma {:induction false} EntryNamedUnique(es: seq<Entry>, e: Entry)
    requires DistinctNames(es) && e in es
    ensures EntryNamed(es, e.name) == Some(e)
  {
    if es[0] != e {
      var i :| 0 <= i < |es| && es[i] == e;
      assert es[0].name != es[i].name;
      assert e == es[1..][i - 1];
      EntryNamedUnique(es[1..], e);
    }
  }

  /** The directory reached from `root` by descending through `names`. */
  function DirAt(trees: Trees, root: Bytes, names: Names): Option<Bytes> {
    if names == [] then Some(root)
    else
      match DirAt(trees, root, names[..|names| - 1])
      case None => None
      case Some(d) =>
        match EntryNamed(EntriesOf(trees, d), names[|names| - 1])
        case None => None
        case Some(e) => if e.kind == TreeKind then Some(e.oid) else None
  }

  /** The leaf that `names` leads to. */
  function LeafAt(trees: Trees, root: Bytes, names: Names): Option<Leaf> {
    if names == [] then None
    else
      match DirAt(trees, root, names[..|names| - 1])
      case None => None
      case Some(d) =>
        match EntryNamed(EntriesOf(trees, d), names[|names| - 1])
        case None => None
        case Some(e) => if e.kind == TreeKind then None else Some(LeafOf(e))
  }

  /** `leaves` holds exactly the paths that lead to a leaf, each with that leaf. */
  ghost predicate Means(trees: Trees, root: Bytes, leaves: map<Bytes, Leaf>) {
    && (forall p :: p in leaves ==> LeafAt(trees, root, Split(p)) == Some(leaves[p]))
    && (forall names :: PlainNames(names) && LeafAt(trees, root, names).Some? ==> Join(names) in leaves)
  }

  lemma MeansUnique(trees: Trees, root: Bytes, a: map<Bytes, Leaf>, b: map<Bytes, Leaf>)
    requires NamedTrees(trees) && Means(trees, root, a) && Means(trees, root, b)
    ensures a == b
  {
    MeansIncluded(trees, root, a, b);
    MeansIncluded(trees, root, b, a);
  }

  lemma MeansIncluded(trees: Trees, root: Bytes, a: map<Bytes, Leaf>, b: map<Bytes, Leaf>)
    requires NamedTrees(trees) && Means(trees, root, a) && Means(trees, root, b)
    ensures forall p :: p in a ==> p in b && b[p] == a[p]
  {
    forall p | p in a ensures p in b && b[p] == a[p] {
      LeafNamesPlain(trees, root, Split(p));
      JoinSplit(p);
    }
  }

  // ----- names found in trees are plain

  lemma {:induction false} DirNamesPlain(trees: Trees, root: Bytes, names: Names)
    requires NamedTrees(trees) && DirAt(trees, root, names).Some?
    ensures PlainNames(names)
  {
    hide NamedTrees, PlainName;
    if names != [] {
      DirNamesPlain(trees, root, names[..|names| - 1]);
      PlainLast(trees, DirAt(trees, root, names[..|names| - 1]).value, names[|names| - 1]);
    }
  }

  lemma LeafNamesPlain(trees: Trees, root: Bytes, names: Names)
    requires NamedTrees(trees) && LeafAt(trees, root, names).Some?
    ensures PlainNames(names)
  {
    hide NamedTrees, PlainName;
    DirNamesPlain(trees, root, names[..|names| - 1]);
    PlainLast(trees, DirAt(trees, root, names[..|names| - 1]).value, names[|names| - 1]);
  }

  lemma PlainLast(trees: Trees, d: Bytes, name: Bytes)
    requires NamedTrees(trees) && EntryNamed(EntriesOf(trees, d), name).Some?
    ensures PlainName(name)
  {
    var e := EntryNamed(EntriesOf(trees, d), name).value;
    assert e in trees[d] && AdmissibleEntry(e);
  }

  // ----- prefixes

  lemma {:induction false} DirPrefix(trees: Trees, root: Bytes, names: Names, k: nat)
    requires DirAt(trees, root, names).Some? && k <= |names|
    ensures DirAt(trees, root, names[..k]).Some?
  {
    if k < |names| {
      var init := names[..|names| - 1];
      assert init[..k] == names[..k];
      DirPrefix(trees, root, init, k);
    } else {
      assert names[..k] == names;
    }
  }

  /** Every proper prefix of a leaf's names is a directory that names the next step. */
  lemma LeafPrefix(trees: Trees, root: Bytes, names: Names, k: nat)
    requires LeafAt(trees, root, names).Some? && k < |names|
    ensures DirAt(trees, root, names[..k]).Some?
    ensures EntryNamed(EntriesOf(trees, DirAt(trees, root, names[..k]).value), names[k]).Some?
    ensures k + 1 < |names| ==> DirAt(trees, root, names[..k + 1]).Some?
  {
    var init := names[..|names| - 1];
    assert init[..k] == names[..k];
    DirPrefix(trees, root, init, k);
    if k + 1 < |names| {
      assert init[..k + 1] == names[..k + 1] && names[..k + 1][..k] == names[..k];
      DirPrefix(trees, root, init, k + 1);
    }
  }

  lemma StepDir(trees: Trees, root: Bytes, names: Names, e: Entry)
    requires NamedTrees(trees) && DirAt(trees, root, names).Some?
    requires e in EntriesOf(trees, DirAt(trees, root, names).value)
    ensures PlainName(e.name)
    ensures e.kind == TreeKind ==> DirAt(trees, root, names + [e.name]) == Some(e.oid)
    ensures e.kind != TreeKind ==>
      DirAt(trees, root, names + [e.name]) == None && LeafAt(trees, root, names + [e.name]) == Some(LeafOf(e))
    ensures e.kind == TreeKind ==> LeafAt(trees, root, names + [e.name]) == None
  {
    var d := DirAt(trees, root, names).value;
    EntryNamedUnique(trees[d], e);
    PlainLast(trees, d, e.name);
    assert (names + [e.name])[..|names|] == names;
  }
}
