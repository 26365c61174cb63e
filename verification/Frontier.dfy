/** The bookkeeping of a flattening: which name lists are still open, which
    directories were expanded and which leaves were recorded. */
module Frontier {
  import opened ByteStrings
  import opened GitPaths
  import opened RawTree
  import opened TreeMeaning
  import opened Results

  ghost function Children(names: Names, es: seq<Entry>): set<Names> {
    set e | e in es :: names + [e.name]
  }

  /** `names` lies at or below `top`. */
  ghost predicate Below(top: Names, names: Names) {
    top <= names
  }

  ghost predicate Under(open: set<Names>, names: Names) {
    exists o :: o in open && Below(o, names)
  }

  /** Open name lists never extend one another, and neither an expanded
      directory nor a recorded leaf lies at or below an open one. */
  ghost predicate Sound(trees: Trees, root: Bytes, open: set<Names>, done: set<Names>, leaves: map<Bytes, Leaf>) {
    && (forall o :: o in open ==> PlainNames(o))
    && (forall a, b :: a in open && b in open && Below(a, b) ==> a == b)
    && (forall d :: d in done ==> DirAt(trees, root, d).Some?)
    && (forall d, o :: d in done && o in open ==> !Below(o, d))
    && (forall p :: p in leaves ==> PlainNames(Split(p)) && LeafAt(trees, root, Split(p)) == Some(leaves[p]))
    && (forall p, o :: p in leaves && o in open ==> !Below(o, Split(p)))
  }

  /** Every leaf of the tree is recorded or lies at or below an open name list. */
  ghost predicate Complete(trees: Trees, root: Bytes, open: set<Names>, leaves: map<Bytes, Leaf>) {
    forall names :: PlainNames(names) && LeafAt(trees, root, names).Some? ==>
      Join(names) in leaves || Under(open, names)
  }

  lemma StartSound(trees: Trees, root: Bytes)
    ensures Sound(trees, root, {[]}, {}, map[]) && Complete(trees, root, {[]}, map[])
  {
    forall names | PlainNames(names) && LeafAt(trees, root, names).Some? ensures Under({[]}, names) {
      var none: Names := [];
      assert none in {[]} && Below(none, names);
    }
  }

  lemma PrefixOfSnoc(a: Names, b: Names, x: Bytes)
    ensures Below(b, b + [x])
    ensures Below(a, b + [x]) <==> Below(a, b) || a == b + [x]
  {
    if a <= b + [x] {
      if |a| <= |b| {
        assert (b + [x])[..|a|] == b[..|a|];
      } else {
        assert a == (b + [x])[..|a|] == b + [x];
      }
    }
  }

  lemma PrefixTransitive(a: Names, b: Names, c: Names)
    requires Below(a, b) && Below(b, c)
    ensures Below(a, c)
  {
  }

  /** Replacing an open directory by its children keeps the bookkeeping sound. */
  lemma ExpandSound(trees: Trees, root: Bytes, open: set<Names>, done: set<Names>, leaves: map<Bytes, Leaf>, ns: Names)
    requires NamedTrees(trees) && Sound(trees, root, open, done, leaves)
    requires ns in open && DirAt(trees, root, ns).Some?
    ensures var kids := Children(ns, EntriesOf(trees, DirAt(trees, root, ns).value));
      && Sound(trees, root, open - {ns} + kids, done + {ns}, leaves)
      && kids !! open && ns !in done
  {
    hide NamedTrees, PlainName, DirAt, LeafAt, Split, EntriesOf;
    var es := EntriesOf(trees, DirAt(trees, root, ns).value);
    var kids := Children(ns, es);
    forall o | o in kids ensures PlainNames(o) && exists x :: o == ns + [x] {
      var e :| e in es && o == ns + [e.name];
      StepDir(trees, root, ns, e);
    }
    forall a, x | a in open && Below(a, ns + [x]) ensures a == ns {
      PrefixOfSnoc(a, ns, x);
      assert Below(a, ns) || Below(ns, a);
    }
    forall x, c | Below(ns + [x], c) ensures Below(ns, c) {
      PrefixOfSnoc(ns, ns, x);
      PrefixTransitive(ns, ns + [x], c);
    }
  }

  lemma ExpandComplete(trees: Trees, root: Bytes, open: set<Names>, leaves: map<Bytes, Leaf>, ns: Names)
    requires NamedTrees(trees) && Complete(trees, root, open, leaves)
    requires ns in open && DirAt(trees, root, ns).Some?
    ensures Complete(trees, root, open - {ns} + Children(ns, EntriesOf(trees, DirAt(trees, root, ns).value)), leaves)
  {
    hide NamedTrees, PlainName;
    var es := EntriesOf(trees, DirAt(trees, root, ns).value);
    var kids := Children(ns, es);
    forall names | PlainNames(names) && LeafAt(trees, root, names).Some? && Join(names) !in leaves
      ensures Under(open - {ns} + kids, names)
    {
      var o :| o in open && Below(o, names);
      if o != ns {
        assert o in open - {ns} + kids;
      } else {
        NextStep(trees, root, ns, names);
        var e := EntryNamed(es, names[|ns|]).value;
        assert ns + [e.name] in kids && Below(ns + [e.name], names);
      }
    }
  }

  /** Below a directory, a leaf's names continue with one of its entries. */
  lemma NextStep(trees: Trees, root: Bytes, ns: Names, names: Names)
    requires DirAt(trees, root, ns).Some? && LeafAt(trees, root, names).Some? && Below(ns, names)
    ensures |ns| < |names| && Below(ns + [names[|ns|]], names)
    ensures EntryNamed(EntriesOf(trees, DirAt(trees, root, ns).value), names[|ns|]).Some?
  {
    assert ns == names[..|ns|] && names == names[..|names|];
    LeafPrefix(trees, root, names, |ns|);
  }

  ghost predicate ChildOf(trees: Trees, root: Bytes, ns: Names, e: Entry) {
    DirAt(trees, root, ns).Some? && e in EntriesOf(trees, DirAt(trees, root, ns).value)
  }

  /** An open leaf has a path that no earlier leaf used, and recording it keeps the bookkeeping sound. */
  lemma LeafSound(trees: Trees, root: Bytes, open: set<Names>, done: set<Names>, leaves: map<Bytes, Leaf>, ns: Names, e: Entry)
    requires NamedTrees(trees) && Sound(trees, root, open, done, leaves)
    requires ChildOf(trees, root, ns, e) && e.kind != TreeKind && ns + [e.name] in open
    ensures Join(ns + [e.name]) !in leaves
    ensures Sound(trees, root, open - {ns + [e.name]}, done, leaves[Join(ns + [e.name]) := LeafOf(e)])
  {
    hide NamedTrees, PlainName;
    var c := ns + [e.name];
    StepDir(trees, root, ns, e);
    SplitJoin(c);
  }

  lemma NothingBelowLeaf(trees: Trees, root: Bytes, c: Names, names: Names)
    requires DirAt(trees, root, c) == None && LeafAt(trees, root, names).Some? && Below(c, names)
    ensures names == c
  {
    assert c == names[..|c|] && names == names[..|names|];
    if |c| < |names| {
      LeafPrefix(trees, root, names, |c|);
    }
  }

  lemma LeafComplete(trees: Trees, root: Bytes, open: set<Names>, leaves: map<Bytes, Leaf>, ns: Names, e: Entry)
    requires NamedTrees(trees) && Complete(trees, root, open, leaves)
    requires ChildOf(trees, root, ns, e) && e.kind != TreeKind && ns + [e.name] in open
    ensures Complete(trees, root, open - {ns + [e.name]}, leaves[Join(ns + [e.name]) := LeafOf(e)])
  {
    hide NamedTrees, PlainName, DirAt, LeafAt, Split, EntriesOf;
    var c := ns + [e.name];
    StepDir(trees, root, ns, e);
    forall names | PlainNames(names) && LeafAt(trees, root, names).Some? && names != c && Join(names) !in leaves
      ensures Under(open - {c}, names)
    {
      var o :| o in open && Below(o, names);
      if o == c { NothingBelowLeaf(trees, root, c, names); }
      assert o in open - {c};
    }
  }

  lemma DropSound(trees: Trees, root: Bytes, open: set<Names>, done: set<Names>, leaves: map<Bytes, Leaf>, ns: Names)
    requires Sound(trees, root, open, done, leaves)
    ensures Sound(trees, root, open - {ns}, done, leaves)
  {
  }

  /** With nothing open, the recorded leaves are the meaning of the tree. */
  lemma Finished(trees: Trees, root: Bytes, done: set<Names>, leaves: map<Bytes, Leaf>)
    requires Sound(trees, root, {}, done, leaves) && Complete(trees, root, {}, leaves)
    ensures Means(trees, root, leaves)
  {
  }
}
