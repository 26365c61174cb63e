/** The state of a stack-driven flattening and the steps it can take. */
module FlattenState {
  import opened ByteStrings
  import opened GitPaths
  import opened RawTree
  import opened TreeMeaning
  import opened Frontier
  import opened TreeSize
  import opened Results

  const MAX_DEPTH := 256

  /** A directory waiting on the stack. */
  datatype Item = Item(oid: Bytes, prefix: Bytes, depth: nat, ancestors: set<Bytes>)

  ghost function NamesOf(prefix: Bytes): Names {
    if prefix == [] then [] else Split(prefix)
  }

  lemma NamesOfJoin(names: Names)
    requires PlainNames(names)
    ensures NamesOf(Join(names)) == names
  {
    if names != [] {
      SplitJoin(names);
      NonEmptyJoin(names);
    }
  }

  lemma NonEmptyJoin(names: Names)
    requires names != [] && PlainNames(names)
    ensures Join(names) != []
  {
    JoinSnoc(names[..|names| - 1], names[|names| - 1]);
  }

  ghost predicate GoodItem(trees: Trees, root: Bytes, it: Item) {
    var ns := NamesOf(it.prefix);
    && Join(ns) == it.prefix
    && DirAt(trees, root, ns) == Some(it.oid)
    && it.depth == |ns|
    && it.ancestors == AncestorIds(trees, root, ns)
  }

  ghost function PendingNames(pending: seq<Item>): set<Names> {
    set it | it in pending :: NamesOf(it.prefix)
  }

  ghost predicate Stack(trees: Trees, root: Bytes, pending: seq<Item>) {
    && (forall i :: 0 <= i < |pending| ==> GoodItem(trees, root, pending[i]))
    && (forall i, j :: 0 <= i < j < |pending| ==> NamesOf(pending[i].prefix) != NamesOf(pending[j].prefix))
  }

  lemma {:induction false} StackSize(trees: Trees, root: Bytes, pending: seq<Item>)
    requires Stack(trees, root, pending)
    ensures |PendingNames(pending)| == |pending|
  {
    hide GoodItem, NamesOf, Stack, PendingNames;
    if pending == [] {
      NothingPending();
    } else {
      var init, last := pending[..|pending| - 1], pending[|pending| - 1];
      assert pending == init + [last];
      StackTop(trees, root, init, last);
      StackSize(trees, root, init);
      PushNames(init, last);
    }
  }

  lemma NothingPending()
    ensures PendingNames([]) == {}
  {}

  lemma StackTop(trees: Trees, root: Bytes, init: seq<Item>, last: Item)
    requires Stack(trees, root, init + [last])
    ensures Stack(trees, root, init) && NamesOf(last.prefix) !in PendingNames(init)
  {
    hide GoodItem, NamesOf;
    var all := init + [last];
    assert all[|init|] == last && forall i :: 0 <= i < |init| ==> all[i] == init[i];
  }

  lemma PushNames(pending: seq<Item>, it: Item)
    ensures PendingNames(pending + [it]) == PendingNames(pending) + {NamesOf(it.prefix)}
  {
    assert it in pending + [it];
  }

  lemma StackPop(trees: Trees, root: Bytes, pending: seq<Item>, it: Item)
    requires Stack(trees, root, pending + [it])
    ensures Stack(trees, root, pending) && GoodItem(trees, root, it)
    ensures NamesOf(it.prefix) !in PendingNames(pending)
  {
    hide GoodItem, NamesOf;
    var all := pending + [it];
    assert all[|pending|] == it && forall i :: 0 <= i < |pending| ==> all[i] == pending[i];
  }

  lemma StackPush(trees: Trees, root: Bytes, pending: seq<Item>, it: Item)
    requires Stack(trees, root, pending) && GoodItem(trees, root, it)
    requires NamesOf(it.prefix) !in PendingNames(pending)
    ensures Stack(trees, root, pending + [it])
  {
    hide GoodItem, NamesOf;
    assert forall i :: 0 <= i < |pending| ==> pending[i] in pending;
  }

  /** The children of `ns` not yet looked at, as entries of that directory. */
  ghost predicate Unread(trees: Trees, root: Bytes, ns: Names, left: seq<Entry>) {
    && DistinctNames(left)
    && (forall e :: e in left ==> ChildOf(trees, root, ns, e))
  }

  ghost function Open(pending: seq<Item>, ns: Names, left: seq<Entry>): set<Names> {
    PendingNames(pending) + Children(ns, left)
  }

  /** Every directory of the tree was expanded or lies at or below an open name list. */
  ghost predicate DirsComplete(trees: Trees, root: Bytes, open: set<Names>, done: set<Names>) {
    forall names :: DirAt(trees, root, names).Some? ==> names in done || Under(open, names)
  }

  /** Everything known while the children of `ns` are read from the back, with
      `left` still unread; between two directories `left` is empty.  `clean`
      says that nothing was skipped. */
  ghost predicate Flattening(trees: Trees, root: Bytes, pending: seq<Item>, done: set<Names>,
                             leaves: map<Bytes, Leaf>, bytes: nat, ns: Names, left: seq<Entry>, clean: bool)
  {
    && Stack(trees, root, pending)
    && Unread(trees, root, ns, left)
    && PendingNames(pending) !! Children(ns, left)
    && Sound(trees, root, Open(pending, ns, left), done, leaves)
    && (clean ==> Complete(trees, root, Open(pending, ns, left), leaves))
    && (clean ==> DirsComplete(trees, root, Open(pending, ns, left), done))
    && bytes + Total(Children(ns, left)) == Total(NodesUnder(trees, root, done))
  }

  lemma NoChildren(ns: Names)
    ensures Children(ns, []) == {} && Total({}) == 0
  {
  }

  lemma Start(trees: Trees, root: Bytes)
    ensures Flattening(trees, root, [Item(root, [], 0, {})], {}, map[], 0, [], [], true)
  {
    var first := Item(root, [], 0, {});
    StartSound(trees, root);
    NoChildren([]);
    PushNames([], first);
    assert [] + [first] == [first] && PendingNames([]) == {};
    assert Open([first], [], []) == {[]};
    assert NodesUnder(trees, root, {}) == {};
    assert AncestorIds(trees, root, []) == {};
    forall names | DirAt(trees, root, names).Some? ensures Under({[]}, names) {
      var none: Names := [];
      assert none in {[]} && Below(none, names);
    }
  }

  lemma DirsExpand(trees: Trees, root: Bytes, open: set<Names>, done: set<Names>, ns: Names)
    requires NamedTrees(trees) && DirsComplete(trees, root, open, done)
    requires ns in open && DirAt(trees, root, ns).Some?
    ensures DirsComplete(trees, root, open - {ns} + Children(ns, DirEntries(trees, root, ns)), done + {ns})
  {
    hide NamedTrees, DirAt;
    var kids := Children(ns, DirEntries(trees, root, ns));
    forall names | DirAt(trees, root, names).Some? && names !in done && names != ns
      ensures Under(open - {ns} + kids, names)
    {
      var o :| o in open && Below(o, names);
      if o != ns {
        assert o in open - {ns} + kids;
      } else {
        NextDir(trees, root, ns, names);
        assert Below(ns + [names[|ns|]], names);
      }
    }
  }

  lemma NextDir(trees: Trees, root: Bytes, ns: Names, names: Names)
    requires DirAt(trees, root, names).Some? && Below(ns, names) && ns != names
    ensures |ns| < |names| && Below(ns + [names[|ns|]], names)
    ensures ns + [names[|ns|]] in Children(ns, DirEntries(trees, root, ns))
  {
    assert ns == names[..|ns|] && names == names[..|names|];
    var k := |ns| + 1;
    DirPrefix(trees, root, names, k);
    var e := LastStep(trees, root, names[..k]);
    assert names[..k][..k - 1] == ns;
  }

  /** Taking a directory off the stack and listing its entries. */
  lemma Expand(trees: Trees, root: Bytes, pending: seq<Item>, it: Item, done: set<Names>,
               leaves: map<Bytes, Leaf>, bytes: nat, ns0: Names, clean: bool)
    requires NamedTrees(trees)
    requires Flattening(trees, root, pending + [it], done, leaves, bytes, ns0, [], clean)
    ensures var ns := NamesOf(it.prefix);
      && GoodItem(trees, root, it) && ns !in done && DirEntries(trees, root, ns) == EntriesOf(trees, it.oid)
      && Flattening(trees, root, pending, done + {ns}, leaves, bytes, ns, EntriesOf(trees, it.oid), clean)
  {
    hide NamedTrees, Sound, Complete, DirsComplete, Total, DirAt, EntriesOf, NamesOf, Stack, AncestorIds, Split, Join;
    var ns, es := NamesOf(it.prefix), EntriesOf(trees, it.oid);
    StackPop(trees, root, pending, it);
    PushNames(pending, it);
    NoChildren(ns0);
    var open := Open(pending + [it], ns0, []);
    assert open == PendingNames(pending) + {ns};
    ExpandSound(trees, root, open, done, leaves, ns);
    assert open - {ns} + Children(ns, es) == Open(pending, ns, es);
    if clean {
      ExpandComplete(trees, root, open, leaves, ns);
      DirsExpand(trees, root, open, done, ns);
    }
    EntriesDistinct(trees, it.oid);
    NodesGrow(trees, root, done, ns);
    TotalUnion(NodesUnder(trees, root, done), Children(ns, es));
  }

  lemma EntriesDistinct(trees: Trees, oid: Bytes)
    requires NamedTrees(trees)
    ensures DistinctNames(EntriesOf(trees, oid))
  {
  }

  /** Taking a directory off the stack without expanding it. */
  lemma Skip(trees: Trees, root: Bytes, pending: seq<Item>, it: Item, done: set<Names>,
             leaves: map<Bytes, Leaf>, bytes: nat, ns0: Names, clean: bool)
    requires Flattening(trees, root, pending + [it], done, leaves, bytes, ns0, [], clean)
    ensures Flattening(trees, root, pending, done, leaves, bytes, ns0, [], false)
    ensures GoodItem(trees, root, it) && NamesOf(it.prefix) !in PendingNames(pending)
  {
    hide Sound, Complete, DirsComplete, Total, GoodItem, Stack;
    StackPop(trees, root, pending, it);
    PushNames(pending, it);
    NoChildren(ns0);
    DropSound(trees, root, Open(pending + [it], ns0, []), done, leaves, NamesOf(it.prefix));
    assert Open(pending + [it], ns0, []) - {NamesOf(it.prefix)} == Open(pending, ns0, []);
  }

  lemma LastChild(trees: Trees, root: Bytes, ns: Names, left: seq<Entry>, e: Entry)
    requires Unread(trees, root, ns, left + [e])
    ensures Unread(trees, root, ns, left) && ChildOf(trees, root, ns, e)
    ensures Children(ns, left + [e]) == Children(ns, left) + {ns + [e.name]}
    ensures ns + [e.name] !in Children(ns, left)
    ensures Total(Children(ns, left + [e])) == Total(Children(ns, left)) + |Join(ns + [e.name])|
  {
    hide ChildOf;
    var all := left + [e];
    assert e in all && forall x :: x in left ==> x in all;
    assert forall i :: 0 <= i < |left| ==> all[i] == left[i];
    assert all[|left|] == e;
    forall x | x in left ensures ns + [x.name] != ns + [e.name] {
      assert (ns + [x.name])[|ns|] == x.name && (ns + [e.name])[|ns|] == e.name;
    }
    assert Children(ns, all) == Children(ns, left) + {ns + [e.name]};
    TotalAdd(Children(ns, left), ns + [e.name]);
  }

  /** A subdirectory goes from the unread entries to the stack. */
  lemma PushDir(trees: Trees, root: Bytes, pending: seq<Item>, done: set<Names>, leaves: map<Bytes, Leaf>,
                bytes: nat, ns: Names, left: seq<Entry>, e: Entry, clean: bool, it: Item)
    requires NamedTrees(trees)
    requires Flattening(trees, root, pending, done, leaves, bytes, ns, left + [e], clean)
    requires e.kind == TreeKind && DirAt(trees, root, ns).Some?
    requires it == Item(e.oid, Child(Join(ns), e.name), |ns| + 1, AncestorIds(trees, root, ns) + {DirAt(trees, root, ns).value})
    ensures NamesOf(it.prefix) == ns + [e.name] && it.prefix == Join(ns + [e.name])
    ensures Flattening(trees, root, pending + [it], done, leaves, bytes + |it.prefix|, ns, left, clean)
  {
    hide NamedTrees, Sound, Complete, DirsComplete, Total, EntriesOf, NamesOf, Stack, AncestorIds, Split, Join, EntryNamed, DirAt;
    LastChild(trees, root, ns, left, e);
    StepDir(trees, root, ns, e);
    DirNamesPlain(trees, root, ns + [e.name]);
    JoinSnoc(ns, e.name);
    NamesOfJoin(ns + [e.name]);
    AncestorsGrow(trees, root, ns, e.name);
    StackPush(trees, root, pending, it);
    PushNames(pending, it);
    assert Open(pending + [it], ns, left) == Open(pending, ns, left + [e]);
  }

  /** A leaf goes from the unread entries to the map, under a path that is new. */
  lemma RecordLeaf(trees: Trees, root: Bytes, pending: seq<Item>, done: set<Names>, leaves: map<Bytes, Leaf>,
                   bytes: nat, ns: Names, left: seq<Entry>, e: Entry, clean: bool)
    requires NamedTrees(trees)
    requires Flattening(trees, root, pending, done, leaves, bytes, ns, left + [e], clean)
    requires e.kind != TreeKind
    ensures Join(ns + [e.name]) == Child(Join(ns), e.name) && Child(Join(ns), e.name) !in leaves
    ensures Flattening(trees, root, pending, done, leaves[Child(Join(ns), e.name) := LeafOf(e)],
                       bytes + |Child(Join(ns), e.name)|, ns, left, clean)
  {
    hide NamedTrees, Sound, Complete, DirsComplete, Total, EntriesOf, NamesOf, Stack, Split, Join, EntryNamed, DirAt;
    LastChild(trees, root, ns, left, e);
    JoinSnoc(ns, e.name);
    var c, open := ns + [e.name], Open(pending, ns, left + [e]);
    LeafSound(trees, root, open, done, leaves, ns, e);
    assert open - {c} == Open(pending, ns, left);
    if clean {
      LeafComplete(trees, root, open, leaves, ns, e);
      DirsSkipLeaf(trees, root, open, done, ns, e);
    }
  }

  lemma DirsSkipLeaf(trees: Trees, root: Bytes, open: set<Names>, done: set<Names>, ns: Names, e: Entry)
    requires NamedTrees(trees) && DirsComplete(trees, root, open, done)
    requires ChildOf(trees, root, ns, e) && e.kind != TreeKind
    ensures DirsComplete(trees, root, open - {ns + [e.name]}, done)
  {
    hide NamedTrees, DirAt, EntriesOf;
    var c := ns + [e.name];
    StepDir(trees, root, ns, e);
    forall names | DirAt(trees, root, names).Some? && names !in done ensures Under(open - {c}, names) {
      var o :| o in open && Below(o, names);
      if o == c {
        assert c == names[..|c|];
        DirPrefix(trees, root, names, |c|);
      }
      assert o in open - {c};
    }
  }

  /** An entry is passed over. */
  lemma PassOver(trees: Trees, root: Bytes, pending: seq<Item>, done: set<Names>, leaves: map<Bytes, Leaf>,
                 bytes: nat, ns: Names, left: seq<Entry>, e: Entry, clean: bool)
    requires Flattening(trees, root, pending, done, leaves, bytes, ns, left + [e], clean)
    ensures Flattening(trees, root, pending, done, leaves, bytes + |Child(Join(ns), e.name)|, ns, left, false)
  {
    hide Sound, Complete, DirsComplete, Total, Stack, Join;
    LastChild(trees, root, ns, left, e);
    JoinSnoc(ns, e.name);
    DropSound(trees, root, Open(pending, ns, left + [e]), done, leaves, ns + [e.name]);
    assert Open(pending, ns, left + [e]) - {ns + [e.name]} == Open(pending, ns, left);
  }

  /** With an empty stack and nothing skipped, the map is the meaning of the
      tree, and the directories expanded are all there are. */
  lemma Done(trees: Trees, root: Bytes, done: set<Names>, leaves: map<Bytes, Leaf>, bytes: nat, ns: Names)
    requires Flattening(trees, root, [], done, leaves, bytes, ns, [], true)
    ensures Means(trees, root, leaves)
    ensures forall names :: names in done <==> DirAt(trees, root, names).Some?
    ensures bytes == Total(NodesUnder(trees, root, done))
  {
    hide Total, DirAt, LeafAt, Split;
    NoChildren(ns);
    assert Open([], ns, []) == {};
    Finished(trees, root, done, leaves);
  }
}
