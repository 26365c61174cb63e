/** `flatten_git_tree`: the stack-driven expansion of an authenticated tree. */
module Flatten {
  import opened ByteStrings
  import opened GitPaths
  import opened RawTree
  import opened ObjectGraph
  import opened TreeMeaning
  import opened Frontier
  import opened TreeSize
  import opened FlattenState
  import opened Violations
  import opened Results

  const MAX_FLATTENED_TREE_NODES := 65_536
  const MAX_FLATTENED_TREE_LEAVES := 262_144
  const MAX_EXPANDED_TREE_PATH_BYTES := 64 * 1024 * 1024

  /** The whole tree is finite, at most 256 deep, and within the three budgets. */
  ghost predicate FitsBudgets(trees: Trees, root: Bytes) {
    var ds := Dirs(trees, root, MAX_DEPTH);
    && (forall names :: DirAt(trees, root, names).Some? ==> |names| <= MAX_DEPTH && !Revisits(trees, root, names))
    && |ds| <= MAX_FLATTENED_TREE_NODES
    && |LeafPaths(trees, root, ds)| <= MAX_FLATTENED_TREE_LEAVES
    && Total(NodesUnder(trees, root, ds)) <= MAX_EXPANDED_TREE_PATH_BYTES
  }

  predicate IsGitlink(e: Entry) {
    e.kind != TreeKind && e.mode == GITLINK
  }

  ghost predicate GitlinkFree(trees: Trees, root: Bytes) {
    forall names, e :: ChildOf(trees, root, names, e) ==> !IsGitlink(e)
  }

  /** A readable tree, free of gitlinks and within the budgets. */
  ghost predicate Flattenable(trees: Trees, root: Bytes) {
    FullSha(root) && root in trees && GitlinkFree(trees, root) && FitsBudgets(trees, root)
  }

  lemma FlattenableFacts(trees: Trees, root: Bytes)
    ensures Flattenable(trees, root) <==>
      FullSha(root) && root in trees && GitlinkFree(trees, root) && FitsBudgets(trees, root)
  {
  }

  // ----- a tree within budgets never trips one

  lemma DoneFits(trees: Trees, root: Bytes, done: set<Names>)
    requires FitsBudgets(trees, root)
    requires forall d :: d in done ==> DirAt(trees, root, d).Some?
    ensures done <= Dirs(trees, root, MAX_DEPTH) && |done| <= MAX_FLATTENED_TREE_NODES
  {
    hide DirAt, Revisits, Total, LeafPaths, NodesUnder, Dirs;
    forall d | d in done ensures d in Dirs(trees, root, MAX_DEPTH) {
      DirsAll(trees, root, MAX_DEPTH, d);
    }
    SubsetSize(done, Dirs(trees, root, MAX_DEPTH));
  }

  lemma BytesFit(trees: Trees, root: Bytes, pending: seq<Item>, done: set<Names>, leaves: map<Bytes, Leaf>,
                 bytes: nat, ns: Names, left: seq<Entry>, e: Entry, clean: bool)
    requires FitsBudgets(trees, root)
    requires Flattening(trees, root, pending, done, leaves, bytes, ns, left + [e], clean)
    ensures bytes + |Child(Join(ns), e.name)| <= MAX_EXPANDED_TREE_PATH_BYTES
  {
    hide DirAt, Revisits, Total, LeafPaths, NodesUnder, Dirs, Stack, Join, Complete, DirsComplete;
    var ds := Dirs(trees, root, MAX_DEPTH);
    DoneFits(trees, root, done);
    NodesMonotone(trees, root, done, ds);
    TotalMonotone(NodesUnder(trees, root, done), NodesUnder(trees, root, ds));
    LastChild(trees, root, ns, left, e);
    JoinSnoc(ns, e.name);
  }

  lemma StackFits(trees: Trees, root: Bytes, pending: seq<Item>, done: set<Names>, leaves: map<Bytes, Leaf>,
                  bytes: nat, ns: Names, left: seq<Entry>, e: Entry, clean: bool)
    requires NamedTrees(trees) && FitsBudgets(trees, root)
    requires Flattening(trees, root, pending, done, leaves, bytes, ns, left + [e], clean)
    requires e.kind == TreeKind
    ensures |pending| < MAX_FLATTENED_TREE_NODES
  {
    hide NamedTrees, DirAt, LeafAt, Revisits, Total, LeafPaths, NodesUnder, Dirs, Join, Split, Sound, Complete, DirsComplete, NamesOf, FitsBudgets, EntriesOf, AncestorIds, Stack, PlainName, MAX_FLATTENED_TREE_NODES;
    LastChild(trees, root, ns, left, e);
    StepDir(trees, root, ns, e);
    StackSize(trees, root, pending);
    PendingDirs(trees, root, pending);
    hide Flattening, PendingNames;
    DoneFits(trees, root, PendingNames(pending) + {ns + [e.name]});
  }

  lemma PendingDirs(trees: Trees, root: Bytes, pending: seq<Item>)
    requires Stack(trees, root, pending)
    ensures forall d :: d in PendingNames(pending) ==> DirAt(trees, root, d).Some?
  {
    hide DirAt, NamesOf, AncestorIds;
    forall it | it in pending ensures DirAt(trees, root, NamesOf(it.prefix)).Some? {
      var i :| 0 <= i < |pending| && pending[i] == it;
      assert GoodItem(trees, root, pending[i]);
    }
  }

  lemma LeafFits(trees: Trees, root: Bytes, pending: seq<Item>, done: set<Names>, leaves: map<Bytes, Leaf>,
                 bytes: nat, ns: Names, left: seq<Entry>, e: Entry, clean: bool)
    requires NamedTrees(trees) && FitsBudgets(trees, root)
    requires Flattening(trees, root, pending, done, leaves, bytes, ns, left + [e], clean)
    requires e.kind != TreeKind
    ensures |leaves| < MAX_FLATTENED_TREE_LEAVES
  {
    hide NamedTrees, DirAt, LeafAt, Revisits, Total, LeafPaths, NodesUnder, Dirs, Join, Sound, Complete, DirsComplete, NamesOf, Split, EntriesOf, Stack;
    var grown := leaves[Child(Join(ns), e.name) := LeafOf(e)];
    RecordLeaf(trees, root, pending, done, leaves, bytes, ns, left, e, clean);
    LeavesInTree(trees, root, Open(pending, ns, left), done, grown);
    SubsetSize(grown.Keys, LeafPaths(trees, root, Dirs(trees, root, MAX_DEPTH)));
    assert grown.Keys == leaves.Keys + {Child(Join(ns), e.name)};
  }

  lemma LeavesInTree(trees: Trees, root: Bytes, open: set<Names>, done: set<Names>, leaves: map<Bytes, Leaf>)
    requires NamedTrees(trees) && Sound(trees, root, open, done, leaves)
    requires forall names :: DirAt(trees, root, names).Some? ==> |names| <= MAX_DEPTH
    ensures leaves.Keys <= LeafPaths(trees, root, Dirs(trees, root, MAX_DEPTH))
  {
    hide NamedTrees, Dirs, Split, Join, PlainName;
    forall p | p in leaves ensures p in LeafPaths(trees, root, Dirs(trees, root, MAX_DEPTH)) {
      var names := Split(p);
      JoinSplit(p);
      LeafIsNode(trees, root, names);
    }
  }

  lemma LeafIsNode(trees: Trees, root: Bytes, names: Names)
    requires LeafAt(trees, root, names).Some?
    requires forall d :: DirAt(trees, root, d).Some? ==> |d| <= MAX_DEPTH
    ensures names in NodesUnder(trees, root, Dirs(trees, root, MAX_DEPTH))
  {
    hide Dirs;
    var d, last := names[..|names| - 1], names[|names| - 1];
    var e := EntryNamed(DirEntries(trees, root, d), last).value;
    DirsAll(trees, root, MAX_DEPTH, d);
    assert names == d + [e.name];
  }

  /** Conversely, an expansion that ran through shows the tree to be within budgets. */
  lemma RanThrough(trees: Trees, root: Bytes, done: set<Names>, leaves: map<Bytes, Leaf>, bytes: nat)
    requires NamedTrees(trees) && Means(trees, root, leaves)
    requires forall names :: names in done <==> DirAt(trees, root, names).Some?
    requires forall d :: d in done ==> |d| <= MAX_DEPTH && !Revisits(trees, root, d)
    requires |done| <= MAX_FLATTENED_TREE_NODES && |leaves| <= MAX_FLATTENED_TREE_LEAVES
    requires bytes == Total(NodesUnder(trees, root, done)) && bytes <= MAX_EXPANDED_TREE_PATH_BYTES
    ensures FitsBudgets(trees, root)
  {
    hide NamedTrees, DirAt, LeafAt, Revisits, Total, NodesUnder, Dirs, Join, Split, PlainName;
    var ds := Dirs(trees, root, MAX_DEPTH);
    forall d | d in ds ensures d in done {
      DirsSound(trees, root, MAX_DEPTH, d);
    }
    SubsetSize(ds, done);
    NodesMonotone(trees, root, ds, done);
    TotalMonotone(NodesUnder(trees, root, ds), NodesUnder(trees, root, done));
    forall p | p in LeafPaths(trees, root, ds) ensures p in leaves {
      var n :| n in NodesUnder(trees, root, ds) && LeafAt(trees, root, n).Some? && p == Join(n);
      LeafNamesPlain(trees, root, n);
    }
    SubsetSize(LeafPaths(trees, root, ds), leaves.Keys);
  }

  // ----- the loop

  lemma ChildLength(prefix: Bytes, name: Bytes)
    ensures |Child(prefix, name)| == |prefix| + (if prefix == [] then 0 else 1) + |name|
  {
  }

  lemma ItemFacts(trees: Trees, root: Bytes, it: Item)
    requires GoodItem(trees, root, it)
    ensures var ns := NamesOf(it.prefix);
      && Join(ns) == it.prefix && |ns| == it.depth && DirAt(trees, root, ns) == Some(it.oid)
      && it.ancestors == AncestorIds(trees, root, ns)
      && (it.oid in it.ancestors <==> Revisits(trees, root, ns))
  {
    RevisitsIffAncestor(trees, root, NamesOf(it.prefix));
  }

  /** Reading the entries of one directory from the back.  `named` says that
      every tree has plain, distinct names; `clean` that nothing was skipped before. */
  method ReadEntries(trees: Trees, ghost root: Bytes, it: Item, pending0: seq<Item>, leaves0: map<Bytes, Leaf>, bytes0: nat,
                     violations: ViolationList, ghost named: bool, ghost done: set<Names>, ghost clean: bool)
      returns (stopped: bool, pending: seq<Item>, leaves: map<Bytes, Leaf>, bytes: nat)
    requires named ==>
      && NamedTrees(trees) && GoodItem(trees, root, it)
      && Flattening(trees, root, pending0, done, leaves0, bytes0, NamesOf(it.prefix), EntriesOf(trees, it.oid), clean)
    requires |leaves0| <= MAX_FLATTENED_TREE_LEAVES && bytes0 <= MAX_EXPANDED_TREE_PATH_BYTES
    modifies violations
    ensures old(violations.items) <= violations.items
    ensures stopped ==> violations.items != old(violations.items)
    ensures !stopped ==> |leaves| <= MAX_FLATTENED_TREE_LEAVES && bytes <= MAX_EXPANDED_TREE_PATH_BYTES
    ensures !stopped && named ==>
      Flattening(trees, root, pending, done, leaves, bytes, NamesOf(it.prefix), [],
                 clean && violations.items == old(violations.items))
    ensures violations.items == old(violations.items) ==>
      forall e :: e in EntriesOf(trees, it.oid) ==> !IsGitlink(e)
    ensures named && FitsBudgets(trees, root) && (forall e :: e in EntriesOf(trees, it.oid) ==> !IsGitlink(e)) ==>
      violations.items == old(violations.items)
  {
    hide *;
    pending, leaves, bytes := pending0, leaves0, bytes0;
    var es := EntriesOf(trees, it.oid);
    ghost var ns := NamesOf(it.prefix);
    assert es[..|es|] == es;
    if named { ItemFacts(trees, root, it); }
    for j := |es| downto 0
      invariant old(violations.items) <= violations.items
      invariant |leaves| <= MAX_FLATTENED_TREE_LEAVES && bytes <= MAX_EXPANDED_TREE_PATH_BYTES
      invariant named ==> Flattening(trees, root, pending, done, leaves, bytes, ns, es[..j],
                                     clean && violations.items == old(violations.items))
      invariant violations.items == old(violations.items) ==> forall k :: j <= k < |es| ==> !IsGitlink(es[k])
      invariant named && FitsBudgets(trees, root) && (forall e :: e in es ==> !IsGitlink(e)) ==>
        violations.items == old(violations.items)
    {
      var e := es[j];
      ghost var left, intact := es[..j], clean && violations.items == old(violations.items);
      assert es[..j + 1] == left + [e];
      if named && FitsBudgets(trees, root) {
        BytesFit(trees, root, pending, done, leaves, bytes, ns, left, e, intact);
      }
      ChildLength(it.prefix, e.name);
      var nextPathBytes := |it.prefix| + (if it.prefix == [] then 0 else 1) + |e.name|;
      if bytes > MAX_EXPANDED_TREE_PATH_BYTES - nextPathBytes {
        violations.Append(PathByteBudget);
        return true, pending, map[], bytes;
      }
      ghost var before := bytes;
      bytes := bytes + nextPathBytes;
      var path := Child(it.prefix, e.name);
      if e.kind == TreeKind {
        if named && FitsBudgets(trees, root) {
          StackFits(trees, root, pending, done, leaves, before, ns, left, e, intact);
        }
        if |pending| >= MAX_FLATTENED_TREE_NODES {
          violations.Append(ExpansionBudget);
          return true, pending, map[], bytes;
        }
        var sub := Item(e.oid, path, it.depth + 1, it.ancestors + {it.oid});
        if named { PushDir(trees, root, pending, done, leaves, before, ns, left, e, intact, sub); }
        pending := pending + [sub];
        IsGitlinkFacts(e);
        continue;
      }
      IsGitlinkFacts(e);
      if e.mode == GITLINK {
        if named { PassOver(trees, root, pending, done, leaves, before, ns, left, e, intact); }
        violations.Append(GitlinkInTree);
        continue;
      }
      if named {
        RecordLeaf(trees, root, pending, done, leaves, before, ns, left, e, intact);
        if FitsBudgets(trees, root) {
          LeafFits(trees, root, pending, done, leaves, before, ns, left, e, intact);
        }
      }
      if path in leaves {
        // Plain, distinct names rule this out.
        assert !named;
        violations.Append(DuplicateLeafPath);
        continue;
      }
      if |leaves| >= MAX_FLATTENED_TREE_LEAVES {
        violations.Append(LeafBudget);
        return true, pending, map[], bytes;
      }
      leaves := leaves[path := LeafOf(e)];
    }
    assert es[..0] == [];
    return false, pending, leaves, bytes;
  }

  lemma IsGitlinkFacts(e: Entry)
    ensures IsGitlink(e) <==> e.kind != TreeKind && e.mode == GITLINK
  {
  }

  /** `flatten_git_tree`.  On trees with plain, distinct names it reports
      nothing exactly when the tree is readable, free of gitlinks and within
      the budgets, and then returns the meaning of the tree. */
  method FlattenTree(root: Bytes, trees: Trees, violations: ViolationList) returns (leaves: map<Bytes, Leaf>)
    modifies violations
    ensures old(violations.items) <= violations.items
    ensures |leaves| <= MAX_FLATTENED_TREE_LEAVES
    ensures NamedTrees(trees) ==>
      (violations.items == old(violations.items) <==> Flattenable(trees, root))
    ensures NamedTrees(trees) && violations.items == old(violations.items) ==> Means(trees, root, leaves)
  {
    hide *;
    NothingYet(trees, root);
    FlattenableFacts(trees, root);
    if !FullSha(root) || root !in trees {
      violations.Append(UnreadableTree);
      return map[];
    }
    ghost var named := NamedTrees(trees);
    ghost var flattenable := named && GitlinkFree(trees, root) && FitsBudgets(trees, root);
    leaves := map[];
    var pending := [Item(root, [], 0, {})];
    var expandedNodes: nat, expandedPathBytes: nat := 0, 0;
    ghost var done: set<Names>, ns: Names := {}, [];
    Start(trees, root);
    while pending != []
      invariant old(violations.items) <= violations.items
      invariant |leaves| <= MAX_FLATTENED_TREE_LEAVES && expandedPathBytes <= MAX_EXPANDED_TREE_PATH_BYTES
      invariant expandedNodes <= MAX_FLATTENED_TREE_NODES
      invariant named ==> Flattening(trees, root, pending, done, leaves, expandedPathBytes, ns, [],
                                     violations.items == old(violations.items))
      invariant violations.items == old(violations.items) && named ==>
        |done| == expandedNodes && Checked(trees, root, done)
      invariant flattenable ==> violations.items == old(violations.items)
      decreases MAX_FLATTENED_TREE_NODES - expandedNodes
    {
      var it := pending[|pending| - 1];
      ghost var stack, clean := pending, violations.items == old(violations.items);
      pending := pending[..|pending| - 1];
      assert stack == pending + [it];
      if named {
        Skip(trees, root, pending, it, done, leaves, expandedPathBytes, ns, clean);
        Expand(trees, root, pending, it, done, leaves, expandedPathBytes, ns, clean);
        ItemFacts(trees, root, it);
        if flattenable { ItemFits(trees, root, pending, it, done, leaves, expandedPathBytes, clean); }
      }
      expandedNodes := expandedNodes + 1;
      if expandedNodes > MAX_FLATTENED_TREE_NODES {
        violations.Append(ExpansionBudget);
        return map[];
      }
      if it.depth > MAX_DEPTH || it.oid in it.ancestors {
        violations.Append(CyclicOrTooDeep);
        continue;
      }
      ghost var before := done;
      done, ns := done + {NamesOf(it.prefix)}, NamesOf(it.prefix);
      var stopped;
      stopped, pending, leaves, expandedPathBytes :=
        ReadEntries(trees, root, it, pending, leaves, expandedPathBytes, violations, named, done, clean);
      if stopped {
        return map[];
      }
      if named && violations.items == old(violations.items) {
        CheckedGrows(trees, root, before, it);
      }
    }
    if named && violations.items == old(violations.items) {
      Done(trees, root, done, leaves, expandedPathBytes, ns);
      AllChecked(trees, root, done, leaves, expandedPathBytes);
    }
  }

  /** The directories expanded so far passed the depth, cycle and gitlink tests. */
  ghost predicate Checked(trees: Trees, root: Bytes, done: set<Names>) {
    && (forall d :: d in done ==> |d| <= MAX_DEPTH && !Revisits(trees, root, d))
    && (forall d, e :: d in done && e in DirEntries(trees, root, d) ==> !IsGitlink(e))
  }

  lemma NothingYet(trees: Trees, root: Bytes)
    ensures Checked(trees, root, {})
    ensures 0 <= MAX_FLATTENED_TREE_NODES && 0 <= MAX_FLATTENED_TREE_LEAVES && 0 <= MAX_EXPANDED_TREE_PATH_BYTES
  {
  }

  lemma CheckedGrows(trees: Trees, root: Bytes, done: set<Names>, it: Item)
    requires GoodItem(trees, root, it) && Checked(trees, root, done)
    requires it.depth <= MAX_DEPTH && it.oid !in it.ancestors
    requires forall e :: e in EntriesOf(trees, it.oid) ==> !IsGitlink(e)
    ensures Checked(trees, root, done + {NamesOf(it.prefix)})
  {
    hide Revisits, AncestorIds, NamesOf, Join, IsGitlink, DirAt, EntriesOf;
    ItemFacts(trees, root, it);
  }

  lemma AllChecked(trees: Trees, root: Bytes, done: set<Names>, leaves: map<Bytes, Leaf>, bytes: nat)
    requires NamedTrees(trees) && Means(trees, root, leaves) && Checked(trees, root, done)
    requires forall names :: names in done <==> DirAt(trees, root, names).Some?
    requires |done| <= MAX_FLATTENED_TREE_NODES && |leaves| <= MAX_FLATTENED_TREE_LEAVES
    requires bytes == Total(NodesUnder(trees, root, done)) && bytes <= MAX_EXPANDED_TREE_PATH_BYTES
    ensures GitlinkFree(trees, root) && FitsBudgets(trees, root)
  {
    hide NamedTrees, Means, Revisits, Total, NodesUnder, FitsBudgets, DirAt, EntriesOf, IsGitlink;
    RanThrough(trees, root, done, leaves, bytes);
    forall names, e | ChildOf(trees, root, names, e) ensures !IsGitlink(e) {
      assert names in done && e in DirEntries(trees, root, names);
    }
  }

  /** In a flattenable tree the next directory passes every test. */
  lemma ItemFits(trees: Trees, root: Bytes, pending: seq<Item>, it: Item, done: set<Names>,
                 leaves: map<Bytes, Leaf>, bytes: nat, clean: bool)
    requires FitsBudgets(trees, root) && GitlinkFree(trees, root) && GoodItem(trees, root, it)
    requires NamesOf(it.prefix) !in done
    requires Flattening(trees, root, pending, done + {NamesOf(it.prefix)}, leaves, bytes,
                        NamesOf(it.prefix), EntriesOf(trees, it.oid), clean)
    ensures |done| + 1 <= MAX_FLATTENED_TREE_NODES
    ensures it.depth <= MAX_DEPTH && it.oid !in it.ancestors
    ensures forall e :: e in EntriesOf(trees, it.oid) ==> !IsGitlink(e)
  {
    hide Revisits, AncestorIds, NamesOf, Join, IsGitlink, DirAt, EntriesOf, Total, NodesUnder, Dirs, LeafPaths, Stack, Complete, DirsComplete, Unread;
    ItemFacts(trees, root, it);
    DoneFits(trees, root, done + {NamesOf(it.prefix)});
    forall e | e in EntriesOf(trees, it.oid) ensures !IsGitlink(e) {
      assert ChildOf(trees, root, NamesOf(it.prefix), e);
    }
  }
}
