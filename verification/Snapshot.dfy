/** `validate_filtered_tree_snapshot`: trees supplied as raw objects, expanded
    without a repository around them. */
module Snapshot {
  import opened ByteStrings
  import opened GitPaths
  import opened RawTree
  import opened ObjectGraph
  import opened StoredObjects
  import opened ObjectStore
  import opened Base64
  import opened TreeMeaning
  import opened Frontier
  import opened TreeSize
  import opened FlattenState
  import opened Flatten
  import opened Violations
  import opened Results

  const MAX_FILTERED_TREE_TOTAL_BYTES: nat := 16 * 1024 * 1024
  const MAX_SNAPSHOT_TREES: nat := 4096

  // ----- expansion

  /** Every directory the tree refers to is supplied. */
  ghost predicate AllPresent(trees: Trees, root: Bytes) {
    forall names :: DirAt(trees, root, names).Some? ==> DirAt(trees, root, names).value in trees
  }

  /** The IDs of the directories in `ds`. */
  ghost function DirIds(trees: Trees, root: Bytes, ds: set<Names>): set<Bytes> {
    set d | d in ds && DirAt(trees, root, d).Some? :: DirAt(trees, root, d).value
  }

  /** The IDs of all directories, for a tree at most 256 deep. */
  ghost function ReachableTrees(trees: Trees, root: Bytes): set<Bytes> {
    DirIds(trees, root, Dirs(trees, root, MAX_DEPTH))
  }

  lemma DirIdsGrow(trees: Trees, root: Bytes, ds: set<Names>, it: Item)
    requires GoodItem(trees, root, it)
    ensures DirIds(trees, root, {}) == {}
    ensures DirIds(trees, root, ds + {NamesOf(it.prefix)}) == DirIds(trees, root, ds) + {it.oid}
  {
    hide DirAt, NamesOf, Join, AncestorIds;
    var ns := NamesOf(it.prefix);
    assert ns in ds + {ns} && DirAt(trees, root, ns).value == it.oid;
  }

  lemma KindsValid(trees: Trees, oid: Bytes, e: Entry)
    requires NamedTrees(trees) && e in EntriesOf(trees, oid)
    ensures e.kind != InvalidKind
  {
    assert AdmissibleEntry(e);
  }

  /** Reading the entries of one directory from the back; gitlinks are leaves here. */
  method ReadSnapshotEntries(trees: Trees, ghost root: Bytes, it: Item, pending0: seq<Item>, leaves0: map<Bytes, Leaf>, bytes0: nat,
                             violations: ViolationList, ghost named: bool, ghost done: set<Names>, ghost clean: bool)
      returns (stopped: bool, pending: seq<Item>, leaves: map<Bytes, Leaf>, bytes: nat)
    requires it.oid in trees
    requires named ==>
      && NamedTrees(trees) && GoodItem(trees, root, it)
      && Flattening(trees, root, pending0, done, leaves0, bytes0, NamesOf(it.prefix), EntriesOf(trees, it.oid), clean)
    requires |leaves0| <= MAX_FLATTENED_TREE_LEAVES && bytes0 <= MAX_EXPANDED_TREE_PATH_BYTES
    modifies violations
    ensures old(violations.items) <= violations.items
    ensures stopped ==> violations.items != old(violations.items)
    ensures !stopped ==> |leaves| <= MAX_FLATTENED_TREE_LEAVES && bytes <= MAX_EXPANDED_TREE_PATH_BYTES
    ensures !stopped && named ==>
      && violations.items == old(violations.items)
      && Flattening(trees, root, pending, done, leaves, bytes, NamesOf(it.prefix), [], clean)
    ensures named && FitsBudgets(trees, root) ==> !stopped
  {
    hide *;
    pending, leaves, bytes := pending0, leaves0, bytes0;
    var es := EntriesOf(trees, it.oid);
    ghost var ns := NamesOf(it.prefix);
    assert es[..|es|] == es;
    if named { ItemFacts(trees, root, it); }
    for j := |es| downto 0
      invariant old(violations.items) <= violations.items
      invariant |leaves| <= MAX_FLATTENED_TREE_LEAVES && bytes <= MAX_EXPANDED_TREE_PATH_BYTES
      invariant named ==>
        && violations.items == old(violations.items)
        && Flattening(trees, root, pending, done, leaves, bytes, ns, es[..j], clean)
    {
      var e := es[j];
      ghost var left := es[..j];
      assert es[..j + 1] == left + [e];
      if named {
        KindsValid(trees, it.oid, e);
        if FitsBudgets(trees, root) { BytesFit(trees, root, pending, done, leaves, bytes, ns, left, e, clean); }
      }
      ChildLength(it.prefix, e.name);
      var nextPathBytes := |it.prefix| + (if it.prefix == [] then 0 else 1) + |e.name|;
      if bytes > MAX_EXPANDED_TREE_PATH_BYTES - nextPathBytes {
        violations.Append(PathByteBudget);
        return true, pending, map[], bytes;
      }
      ghost var before := bytes;
      bytes := bytes + nextPathBytes;
      var path := Child(it.prefix, e.name);
      if e.kind == TreeKind {
        if named && FitsBudgets(trees, root) {
          StackFits(trees, root, pending, done, leaves, before, ns, left, e, clean);
        }
        if |pending| >= MAX_FLATTENED_TREE_NODES {
          violations.Append(ExpansionBudget);
          return true, pending, map[], bytes;
        }
        var sub := Item(e.oid, path, it.depth + 1, it.ancestors + {it.oid});
        if named { PushDir(trees, root, pending, done, leaves, before, ns, left, e, clean, sub); }
        pending := pending + [sub];
      } else if e.kind == BlobKind || e.kind == CommitKind {
        if named {
          RecordLeaf(trees, root, pending, done, leaves, before, ns, left, e, clean);
          if FitsBudgets(trees, root) {
            LeafFits(trees, root, pending, done, leaves, before, ns, left, e, clean);
          }
        }
        if |leaves| >= MAX_FLATTENED_TREE_LEAVES && path !in leaves {
          violations.Append(LeafBudget);
          return true, pending, map[], bytes;
        }
        if path in leaves {
          // Plain, distinct names rule this out.
          assert !named;
          violations.Append(DuplicateLeafPath);
        }
        leaves := leaves[path := LeafOf(e)];
      }
    }
    assert es[..0] == [];
    return false, pending, leaves, bytes;
  }

  /** The directories expanded so far passed the depth, cycle and presence tests. */
  ghost predicate Present(trees: Trees, root: Bytes, done: set<Names>) {
    && (forall d :: d in done ==> |d| <= MAX_DEPTH && !Revisits(trees, root, d))
    && (forall d :: d in done && DirAt(trees, root, d).Some? ==> DirAt(trees, root, d).value in trees)
  }

  lemma NonePresent(trees: Trees, root: Bytes)
    ensures Present(trees, root, {}) && DirIds(trees, root, {}) == {}
  {
  }

  lemma PresentGrows(trees: Trees, root: Bytes, done: set<Names>, it: Item)
    requires GoodItem(trees, root, it) && Present(trees, root, done)
    requires it.depth <= MAX_DEPTH && it.oid !in it.ancestors && it.oid in trees
    ensures Present(trees, root, done + {NamesOf(it.prefix)})
  {
    hide Revisits, AncestorIds, NamesOf, Join, DirAt;
    ItemFacts(trees, root, it);
  }

  lemma AllArePresent(trees: Trees, root: Bytes, done: set<Names>, leaves: map<Bytes, Leaf>, bytes: nat)
    requires NamedTrees(trees) && Means(trees, root, leaves) && Present(trees, root, done)
    requires forall names :: names in done <==> DirAt(trees, root, names).Some?
    requires |done| <= MAX_FLATTENED_TREE_NODES && |leaves| <= MAX_FLATTENED_TREE_LEAVES
    requires bytes == Total(NodesUnder(trees, root, done)) && bytes <= MAX_EXPANDED_TREE_PATH_BYTES
    ensures FitsBudgets(trees, root) && AllPresent(trees, root)
    ensures DirIds(trees, root, done) == ReachableTrees(trees, root)
  {
    hide NamedTrees, Means, Revisits, Total, NodesUnder, FitsBudgets, DirAt, Dirs;
    RanThrough(trees, root, done, leaves, bytes);
    var ds := Dirs(trees, root, MAX_DEPTH);
    forall d ensures d in ds <==> d in done {
      if d in ds { DirsSound(trees, root, MAX_DEPTH, d); }
      if d in done { DirsAll(trees, root, MAX_DEPTH, d); }
    }
    assert ds == done;
  }

  lemma SnapshotItemFits(trees: Trees, root: Bytes, pending: seq<Item>, it: Item, done: set<Names>,
                         leaves: map<Bytes, Leaf>, bytes: nat, clean: bool)
    requires FitsBudgets(trees, root) && AllPresent(trees, root) && GoodItem(trees, root, it)
    requires NamesOf(it.prefix) !in done
    requires Flattening(trees, root, pending, done + {NamesOf(it.prefix)}, leaves, bytes,
                        NamesOf(it.prefix), EntriesOf(trees, it.oid), clean)
    ensures |done| + 1 <= MAX_FLATTENED_TREE_NODES
    ensures it.depth <= MAX_DEPTH && it.oid !in it.ancestors && it.oid in trees
  {
    hide Revisits, AncestorIds, NamesOf, Join, DirAt, EntriesOf, Total, NodesUnder, Dirs, LeafPaths, Stack, Complete, DirsComplete, Unread;
    ItemFacts(trees, root, it);
    DoneFits(trees, root, done + {NamesOf(it.prefix)});
  }

  /** The expansion loop of the snapshot validator. */
  method ExpandSnapshot(root: Bytes, trees: Trees, violations: ViolationList)
      returns (stopped: bool, leaves: map<Bytes, Leaf>, reachable: set<Bytes>)
    modifies violations
    ensures old(violations.items) <= violations.items
    ensures stopped ==> violations.items != old(violations.items)
    ensures NamedTrees(trees) ==>
      (violations.items == old(violations.items) <==> FitsBudgets(trees, root) && AllPresent(trees, root))
    ensures NamedTrees(trees) && violations.items == old(violations.items) ==>
      Means(trees, root, leaves) && reachable == ReachableTrees(trees, root)
  {
    hide *;
    NothingYet(trees, root);
    NonePresent(trees, root);
    ghost var named := NamedTrees(trees);
    ghost var expandable := named && FitsBudgets(trees, root) && AllPresent(trees, root);
    leaves, reachable := map[], {};
    var pending := [Item(root, [], 0, {})];
    var expandedNodes: nat, expandedPathBytes: nat := 0, 0;
    ghost var done: set<Names>, ns: Names := {}, [];
    Start(trees, root);
    while pending != []
      invariant old(violations.items) <= violations.items
      invariant |leaves| <= MAX_FLATTENED_TREE_LEAVES && expandedPathBytes <= MAX_EXPANDED_TREE_PATH_BYTES
      invariant expandedNodes <= MAX_FLATTENED_TREE_NODES
      invariant named ==> Flattening(trees, root, pending, done, leaves, expandedPathBytes, ns, [],
                                     violations.items == old(violations.items))
      invariant violations.items == old(violations.items) && named ==>
        |done| == expandedNodes && Present(trees, root, done) && reachable == DirIds(trees, root, done)
      invariant expandable ==> violations.items == old(violations.items)
      decreases MAX_FLATTENED_TREE_NODES - expandedNodes
    {
      var it := pending[|pending| - 1];
      ghost var stack, clean := pending, violations.items == old(violations.items);
      pending := pending[..|pending| - 1];
      assert stack == pending + [it];
      if named {
        Skip(trees, root, pending, it, done, leaves, expandedPathBytes, ns, clean);
        Expand(trees, root, pending, it, done, leaves, expandedPathBytes, ns, clean);
        DirIdsGrow(trees, root, done, it);
        if expandable { SnapshotItemFits(trees, root, pending, it, done, leaves, expandedPathBytes, clean); }
      }
      expandedNodes := expandedNodes + 1;
      if expandedNodes > MAX_FLATTENED_TREE_NODES {
        violations.Append(ExpansionBudget);
        return true, map[], {};
      }
      if it.depth > MAX_DEPTH {
        violations.Append(TooDeep);
        continue;
      }
      if it.oid in it.ancestors {
        violations.Append(Cyclic);
        continue;
      }
      if it.oid !in trees {
        violations.Append(MissingSubtree);
        continue;
      }
      reachable := reachable + {it.oid};
      if named && clean { PresentGrows(trees, root, done, it); }
      done, ns := done + {NamesOf(it.prefix)}, NamesOf(it.prefix);
      stopped, pending, leaves, expandedPathBytes :=
        ReadSnapshotEntries(trees, root, it, pending, leaves, expandedPathBytes, violations, named, done, clean);
      if stopped {
        return true, map[], {};
      }
    }
    if named && violations.items == old(violations.items) {
      Done(trees, root, done, leaves, expandedPathBytes, ns);
      AllArePresent(trees, root, done, leaves, expandedPathBytes);
    }
    return false, leaves, reachable;
  }

  // ----- the supplied trees

  ghost function TreesOf(store: map<Bytes, Stored>): Trees {
    map o | o in store && store[o].kind == TreeKind :: TreeOf(store[o].raw)
  }

  ghost predicate AllTrees(records: seq<ObjectRecord>) {
    forall i :: 0 <= i < |records| ==> records[i].kind == TreeKind
  }

  ghost predicate SnapshotIngestible(sha1: Digest, records: seq<ObjectRecord>) {
    AllTrees(records) && Ingestible(sha1, records, MAX_FILTERED_TREE_TOTAL_BYTES)
  }

  /** Trees that were parsed without complaint have plain, distinct names. */
  lemma GoodTreesAreNamed(sha1: Digest, records: seq<ObjectRecord>)
    requires AllGood(sha1, records)
    ensures NamedTrees(TreesOf(StoreOf(records)))
  {
    hide TreeOf, RawOf, Encodes64, Admissible, DistinctNames, Ascending, FullSha, ObjectId;
    var store := StoreOf(records);
    StoreKeys(records);
    forall o | o in TreesOf(store) ensures Admissible(TreesOf(store)[o]) && DistinctNames(TreesOf(store)[o]) {
      var i :| 0 <= i < |records| && records[i].oid == o;
      StoreEntry(records, i);
      assert GoodRecord(sha1, records[i]) && IsTree(store[o].raw);
      TreeIsCanonical(store[o].raw);
    }
  }

  lemma TreeIsCanonical(raw: Bytes)
    requires IsTree(raw)
    ensures Admissible(TreeOf(raw)) && DistinctNames(TreeOf(raw)) && TreeOf(raw) != [] && raw != []
  {
    hide Admissible, DistinctNames, Ascending;
    SerializeNonEmpty(TreeOf(raw));
  }

  lemma SerializeNonEmpty(es: seq<Entry>)
    requires es != [] && Admissible(es)
    ensures Serialize(es) != []
  {
    assert |SerializeEntry(es[0])| > 0;
  }

  lemma TreesGrow(objects: map<Bytes, Stored>, oid: Bytes, raw: Bytes)
    ensures TreesOf(map[]) == map[]
    ensures TreesOf(objects[oid := Stored(TreeKind, raw)]) == TreesOf(objects)[oid := TreeOf(raw)]
  {
  }

  /** One tree record with a readable body: the digest, the name and the parse. */
  method FileTree(sha1: Digest, r: ObjectRecord, raw: Bytes, known: Trees, violations: ViolationList, budget: EntryBudget)
      returns (trees: Trees)
    requires AllBytes(raw) && raw != []
    modifies violations, budget
    ensures old(violations.items) <= violations.items
    ensures violations.items == old(violations.items) <==>
      && ObjectId(sha1, TreeKind, raw) == r.oid && r.oid !in known
      && IsTree(raw) && old(budget.entries) + |TreeOf(raw)| <= MAX_PARSED_TREE_ENTRIES
    ensures violations.items == old(violations.items) ==>
      && trees == known[r.oid := TreeOf(raw)] && budget.entries == old(budget.entries) + |TreeOf(raw)|
      && budget.exceeded == old(budget.exceeded)
    ensures old(budget.entries) <= MAX_PARSED_TREE_ENTRIES ==> budget.entries <= MAX_PARSED_TREE_ENTRIES
  {
    hide Canonical, Serialize, ObjectId;
    if ObjectId(sha1, TreeKind, raw) != r.oid {
      violations.Append(ObjectIdMismatch);
    }
    if r.oid in known {
      violations.Append(DuplicateObjectId);
    }
    var entries := ParseRawTree(raw, violations, budget);
    forall es | Encodes(raw, es) ensures TreeOf(raw) == es { TreeOfUnique(raw, es); }
    trees := known[r.oid := entries];
  }

  lemma SnapshotRecordFacts(sha1: Digest, r: ObjectRecord)
    ensures r.kind == TreeKind && GoodRecord(sha1, r) ==>
      && Carries(sha1, r, RawOf(r)) && IsTree(RawOf(r)) && RawOf(r) != []
    ensures (&& r.kind == TreeKind && FullSha(r.oid) && Encodes64(r.body, RawOf(r)) && |RawOf(r)| <= MAX_GIT_OBJECT_BYTES
             && ObjectId(sha1, TreeKind, RawOf(r)) == r.oid && IsTree(RawOf(r))) ==> GoodRecord(sha1, r)
    ensures r.kind == TreeKind ==> StoredOf(r) == Stored(TreeKind, RawOf(r)) && EntryCount(r) == |TreeOf(RawOf(r))|
    ensures Carries(sha1, r, RawOf(r)) ==>
      && FullSha(r.oid) && Encodes64(r.body, RawOf(r)) && |RawOf(r)| <= MAX_GIT_OBJECT_BYTES
      && |r.body| <= MAX_GIT_OBJECT_BASE64_CHARS && ObjectId(sha1, r.kind, RawOf(r)) == r.oid
  {
    hide IsTree, TreeOf, RawOf, Encode, FullSha, ObjectId;
    if r.kind == TreeKind && GoodRecord(sha1, r) { TreeIsCanonical(RawOf(r)); }
    if Carries(sha1, r, RawOf(r)) { CanonicalSize(RawOf(r)); }
  }

  lemma AllTreesUpTo(records: seq<ObjectRecord>, i: nat)
    requires i < |records|
    ensures AllTrees([])
    ensures AllTrees(records[..i]) && records[i].kind == TreeKind ==> AllTrees(records[..i + 1])
    ensures AllTrees(records) ==> records[i].kind == TreeKind
  {
  }

  ghost predicate TreeRecordFits(sha1: Digest, r: ObjectRecord, known: Trees, total: int, entries: nat) {
    && r.kind == TreeKind && GoodRecord(sha1, r) && r.oid !in known
    && total + |RawOf(r)| <= MAX_FILTERED_TREE_TOTAL_BYTES
    && entries + EntryCount(r) <= MAX_PARSED_TREE_ENTRIES
  }

  /** One turn of the loop over the supplied tree objects. */
  method IngestTree(sha1: Digest, r: ObjectRecord, known: Trees, total0: int, violations: ViolationList, budget: EntryBudget)
      returns (stopped: bool, trees: Trees, total: int)
    requires 0 <= total0 <= MAX_FILTERED_TREE_TOTAL_BYTES && budget.entries <= MAX_PARSED_TREE_ENTRIES && !budget.exceeded
    modifies violations, budget
    ensures old(violations.items) <= violations.items
    ensures violations.items == old(violations.items) <==> TreeRecordFits(sha1, r, known, total0, old(budget.entries))
    ensures violations.items == old(violations.items) ==>
      && !stopped && trees == known[r.oid := TreeOf(RawOf(r))]
      && total == total0 + |RawOf(r)| && budget.entries == old(budget.entries) + EntryCount(r)
    ensures 0 <= total <= MAX_FILTERED_TREE_TOTAL_BYTES && budget.entries <= MAX_PARSED_TREE_ENTRIES
    ensures !stopped ==> !budget.exceeded
  {
    hide *;
    FitsFacts(sha1, r, known, total0, budget.entries);
    SnapshotRecordFacts(sha1, r);
    if Encodes64(r.body, RawOf(r)) { DeclaredForBody(r.body, RawOf(r)); }
    trees, total := known, total0;
    if !FullSha(r.oid) || r.kind != TreeKind {
      violations.Append(InvalidTreeRecord);
    }
    var declared := DeclaredLength(r.body);
    DeclaredNonNegative(r.body);
    if declared.Some? && total > MAX_FILTERED_TREE_TOTAL_BYTES - declared.value {
      violations.Append(SnapshotTooLarge);
      return true, trees, total;
    }
    var raw := DecodeCanonical(r.body, MAX_GIT_OBJECT_BYTES, MAX_GIT_OBJECT_BASE64_CHARS, violations);
    if raw.None? {
      return false, trees, total;
    }
    RawOfUnique(r, raw.value);
    if raw.value == [] {
      violations.Append(EmptyTreeBody);
      return false, trees, total;
    }
    // The prediction was exact, so the second comparison cannot fail.
    assert total <= MAX_FILTERED_TREE_TOTAL_BYTES - |raw.value|;
    total := total + |raw.value|;
    trees := FileTree(sha1, r, raw.value, trees, violations, budget);
    return budget.exceeded, trees, total;
  }

  lemma RawOfUnique(r: ObjectRecord, raw: Bytes)
    requires Encodes64(r.body, raw)
    ensures RawOf(r) == raw && AllBytes(raw) && DeclaredLength(r.body) == Some(|raw|)
  {
    DeclaredForBody(r.body, raw);
  }

  lemma FitsFacts(sha1: Digest, r: ObjectRecord, known: Trees, total: int, entries: nat)
    ensures TreeRecordFits(sha1, r, known, total, entries) <==>
      && r.kind == TreeKind && GoodRecord(sha1, r) && r.oid !in known
      && total + |RawOf(r)| <= MAX_FILTERED_TREE_TOTAL_BYTES
      && entries + EntryCount(r) <= MAX_PARSED_TREE_ENTRIES
  {
  }

  /** The loop over the supplied tree objects. */
  method IngestTrees(sha1: Digest, records: seq<ObjectRecord>, violations: ViolationList)
      returns (stopped: bool, trees: Trees)
    modifies violations
    ensures old(violations.items) <= violations.items
    ensures stopped ==> violations.items != old(violations.items)
    ensures violations.items == old(violations.items) <==> SnapshotIngestible(sha1, records)
    ensures violations.items == old(violations.items) ==> trees == TreesOf(StoreOf(records))
  {
    hide *;
    trees := map[];
    var total := 0;
    var budget := new EntryBudget();
    ghost var objects: map<Bytes, Stored>, nodes: map<Bytes, Node> := map[], map[];
    IngestNone(sha1);
    SnapshotLimits(sha1, records);
    TreesGrow(map[], [], []);
    assert records[..0] == [];
    for i := 0 to |records|
      invariant old(violations.items) <= violations.items
      invariant 0 <= total <= MAX_FILTERED_TREE_TOTAL_BYTES && budget.entries <= MAX_PARSED_TREE_ENTRIES
      invariant fresh(budget) && !budget.exceeded
      invariant violations.items == old(violations.items) ==>
        && Ingested(sha1, records[..i], objects, nodes, total, budget.entries)
        && AllTrees(records[..i]) && trees == TreesOf(objects) && trees.Keys == objects.Keys
      invariant SnapshotIngestible(sha1, records) ==> violations.items == old(violations.items)
    {
      var r := records[i];
      assert records[..i + 1] == records[..i] + [r];
      AllTreesUpTo(records, i);
      SnapshotRecordFacts(sha1, r);
      FitsFacts(sha1, r, trees, total, budget.entries);
      if violations.items == old(violations.items) {
        IngestedFacts(sha1, records[..i], objects, nodes, total, budget.entries, MAX_FILTERED_TREE_TOTAL_BYTES);
        if SnapshotIngestible(sha1, records) {
          NextIngestible(sha1, records, MAX_FILTERED_TREE_TOTAL_BYTES, i, objects);
        }
        if TreeRecordFits(sha1, r, trees, total, budget.entries) {
          IngestOne(sha1, records[..i], r, objects, nodes, total, budget.entries);
          TreesGrow(objects, r.oid, RawOf(r));
        }
      }
      objects, nodes := objects[r.oid := StoredOf(r)], nodes[r.oid := NodeOf(StoredOf(r))];
      stopped, trees, total := IngestTree(sha1, r, trees, total, violations, budget);
      if stopped {
        return true, map[];
      }
    }
    assert records[..|records|] == records;
    if violations.items == old(violations.items) {
      IngestedFacts(sha1, records, objects, nodes, total, budget.entries, MAX_FILTERED_TREE_TOTAL_BYTES);
    }
    return false, trees;
  }

  lemma SnapshotLimits(sha1: Digest, records: seq<ObjectRecord>)
    ensures 0 <= MAX_FILTERED_TREE_TOTAL_BYTES && 0 <= MAX_PARSED_TREE_ENTRIES
    ensures AllTrees([])
    ensures SnapshotIngestible(sha1, records) <==>
      AllTrees(records) && Ingestible(sha1, records, MAX_FILTERED_TREE_TOTAL_BYTES)
  {
  }

  // ----- the whole validator

  ghost predicate AcceptedSnapshot(sha1: Digest, root: Bytes, expected: Bytes, records: seq<ObjectRecord>) {
    var trees := TreesOf(StoreOf(records));
    && FullSha(root) && root == expected
    && 1 <= |records| <= MAX_SNAPSHOT_TREES && SnapshotIngestible(sha1, records)
    && FitsBudgets(trees, root) && AllPresent(trees, root)
    && trees.Keys == ReachableTrees(trees, root)
  }

  /** `validate_filtered_tree_snapshot`: accepts exactly the snapshots whose
      trees are the authenticated, complete and minimal expansion of the
      expected root, and returns that tree's meaning. */
  method ValidateSnapshot(sha1: Digest, root: Bytes, expected: Bytes, records: seq<ObjectRecord>, violations: ViolationList)
      returns (leaves: map<Bytes, Leaf>)
    modifies violations
    ensures old(violations.items) <= violations.items
    ensures violations.items == old(violations.items) <==> AcceptedSnapshot(sha1, root, expected, records)
    ensures violations.items == old(violations.items) ==> Means(TreesOf(StoreOf(records)), root, leaves)
  {
    hide *;
    AcceptedSnapshotFacts(sha1, root, expected, records);
    var supplied := records;
    if !FullSha(root) || root != expected {
      violations.Append(WrongRootTree);
    }
    if !(1 <= |records| <= MAX_SNAPSHOT_TREES) {
      violations.Append(InvalidInventorySize);
      supplied := [];
    }
    var stopped, trees := IngestTrees(sha1, supplied, violations);
    if stopped {
      return map[];
    }
    var reachable: set<Bytes> := {};
    leaves := map[];
    if FullSha(root) {
      stopped, leaves, reachable := ExpandSnapshot(root, trees, violations);
      if stopped {
        return map[];
      }
    }
    if trees.Keys != reachable {
      violations.Append(SnapshotNotExact);
    }
  }

  lemma AcceptedSnapshotFacts(sha1: Digest, root: Bytes, expected: Bytes, records: seq<ObjectRecord>)
    ensures var trees := TreesOf(StoreOf(records));
      AcceptedSnapshot(sha1, root, expected, records) <==>
      && FullSha(root) && root == expected
      && 1 <= |records| <= MAX_SNAPSHOT_TREES && SnapshotIngestible(sha1, records)
      && FitsBudgets(trees, root) && AllPresent(trees, root)
      && trees.Keys == ReachableTrees(trees, root)
    ensures SnapshotIngestible(sha1, records) ==> NamedTrees(TreesOf(StoreOf(records)))
  {
    hide AllGood, TreesOf, StoreOf, NamedTrees;
    if SnapshotIngestible(sha1, records) { GoodTreesAreNamed(sha1, records); }
  }
}
