/** The whole extraction proof: what its acceptance says about the first commit
    of the new repository. */
module Extraction {
  import opened ByteStrings
  import opened GitPaths
  import opened RawTree
  import opened TreeMeaning
  import opened OwnedProjection
  import opened Projection
  import opened ObjectStore
  import opened StoredObjects
  import opened ObjectGraph
  import opened Snapshot
  import opened Flatten
  import opened RepositoryProof
  import opened ContentAddressing
  import opened Violations
  import opened Results

  /** One repository of an object-store proof. */
  datatype Repository = Repository(refs: seq<Bytes>, records: seq<ObjectRecord>, boundaries: seq<Bytes>)

  /** The certified commits: historical, filtered and first of the new repository. */
  datatype Epoch = Epoch(r0: Bytes, filtered: Bytes, r1: Bytes)

  datatype StoreProof = StoreProof(source: Repository, filtered: Repository)
  datatype HistoryMap = HistoryMap(store: StoreProof, projection: TreeProjection, bootstrap: Bootstrap)
  datatype Manifest = Manifest(inventory: Inventory, ownedPathCount: int)

  // ----- validate_rterm_object_store

  ghost function NodesOf(repository: Repository): map<Bytes, Node> {
    Nodes(StoreOf(repository.records))
  }

  function ParentsOf(objects: map<Bytes, Node>, r: Bytes): seq<Bytes> {
    if r in objects && objects[r].CommitNode? then objects[r].parents else []
  }

  ghost predicate AcceptedStore(sha1: Digest, s: StoreProof, e: Epoch) {
    && AcceptedRepository(sha1, s.source.records, s.source.refs, [e.r0], s.source.boundaries)
    && AcceptedRepository(sha1, s.filtered.records, s.filtered.refs, [e.filtered, e.r1], s.filtered.boundaries)
    && s.source.boundaries == [e.r0] && s.filtered.boundaries == []
    && e.filtered != e.r1 && ParentsOf(NodesOf(s.filtered), e.r1) == [e.filtered]
  }

  /** `validate_rterm_object_store`; a repository that could not be read has no objects. */
  method ValidateStore(sha1: Digest, s: StoreProof, e: Epoch, violations: ViolationList) returns (objects: map<Bytes, Node>)
    modifies violations
    ensures old(violations.items) <= violations.items
    ensures violations.items == old(violations.items) <==> AcceptedStore(sha1, s, e)
    ensures violations.items == old(violations.items) ==> objects == NodesOf(s.filtered)
  {
    hide AcceptedRepository, NodesOf, GraphOf, ParentsOf, SetOf;
    GraphNodes(s.filtered, [e.filtered, e.r1]);
    var source := CheckRepository(sha1, s.source.records, s.source.refs, [e.r0], s.source.boundaries, violations);
    var filtered := CheckRepository(sha1, s.filtered.records, s.filtered.refs, [e.filtered, e.r1], s.filtered.boundaries, violations);
    objects := if filtered.Some? then filtered.value.objects else map[];
    if s.source.boundaries != [e.r0] || s.filtered.boundaries != [] {
      violations.Append(InvalidBoundaries);
    }
    if e.filtered == e.r1 || ParentsOf(objects, e.r1) != [e.filtered] {
      violations.Append(WrongR1Parent);
    }
  }

  lemma GraphNodes(repository: Repository, refs: seq<Bytes>)
    ensures GraphOf(StoreOf(repository.records), refs, SetOf(repository.boundaries)).objects == NodesOf(repository)
  {
  }

  // ----- validate_cross_repository_proof_set

  ghost predicate CrossBound(m: Manifest, h: HistoryMap, external: StoreProof) {
    && external == h.store
    && h.projection.mappings == Select(m.inventory.mappings, false)
    && h.bootstrap.templates == Select(m.inventory.mappings, true)
    && m.ownedPathCount == |m.inventory.mappings|
  }

  method CheckCrossBinding(m: Manifest, h: HistoryMap, external: StoreProof, violations: ViolationList)
    modifies violations
    ensures old(violations.items) <= violations.items
    ensures violations.items == old(violations.items) <==> CrossBound(m, h, external)
  {
    hide Select;
    if external != h.store {
      violations.Append(StoresDrift);
    }
    if h.projection.mappings != Select(m.inventory.mappings, false) {
      violations.Append(WrongHistory);
    }
    if h.bootstrap.templates != Select(m.inventory.mappings, true) {
      violations.Append(WrongTemplates);
    }
    if m.ownedPathCount != |m.inventory.mappings| {
      violations.Append(WrongClaims);
    }
  }

  // ----- what acceptance determines

  /** Everything accepted together.  The history map derives the expected
      templates a second time, from the same leaves. */
  ghost predicate AllAccepted(sha1: Digest, c: Contract, e: Epoch, sourceTree: Bytes, source: map<Bytes, Leaf>,
                              m: Manifest, h: HistoryMap, external: StoreProof)
  {
    var objects := NodesOf(h.store.filtered);
    && AcceptedInventory(m.inventory, source, c, e.r0)
    && AcceptedStore(sha1, h.store, e)
    && AcceptedBootstrap(h.bootstrap, h.bootstrap.templates, objects, e.filtered, e.r1)
    && AcceptedProjection(sha1, h.projection, e.r0, e.filtered, TreeOfCommit(objects, e.filtered), sourceTree, source)
    && CrossBound(m, h, external)
  }

  ghost predicate OneToOne(ms: seq<Mapping>) {
    forall i, j :: 0 <= i < j < |ms| ==> ms[i].source != ms[j].source && ms[i].filtered != ms[j].filtered
  }

  /** The leaf map of the first commit is determined: the historical owned
      leaves renamed one-to-one, the templates over them, and the two lockfiles,
      which are new. */
  ghost predicate Determined(c: Contract, e: Epoch, source: map<Bytes, Leaf>, m: Manifest, h: HistoryMap) {
    var objects := NodesOf(h.store.filtered);
    var trees := TreesIn(objects);
    var historical := Apply(map[], Select(m.inventory.mappings, false));
    && (forall x :: x in m.inventory.mappings <==> Owned(source, c, x))
    && OneToOne(Select(m.inventory.mappings, false))
    && TwoLockfiles(objects, h.bootstrap.generated) && ROOT_LOCK !in historical && CONSUMER_LOCK !in historical
    && Means(trees, TreeOfCommit(objects, e.filtered), historical)
    && Means(trees, TreeOfCommit(objects, e.r1),
             ExpectedR1(historical, Select(m.inventory.mappings, true), h.bootstrap.generated))
  }

  lemma TreesInNodes(store: map<Bytes, Stored>)
    ensures TreesIn(Nodes(store)) == TreesOf(store)
  {
    hide TreeOf;
  }

  /** The snapshot's filtered tree and the store's filtered tree are the same tree. */
  lemma SnapshotIsStoreTree(sha1: Digest, e: Epoch, h: HistoryMap, leaves: map<Bytes, Leaf>)
    requires AcceptedStore(sha1, h.store, e)
    requires var root := TreeOfCommit(NodesOf(h.store.filtered), e.filtered);
      && AcceptedSnapshot(sha1, h.projection.snapshotRoot, root, h.projection.snapshot)
      && Means(TreesOf(StoreOf(h.projection.snapshot)), root, leaves)
    requires CollisionFree(sha1, Frames(StoreOf(h.projection.snapshot)) + Frames(StoreOf(h.store.filtered.records)))
    ensures Means(TreesIn(NodesOf(h.store.filtered)), TreeOfCommit(NodesOf(h.store.filtered), e.filtered), leaves)
    ensures NamedTrees(TreesIn(NodesOf(h.store.filtered)))
  {
    hide Means, TreesOf, StoreOf, Frames, CollisionFree, NamedTrees, Nodes, AllPresent, TreeClosed, ExactClosure, NodeOf, FitsBudgets, ReachableTrees, TreesIn, Addressed, AllGood, GoodBoundaries, GoodInventory, AllFullShas, BytesIn, EntriesIn, FullSha, AllTrees;
    var records := h.store.filtered.records;
    var a, b := StoreOf(h.projection.snapshot), StoreOf(records);
    GoodStoreAddressed(sha1, h.projection.snapshot);
    GoodStoreAddressed(sha1, records);
    SameTrees(sha1, a, b);
    StoreTreesClosed(b, [e.filtered, e.r1], SetOf(h.store.filtered.boundaries));
    CommitTreePresent(b, [e.filtered, e.r1], SetOf(h.store.filtered.boundaries), e.filtered);
    NodesLookup(b, e.filtered);
    TreesInNodes(b);
    GoodTreesAreNamed(sha1, records);
    MeaningsAgree(TreesOf(a), TreesOf(b), TreeOfCommit(NodesOf(h.store.filtered), e.filtered), leaves);
  }

  lemma NodesLookup(store: map<Bytes, Stored>, o: Bytes)
    requires o in store
    ensures o in Nodes(store) && Nodes(store)[o] == NodeOf(store[o])
  {
  }

  lemma InventoryIsOwned(m: Manifest, source: map<Bytes, Leaf>, c: Contract, r0: Bytes)
    requires AcceptedInventory(m.inventory, source, c, r0)
    ensures forall x :: x in m.inventory.mappings <==> Owned(source, c, x)
  {
    hide Owned, Derivable, Candidates, TemplateTable, RulesOf, SortedForm, TemplatesComplete, InventoryBinds;
    var derived := DerivedMappings(source, c);
    DerivedIsOwned(source, c, derived);
    SortedFormMembers(m.inventory.mappings, derived);
  }

  lemma BootstrapWitness(h: HistoryMap, objects: map<Bytes, Node>, e: Epoch, filtered: map<Bytes, Leaf>)
    requires NamedTrees(TreesIn(objects))
    requires AcceptedBootstrap(h.bootstrap, h.bootstrap.templates, objects, e.filtered, e.r1)
    requires Means(TreesIn(objects), TreeOfCommit(objects, e.filtered), filtered)
    ensures TwoLockfiles(objects, h.bootstrap.generated) && ROOT_LOCK !in filtered && CONSUMER_LOCK !in filtered
    ensures Means(TreesIn(objects), TreeOfCommit(objects, e.r1),
                  ExpectedR1(filtered, h.bootstrap.templates, h.bootstrap.generated))
  {
    hide NamedTrees, Means, TreesIn, TreeOfCommit, TwoLockfiles, ROOT_LOCK, CONSUMER_LOCK, ExpectedR1, BootstrapBinds, Flattenable;
    var trees := TreesIn(objects);
    var f, r1 :| Flattens(trees, TreeOfCommit(objects, e.filtered), f) && Flattens(trees, TreeOfCommit(objects, e.r1), r1)
      && BootstrapExact(h.bootstrap, h.bootstrap.templates, objects, f, r1);
    MeansUnique(trees, TreeOfCommit(objects, e.filtered), filtered, f);
  }

  /** If the inventory, both projections, the object stores and the cross
      binding are all accepted, the first commit's leaf map is determined. */
  lemma AcceptanceDeterminesR1(sha1: Digest, c: Contract, e: Epoch, sourceTree: Bytes, source: map<Bytes, Leaf>,
                               m: Manifest, h: HistoryMap, external: StoreProof)
    requires AllAccepted(sha1, c, e, sourceTree, source, m, h, external)
    requires CollisionFree(sha1, Frames(StoreOf(h.projection.snapshot)) + Frames(StoreOf(h.store.filtered.records)))
    ensures Determined(c, e, source, m, h)
  {
    hide AcceptedInventory, AcceptedStore, AcceptedBootstrap, AcceptedSnapshot, Means, TreesOf, StoreOf, Frames, CollisionFree, NodesOf, TreesIn, TreeOfCommit, Apply, Select, Owned, ExpectedR1, TwoLockfiles, ROOT_LOCK, CONSUMER_LOCK, FaithfulMapping, NamedTrees;
    var objects, ms := NodesOf(h.store.filtered), h.projection.mappings;
    InventoryIsOwned(m, source, c, e.r0);
    var historical := Apply(map[], ms);
    SnapshotIsStoreTree(sha1, e, h, historical);
    BootstrapWitness(h, objects, e, historical);
  }

  // ----- the determined map, leaf by leaf

  lemma {:induction false} WriteKeys(base: map<Bytes, Leaf>, gs: seq<Generated>)
    ensures Write(base, gs).Keys == base.Keys + set g | g in gs :: g.path
    ensures forall p :: p in base && p !in (set g | g in gs :: g.path) ==> Write(base, gs)[p] == base[p]
  {
    if gs != [] {
      var init, last := gs[..|gs| - 1], gs[|gs| - 1];
      WriteKeys(base, init);
      assert gs == init + [last];
    }
  }

  lemma {:induction false} ApplyElsewhere(base: map<Bytes, Leaf>, ms: seq<Mapping>, p: Bytes)
    requires p in base && p !in Targets(ms)
    ensures p in Apply(base, ms) && Apply(base, ms)[p] == base[p]
  {
    if ms != [] {
      var init, last := ms[..|ms| - 1], ms[|ms| - 1];
      assert ms == init + [last] && last in ms;
      assert p !in Targets(init) by { assert forall x :: x in init ==> x in ms; }
      ApplyElsewhere(base, init, p);
    }
  }

  ghost predicate IsLock(p: Bytes) {
    p == ROOT_LOCK || p == CONSUMER_LOCK
  }

  lemma LockPaths(objects: map<Bytes, Node>, gs: seq<Generated>)
    requires TwoLockfiles(objects, gs)
    ensures forall p :: IsLock(p) <==> p in set g | g in gs :: g.path
  {
    hide ROOT_LOCK, CONSUMER_LOCK, ClosedBlob;
    assert gs[0] in gs && gs[1] in gs;
    assert forall g :: g in gs ==> g == gs[0] || g == gs[1];
  }

  /** A path leads to a leaf of the first commit exactly when some owned leaf of
      the historical tree was sent there or it is one of the two lockfiles. */
  lemma R1Paths(c: Contract, e: Epoch, source: map<Bytes, Leaf>, m: Manifest, h: HistoryMap, p: Bytes)
    requires Determined(c, e, source, m, h)
    requires NamedTrees(TreesIn(NodesOf(h.store.filtered)))
    ensures LeafAt(TreesIn(NodesOf(h.store.filtered)), TreeOfCommit(NodesOf(h.store.filtered), e.r1), Split(p)).Some? <==>
      IsLock(p) || exists x :: Owned(source, c, x) && x.filtered == p
  {
    hide NamedTrees, TreesIn, TreeOfCommit, NodesOf, LeafAt, Split, Join, Apply, Write, Select, Owned, TwoLockfiles, IsLock, OneToOne, ROOT_LOCK, CONSUMER_LOCK;
    var objects, ms := NodesOf(h.store.filtered), m.inventory.mappings;
    var hs, ts := Select(ms, false), Select(ms, true);
    var r1 := ExpectedR1(Apply(map[], hs), ts, h.bootstrap.generated);
    LeafIffKey(TreesIn(objects), TreeOfCommit(objects, e.r1), r1, p);
    LockPaths(objects, h.bootstrap.generated);
    WriteKeys(Apply(Apply(map[], hs), ts), h.bootstrap.generated);
    ApplyKeys(Apply(map[], hs), ts);
    ApplyKeys(map[], hs);
    forall x ensures x in ms <==> x in hs || x in ts {
      SelectMembers(ms, false, x);
      SelectMembers(ms, true, x);
    }
  }

  lemma LeafIffKey(trees: Trees, root: Bytes, leaves: map<Bytes, Leaf>, p: Bytes)
    requires NamedTrees(trees) && Means(trees, root, leaves)
    ensures LeafAt(trees, root, Split(p)).Some? <==> p in leaves
    ensures p in leaves ==> LeafAt(trees, root, Split(p)) == Some(leaves[p])
  {
    hide NamedTrees, LeafAt, Split, Join, PlainName;
    if LeafAt(trees, root, Split(p)).Some? {
      LeafNamesPlain(trees, root, Split(p));
      JoinSplit(p);
    }
  }

  /** A historical leaf whose new path no template and no lockfile takes is in
      the first commit with the mode and object it had. */
  lemma R1KeepsHistory(c: Contract, e: Epoch, source: map<Bytes, Leaf>, m: Manifest, h: HistoryMap, x: Mapping)
    requires Determined(c, e, source, m, h)
    requires NamedTrees(TreesIn(NodesOf(h.store.filtered)))
    requires Owned(source, c, x) && !UnderBootstrap(x) && !IsLock(x.filtered)
    requires forall y :: Owned(source, c, y) && UnderBootstrap(y) ==> y.filtered != x.filtered
    ensures LeafAt(TreesIn(NodesOf(h.store.filtered)), TreeOfCommit(NodesOf(h.store.filtered), e.r1), Split(x.filtered)) == Some(x.leaf)
  {
    hide NamedTrees, TreesIn, TreeOfCommit, NodesOf, LeafAt, Split, Join, Apply, Write, Select, Owned, UnderBootstrap, TwoLockfiles, IsLock, ROOT_LOCK, CONSUMER_LOCK;
    var objects, ms := NodesOf(h.store.filtered), m.inventory.mappings;
    var hs, ts := Select(ms, false), Select(ms, true);
    var base, gs := Apply(map[], hs), h.bootstrap.generated;
    SelectMembers(ms, false, x);
    var i :| 0 <= i < |hs| && hs[i] == x;
    ApplyDistinct(map[], hs, i);
    forall y | y in ts ensures y.filtered != x.filtered {
      SelectMembers(ms, true, y);
    }
    ApplyElsewhere(base, ts, x.filtered);
    LockPaths(objects, gs);
    WriteKeys(Apply(base, ts), gs);
    LeafIffKey(TreesIn(objects), TreeOfCommit(objects, e.r1), ExpectedR1(base, ts, gs), x.filtered);
  }

  // ----- the first commit, path by path

  /** The leaf of the last mapping sent to `p`. */
  function LastTo(ms: seq<Mapping>, p: Bytes): Option<Leaf> {
    if ms == [] then None
    else if ms[|ms| - 1].filtered == p then Some(ms[|ms| - 1].leaf)
    else LastTo(ms[..|ms| - 1], p)
  }

  lemma {:induction false} LastToMeaning(ms: seq<Mapping>, p: Bytes)
    ensures LastTo(ms, p).None? <==> p !in Targets(ms)
    ensures LastTo(ms, p).Some? ==> exists k ::
      && 0 <= k < |ms| && ms[k].filtered == p && LastTo(ms, p).value == ms[k].leaf
      && forall j :: k < j < |ms| ==> ms[j].filtered != p
  {
    if ms != [] {
      var n := |ms| - 1;
      assert ms == ms[..n] + [ms[n]];
      if ms[n].filtered == p {
        assert ms[n] in ms;
      } else {
        LastToMeaning(ms[..n], p);
        assert p in Targets(ms[..n]) <==> p in Targets(ms) by {
          assert forall x :: x in ms <==> x in ms[..n] || x == ms[n];
        }
        if LastTo(ms[..n], p).Some? {
          var k :| 0 <= k < n && ms[..n][k].filtered == p && LastTo(ms[..n], p).value == ms[..n][k].leaf
            && forall j :: k < j < n ==> ms[..n][j].filtered != p;
          assert ms[k] == ms[..n][k];
          assert forall j :: k < j < n ==> ms[j] == ms[..n][j];
        }
      }
    }
  }

  function Lookup(leaves: map<Bytes, Leaf>, p: Bytes): Option<Leaf> {
    if p in leaves then Some(leaves[p]) else None
  }

  lemma {:induction false} ApplyLookup(base: map<Bytes, Leaf>, ms: seq<Mapping>, p: Bytes)
    ensures Lookup(Apply(base, ms), p) == if LastTo(ms, p).Some? then LastTo(ms, p) else Lookup(base, p)
  {
    if ms != [] { ApplyLookup(base, ms[..|ms| - 1], p); }
  }

  lemma WriteTwo(base: map<Bytes, Leaf>, a: Generated, b: Generated, p: Bytes)
    requires a.path != b.path
    ensures Lookup(Write(base, [a, b]), p) ==
      if p == a.path then Some(a.leaf) else if p == b.path then Some(b.leaf) else Lookup(base, p)
  {
    assert [a, b][..1] == [a] && [a][..0] == [];
    assert Write(base, [a]) == Write(base, [])[a.path := a.leaf];
    assert Write(base, [a, b]) == Write(base, [a])[b.path := b.leaf];
  }

  lemma LocksDiffer()
    ensures ROOT_LOCK != CONSUMER_LOCK
  {
    assert |ROOT_LOCK| != |CONSUMER_LOCK|;
  }

  /** What the first commit holds at any path whatever: a generated lockfile at its own path, else
      the last template sent there, else the historical leaf sent there, else nothing. */
  lemma R1Everywhere(c: Contract, e: Epoch, source: map<Bytes, Leaf>, m: Manifest, h: HistoryMap, p: Bytes)
    requires Determined(c, e, source, m, h)
    requires NamedTrees(TreesIn(NodesOf(h.store.filtered)))
    ensures |h.bootstrap.generated| == 2
    ensures LeafAt(TreesIn(NodesOf(h.store.filtered)), TreeOfCommit(NodesOf(h.store.filtered), e.r1), Split(p)) ==
      if p == ROOT_LOCK then Some(h.bootstrap.generated[0].leaf)
      else if p == CONSUMER_LOCK then Some(h.bootstrap.generated[1].leaf)
      else if LastTo(Select(m.inventory.mappings, true), p).Some? then LastTo(Select(m.inventory.mappings, true), p)
      else LastTo(Select(m.inventory.mappings, false), p)
  {
    hide NamedTrees, TreesIn, TreeOfCommit, NodesOf, LeafAt, Split, Apply, Write, Select, Owned, OneToOne, ROOT_LOCK, CONSUMER_LOCK, ClosedBlob, LastTo;
    var objects, gs := NodesOf(h.store.filtered), h.bootstrap.generated;
    var hs, ts := Select(m.inventory.mappings, false), Select(m.inventory.mappings, true);
    var base := Apply(map[], hs);
    LeafIffKey(TreesIn(objects), TreeOfCommit(objects, e.r1), ExpectedR1(base, ts, gs), p);
    LocksDiffer();
    assert gs == [gs[0], gs[1]];
    WriteTwo(Apply(base, ts), gs[0], gs[1], p);
    ApplyLookup(base, ts, p);
    ApplyLookup(map[], hs, p);
  }

  // ----- running the validators

  lemma ExpectedTemplates(m: Manifest, source: map<Bytes, Leaf>, c: Contract, r0: Bytes, sorted: seq<Mapping>)
    requires AcceptedInventory(m.inventory, source, c, r0) && SortedForm(sorted, DerivedMappings(source, c))
    ensures sorted == m.inventory.mappings
  {
    hide Owned, Derivable, Candidates, TemplateTable, RulesOf, SortedForm, TemplatesComplete, InventoryBinds;
    var derived := DerivedMappings(source, c);
    DerivedIsOwned(source, c, derived);
    forall x, y | x in derived && y in derived && x.source == y.source ensures x == y {
      var i :| 0 <= i < |derived| && derived[i] == x;
      var j :| 0 <= j < |derived| && derived[j] == y;
      assert i == j;
    }
    SortedFormUnique(sorted, m.inventory.mappings, derived);
  }

  lemma StoreIsNamed(sha1: Digest, s: StoreProof, e: Epoch)
    requires AcceptedStore(sha1, s, e)
    ensures NamedTrees(TreesIn(NodesOf(s.filtered)))
  {
    hide StoreOf, TreesOf, TreesIn, NamedTrees, AllGood, Nodes;
    TreesInNodes(StoreOf(s.filtered.records));
    GoodTreesAreNamed(sha1, s.filtered.records);
  }

  /** The result checks of the history map artifact. */
  method ValidateHistoryMap(sha1: Digest, c: Contract, e: Epoch, sourceTree: Bytes, source: map<Bytes, Leaf>,
                            h: HistoryMap, violations: ViolationList)
    modifies violations
    ensures old(violations.items) <= violations.items
    ensures violations.items == old(violations.items) <==>
      && AcceptedStore(sha1, h.store, e) && Derivable(source, c)
      && AcceptedProjection(sha1, h.projection, e.r0, e.filtered, TreeOfCommit(NodesOf(h.store.filtered), e.filtered), sourceTree, source)
      && exists sorted :: SortedForm(sorted, DerivedMappings(source, c)) &&
           AcceptedBootstrap(h.bootstrap, Select(sorted, true), NodesOf(h.store.filtered), e.filtered, e.r1)
  {
    hide *;
    var objects := ValidateStore(sha1, h.store, e, violations);
    if AcceptedStore(sha1, h.store, e) { StoreIsNamed(sha1, h.store, e); }
    var derived := Derive(source, c, violations);
    var sorted := SortMappings(derived);
    if violations.items == old(violations.items) {
      DerivedFacts(source, c, sorted);
    }
    ValidateBootstrap(h.bootstrap, Select(sorted, true), objects, e.filtered, e.r1, violations);
    ValidateTreeProjection(sha1, h.projection, e.r0, e.filtered, TreeOfCommit(objects, e.filtered), sourceTree, source, violations);
  }

  lemma DerivedFacts(source: map<Bytes, Leaf>, c: Contract, sorted: seq<Mapping>)
    requires Derivable(source, c)
    ensures DerivedMappings(source, c) == MappingsOf(Candidates(source, TemplateTable(c.templates), RulesOf(c)))
    ensures SortedForm(sorted, DerivedMappings(source, c)) ==>
      forall other :: SortedForm(other, DerivedMappings(source, c)) ==> other == sorted
  {
    hide Owned, Derivable, Candidates, TemplateTable, RulesOf, SortedForm;
    var derived := DerivedMappings(source, c);
    DerivedIsOwned(source, c, derived);
    forall x, y | x in derived && y in derived && x.source == y.source ensures x == y {
      var i :| 0 <= i < |derived| && derived[i] == x;
      var j :| 0 <= j < |derived| && derived[j] == y;
      assert i == j;
    }
    forall other | SortedForm(sorted, derived) && SortedForm(other, derived) ensures other == sorted {
      SortedFormUnique(other, sorted, derived);
    }
  }

  /** The extraction manifest, the history map, the external proof and the
      binding between them, as the gate runs them. */
  method CertifyExtraction(sha1: Digest, c: Contract, e: Epoch, sourceTree: Bytes, source: map<Bytes, Leaf>,
                           m: Manifest, h: HistoryMap, external: StoreProof, violations: ViolationList)
    modifies violations
    ensures old(violations.items) <= violations.items
    ensures violations.items == old(violations.items) <==> AllAccepted(sha1, c, e, sourceTree, source, m, h, external)
    ensures violations.items == old(violations.items)
      && CollisionFree(sha1, Frames(StoreOf(h.projection.snapshot)) + Frames(StoreOf(h.store.filtered.records)))
      ==> Determined(c, e, source, m, h)
  {
    hide *;
    AllAcceptedFacts(sha1, c, e, sourceTree, source, m, h, external);
    ValidateInventory(m.inventory, source, c, e.r0, violations);
    ValidateHistoryMap(sha1, c, e, sourceTree, source, h, violations);
    ghost var externalObjects := ValidateStore(sha1, external, e, violations);
    CheckCrossBinding(m, h, external, violations);
    if violations.items == old(violations.items)
       && CollisionFree(sha1, Frames(StoreOf(h.projection.snapshot)) + Frames(StoreOf(h.store.filtered.records)))
    {
      AcceptanceDeterminesR1(sha1, c, e, sourceTree, source, m, h, external);
    }
  }

  lemma AllAcceptedFacts(sha1: Digest, c: Contract, e: Epoch, sourceTree: Bytes, source: map<Bytes, Leaf>,
                         m: Manifest, h: HistoryMap, external: StoreProof)
    ensures AllAccepted(sha1, c, e, sourceTree, source, m, h, external) <==>
      && AcceptedInventory(m.inventory, source, c, e.r0)
      && AcceptedStore(sha1, h.store, e) && Derivable(source, c)
      && AcceptedProjection(sha1, h.projection, e.r0, e.filtered, TreeOfCommit(NodesOf(h.store.filtered), e.filtered), sourceTree, source)
      && (exists sorted :: SortedForm(sorted, DerivedMappings(source, c)) &&
           AcceptedBootstrap(h.bootstrap, Select(sorted, true), NodesOf(h.store.filtered), e.filtered, e.r1))
      && AcceptedStore(sha1, external, e)
      && CrossBound(m, h, external)
  {
    hide Derivable, AcceptedStore, AcceptedProjection, SortedForm, DerivedMappings, NodesOf, TreeOfCommit, Select, Flattens, BootstrapExact, InventoryBinds, TemplatesComplete;
    if AllAccepted(sha1, c, e, sourceTree, source, m, h, external) {
      assert SortedForm(m.inventory.mappings, DerivedMappings(source, c));
    }
    if && AcceptedInventory(m.inventory, source, c, e.r0) && CrossBound(m, h, external)
       && exists sorted :: SortedForm(sorted, DerivedMappings(source, c)) &&
            AcceptedBootstrap(h.bootstrap, Select(sorted, true), NodesOf(h.store.filtered), e.filtered, e.r1)
    {
      var sorted :| SortedForm(sorted, DerivedMappings(source, c)) &&
        AcceptedBootstrap(h.bootstrap, Select(sorted, true), NodesOf(h.store.filtered), e.filtered, e.r1);
      ExpectedTemplates(m, source, c, e.r0, sorted);
    }
  }
}
