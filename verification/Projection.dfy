/** The validators that tie the historical tree, the filtered tree and the first
    commit of the new repository together. */
module Projection {
  import opened ByteStrings
  import opened GitPaths
  import opened TreeMeaning
  import opened OwnedProjection
  import opened ObjectStore
  import opened Snapshot
  import opened StoredObjects
  import opened ObjectGraph
  import opened Flatten
  import opened RawTree
  import opened Violations

  const MAX_MAPPINGS: nat := 100_000

  // ----- lists of mappings

  predicate UnderBootstrap(m: Mapping) {
    BOOTSTRAP_PREFIX + ['/'] <= m.source
  }

  /** `[m for m in ms if under == m.source.startswith(prefix + "/")]`. */
  function Select(ms: seq<Mapping>, under: bool): seq<Mapping> {
    if ms == [] then []
    else
      var last := ms[|ms| - 1];
      Select(ms[..|ms| - 1], under) + (if UnderBootstrap(last) == under then [last] else [])
  }

  lemma {:induction false} SelectMembers(ms: seq<Mapping>, under: bool, m: Mapping)
    ensures m in Select(ms, under) <==> m in ms && UnderBootstrap(m) == under
  {
    hide UnderBootstrap;
    if ms != [] {
      var init, last := ms[..|ms| - 1], ms[|ms| - 1];
      SelectMembers(init, under, m);
      assert m in ms <==> m in init || m == last by {
        assert ms == init + [last];
      }
    }
  }

  /** The order of `sorted(..., key=(filtered, source))`. */
  predicate KeyLe(a: Mapping, b: Mapping) {
    if a.filtered == b.filtered then LexLe(a.source, b.source) else LexLe(a.filtered, b.filtered)
  }

  /** `declared == sorted(mappings)`: the same mappings, in key order. */
  predicate SortedForm(declared: seq<Mapping>, mappings: seq<Mapping>) {
    && multiset(declared) == multiset(mappings)
    && forall i, j :: 0 <= i < j < |declared| ==> KeyLe(declared[i], declared[j])
  }

  lemma KeyLeOrder(a: Mapping, b: Mapping, c: Mapping)
    ensures KeyLe(a, b) || KeyLe(b, a)
    ensures KeyLe(a, b) && KeyLe(b, c) ==> KeyLe(a, c)
    ensures KeyLe(a, b) && KeyLe(b, a) ==> a.filtered == b.filtered && a.source == b.source
  {
    hide LexLe;
    LexLeTotal(a.source, b.source);
    LexLeTotal(a.filtered, b.filtered);
    if KeyLe(a, b) && KeyLe(b, a) {
      if a.filtered == b.filtered { LexLeAntisymmetric(a.source, b.source); }
      else { LexLeAntisymmetric(a.filtered, b.filtered); }
    }
    if KeyLe(a, b) && KeyLe(b, c) {
      if a.filtered == b.filtered == c.filtered {
        LexLeTransitive(a.source, b.source, c.source);
      } else if a.filtered != b.filtered && b.filtered != c.filtered {
        LexLeTransitive(a.filtered, b.filtered, c.filtered);
        if a.filtered == c.filtered { LexLeAntisymmetric(a.filtered, b.filtered); }
      }
    }
  }

  /** `sorted(mappings, key=(filtered, source))`, by insertion. */
  method SortMappings(ms: seq<Mapping>) returns (r: seq<Mapping>)
    ensures SortedForm(r, ms)
  {
    hide KeyLe;
    r := [];
    for i := 0 to |ms|
      invariant SortedForm(r, ms[..i])
    {
      var k := 0;
      while k < |r| && KeyLe(r[k], ms[i])
        invariant 0 <= k <= |r| && forall j :: 0 <= j < k ==> KeyLe(r[j], ms[i])
      {
        k := k + 1;
      }
      InsertMapping(r, k, ms[i], ms[..i]);
      r := r[..k] + [ms[i]] + r[k..];
      assert ms[..i + 1] == ms[..i] + [ms[i]];
    }
    assert ms[..|ms|] == ms;
  }

  lemma InsertMapping(r: seq<Mapping>, k: nat, m: Mapping, ms: seq<Mapping>)
    requires SortedForm(r, ms) && k <= |r|
    requires forall j :: 0 <= j < k ==> KeyLe(r[j], m)
    requires k < |r| ==> !KeyLe(r[k], m)
    ensures SortedForm(r[..k] + [m] + r[k..], ms + [m])
  {
    hide KeyLe;
    assert r == r[..k] + r[k..];
    forall i, j | 0 <= i < j < |r| + 1 ensures KeyLe(Grown(r, k, m, i), Grown(r, k, m, j)) {
      if i == k {
        KeyLeOrder(m, r[k], r[j - 1]);
      }
    }
    assert forall i :: 0 <= i < |r| + 1 ==> (r[..k] + [m] + r[k..])[i] == Grown(r, k, m, i);
  }

  /** The list with `m` put in before position `k`, element by element. */
  function Grown(r: seq<Mapping>, k: nat, m: Mapping, i: nat): Mapping
    requires k <= |r| && i <= |r|
  {
    if i < k then r[i] else if i == k then m else r[i - 1]
  }

  ghost predicate SourcesIdentify(ms: seq<Mapping>) {
    forall x, y :: x in ms && y in ms && x.source == y.source ==> x == y
  }

  lemma SameHead(a: seq<Mapping>, b: seq<Mapping>, ms: seq<Mapping>)
    requires SortedForm(a, ms) && SortedForm(b, ms) && SourcesIdentify(ms) && a != []
    ensures b != [] && a[0] == b[0]
  {
    hide KeyLe;
    SortedFormMembers(a, ms);
    SortedFormMembers(b, ms);
    assert a[0] in b && b[0] in a;
    KeyLeOrder(a[0], b[0], a[0]);
    KeyLeOrder(a[0], a[0], a[0]);
  }

  lemma TailForms(a: seq<Mapping>, b: seq<Mapping>, ms: seq<Mapping>)
    requires SortedForm(a, ms) && SortedForm(b, ms) && a != [] && b != [] && a[0] == b[0]
    ensures SortedForm(a[1..], a[1..]) && SortedForm(b[1..], a[1..])
  {
    hide KeyLe;
    TailMultiset(a);
    TailMultiset(b);
  }

  lemma TailMultiset(a: seq<Mapping>)
    requires a != []
    ensures multiset(a[1..]) == multiset(a) - multiset{a[0]}
  {
    assert a == [a[0]] + a[1..];
  }

  lemma {:induction false} SortedFormUnique(a: seq<Mapping>, b: seq<Mapping>, ms: seq<Mapping>)
    requires SortedForm(a, ms) && SortedForm(b, ms) && SourcesIdentify(ms)
    ensures a == b
    decreases |a|
  {
    hide KeyLe, SortedForm;
    if a == [] {
      assert multiset(b) == multiset(a) by { SortedFormSize(a, b, ms); }
    } else {
      SameHead(a, b, ms);
      TailForms(a, b, ms);
      SortedFormMembers(a, ms);
      assert SourcesIdentify(a[1..]) by { assert forall x :: x in a[1..] ==> x in a; }
      SortedFormUnique(a[1..], b[1..], a[1..]);
      assert a == [a[0]] + a[1..] && b == [b[0]] + b[1..];
    }
  }

  lemma SortedFormSize(a: seq<Mapping>, b: seq<Mapping>, ms: seq<Mapping>)
    requires SortedForm(a, ms) && SortedForm(b, ms)
    ensures multiset(a) == multiset(b) && |a| == |b|
  {
    assert |multiset(a)| == |a| && |multiset(b)| == |b|;
  }

  lemma SortedFormMembers(declared: seq<Mapping>, mappings: seq<Mapping>)
    requires SortedForm(declared, mappings)
    ensures forall m :: m in declared <==> m in mappings
  {
    hide KeyLe;
    forall m ensures m in declared <==> m in mappings {
      assert m in declared <==> m in multiset(declared);
      assert m in mappings <==> m in multiset(mappings);
    }
  }

  /** Writing mappings into a leaf map, later ones last. */
  function Apply(base: map<Bytes, Leaf>, ms: seq<Mapping>): map<Bytes, Leaf> {
    if ms == [] then base
    else
      var last := ms[|ms| - 1];
      Apply(base, ms[..|ms| - 1])[last.filtered := last.leaf]
  }

  // ----- validate_owned_projection_inventory

  datatype Inventory = Inventory(r0: Bytes, required: seq<Rule>, future: seq<Rule>, templates: seq<Rule>,
                                 mappings: seq<Mapping>, complete: bool)

  ghost function DerivedMappings(leaves: map<Bytes, Leaf>, c: Contract): seq<Mapping>
    requires Derivable(leaves, c)
  {
    MappingsOf(Candidates(leaves, TemplateTable(c.templates), RulesOf(c)))
  }

  function BootstrapPairs(ms: seq<Mapping>): set<Rule> {
    set m | m in ms && UnderBootstrap(m) :: Rule(m.source, m.filtered)
  }

  predicate InventoryBinds(inv: Inventory, c: Contract, r0: Bytes) {
    inv.r0 == r0 && inv.required == c.required && inv.future == c.future && inv.templates == c.templates
  }

  predicate TemplatesComplete(inv: Inventory, c: Contract) {
    inv.complete && BootstrapPairs(inv.mappings) == (set t | t in c.templates)
  }

  ghost predicate AcceptedInventory(inv: Inventory, leaves: map<Bytes, Leaf>, c: Contract, r0: Bytes) {
    && InventoryBinds(inv, c, r0)
    && Derivable(leaves, c) && SortedForm(inv.mappings, DerivedMappings(leaves, c))
    && TemplatesComplete(inv, c)
  }

  method ValidateInventory(inv: Inventory, leaves: map<Bytes, Leaf>, c: Contract, r0: Bytes, violations: ViolationList)
    modifies violations
    ensures old(violations.items) <= violations.items
    ensures violations.items == old(violations.items) <==> AcceptedInventory(inv, leaves, c, r0)
  {
    hide InventoryBinds, Derivable, SortedForm, TemplatesComplete, Candidates, TemplateTable, RulesOf, MappingsOf;
    if !InventoryBinds(inv, c, r0) {
      violations.Append(InventoryDrift);
    }
    var derived := Derive(leaves, c, violations);
    if !SortedForm(inv.mappings, derived) {
      violations.Append(InventoryDrift);
    }
    if !TemplatesComplete(inv, c) {
      violations.Append(TemplateInventoryIncomplete);
    }
  }

  // ----- validate_tree_projection_proof

  datatype TreeProjection = TreeProjection(r0: Bytes, filteredRef: Bytes, sourceTree: Bytes, snapshotRoot: Bytes,
                                           snapshot: seq<ObjectRecord>, mappings: seq<Mapping>)

  /** Safe paths, one-to-one, with the identity both trees record. */
  ghost predicate FaithfulMappings(ms: seq<Mapping>, source: map<Bytes, Leaf>, filtered: map<Bytes, Leaf>) {
    && (forall i :: 0 <= i < |ms| ==> FaithfulMapping(ms[i], source, filtered))
    && (forall i, j :: 0 <= i < j < |ms| ==> ms[i].source != ms[j].source && ms[i].filtered != ms[j].filtered)
  }

  predicate FaithfulMapping(m: Mapping, source: map<Bytes, Leaf>, filtered: map<Bytes, Leaf>) {
    && SafeGitPath(m.source) && SafeGitPath(m.filtered)
    && m.source in source && source[m.source] == m.leaf
    && m.filtered in filtered && filtered[m.filtered] == m.leaf
  }

  ghost function Targets(ms: seq<Mapping>): set<Bytes> {
    set m | m in ms :: m.filtered
  }

  ghost function Sources(ms: seq<Mapping>): set<Bytes> {
    set m | m in ms :: m.source
  }

  lemma FaithfulGrows(ms: seq<Mapping>, i: nat, source: map<Bytes, Leaf>, filtered: map<Bytes, Leaf>)
    requires i < |ms|
    ensures Sources([]) == {} && Targets([]) == {} && FaithfulMappings([], source, filtered)
    ensures Sources(ms[..i + 1]) == Sources(ms[..i]) + {ms[i].source}
    ensures Targets(ms[..i + 1]) == Targets(ms[..i]) + {ms[i].filtered}
    ensures FaithfulMappings(ms[..i + 1], source, filtered) <==>
      && FaithfulMappings(ms[..i], source, filtered) && FaithfulMapping(ms[i], source, filtered)
      && ms[i].source !in Sources(ms[..i]) && ms[i].filtered !in Targets(ms[..i])
  {
    hide FaithfulMapping;
    var init, upto := ms[..i], ms[..i + 1];
    assert upto == init + [ms[i]];
    assert forall k :: 0 <= k < i ==> init[k] == upto[k] && init[k] in init;
    assert upto[i] == ms[i];
    if FaithfulMappings(upto, source, filtered) {
      forall k | 0 <= k < i ensures init[k].source != ms[i].source && init[k].filtered != ms[i].filtered {
        assert upto[k].source != upto[i].source && upto[k].filtered != upto[i].filtered;
      }
    }
    if ms[i].source !in Sources(init) && ms[i].filtered !in Targets(init) && FaithfulMappings(init, source, filtered)
       && FaithfulMapping(ms[i], source, filtered)
    {
      forall a, b | 0 <= a < b < |upto| ensures upto[a].source != upto[b].source && upto[a].filtered != upto[b].filtered {
        if b == i {
          assert init[a] in init;
        }
      }
    }
  }

  /** The loop over the declared path mappings. */
  method CheckMappings(ms: seq<Mapping>, source: map<Bytes, Leaf>, filtered: map<Bytes, Leaf>, violations: ViolationList)
    modifies violations
    ensures old(violations.items) <= violations.items
    ensures violations.items == old(violations.items) <==>
      FaithfulMappings(ms, source, filtered) && Targets(ms) == filtered.Keys
  {
    hide Sources, Targets, FaithfulMappings, SafeGitPath;
    var mappedSource: set<Bytes>, mappedFiltered: set<Bytes> := {}, {};
    assert ms[..0] == [];
    NoMappings(source, filtered);
    for i := 0 to |ms|
      invariant old(violations.items) <= violations.items
      invariant violations.items == old(violations.items) <==> FaithfulMappings(ms[..i], source, filtered)
      invariant violations.items == old(violations.items) ==>
        mappedSource == Sources(ms[..i]) && mappedFiltered == Targets(ms[..i])
    {
      var m := ms[i];
      FaithfulGrows(ms, i, source, filtered);
      if !SafeGitPath(m.source) || !SafeGitPath(m.filtered) {
        violations.Append(UnsafeMapping);
        continue;
      }
      if m.source in mappedSource || m.filtered in mappedFiltered {
        violations.Append(RepeatedMapping);
      }
      mappedSource, mappedFiltered := mappedSource + {m.source}, mappedFiltered + {m.filtered};
      if m.source !in source || source[m.source] != m.leaf {
        violations.Append(NotInSource);
      }
      if m.filtered !in filtered || filtered[m.filtered] != m.leaf {
        violations.Append(RewrittenInFiltered);
      }
    }
    assert ms[..|ms|] == ms;
    if mappedFiltered != filtered.Keys {
      violations.Append(ProjectionNotCovering);
    }
  }

  lemma NoMappings(source: map<Bytes, Leaf>, filtered: map<Bytes, Leaf>)
    ensures Sources([]) == {} && Targets([]) == {} && FaithfulMappings([], source, filtered)
  {
  }

  lemma {:induction false} ApplyKeys(base: map<Bytes, Leaf>, ms: seq<Mapping>)
    ensures Apply(base, ms).Keys == base.Keys + Targets(ms)
  {
    if ms != [] {
      var init, last := ms[..|ms| - 1], ms[|ms| - 1];
      ApplyKeys(base, init);
      assert ms == init + [last];
    }
  }

  lemma {:induction false} ApplyDistinct(base: map<Bytes, Leaf>, ms: seq<Mapping>, i: nat)
    requires i < |ms|
    requires forall i, j :: 0 <= i < j < |ms| ==> ms[i].filtered != ms[j].filtered
    ensures ms[i].filtered in Apply(base, ms) && Apply(base, ms)[ms[i].filtered] == ms[i].leaf
  {
    var n := |ms| - 1;
    if i < n {
      assert forall k :: 0 <= k < n ==> ms[..n][k] == ms[k];
      ApplyDistinct(base, ms[..n], i);
    }
  }

  /** A faithful, covering list of mappings is the filtered tree itself. */
  lemma CoveringIsApply(ms: seq<Mapping>, source: map<Bytes, Leaf>, filtered: map<Bytes, Leaf>)
    requires FaithfulMappings(ms, source, filtered) && Targets(ms) == filtered.Keys
    ensures filtered == Apply(map[], ms)
  {
    hide SafeGitPath, Apply;
    ApplyKeys(map[], ms);
    forall p | p in filtered ensures Apply(map[], ms)[p] == filtered[p] {
      var m :| m in ms && m.filtered == p;
      var i :| 0 <= i < |ms| && ms[i] == m;
      ApplyDistinct(map[], ms, i);
      assert FaithfulMapping(ms[i], source, filtered);
    }
  }

  ghost predicate AcceptedProjection(sha1: Digest, proof: TreeProjection, r0: Bytes, filteredRef: Bytes, filteredTree: Bytes,
                                     sourceTree: Bytes, source: map<Bytes, Leaf>)
  {
    && proof.r0 == r0 && proof.filteredRef == filteredRef && proof.sourceTree == sourceTree
    && AcceptedSnapshot(sha1, proof.snapshotRoot, filteredTree, proof.snapshot)
    && 1 <= |proof.mappings| <= MAX_MAPPINGS
    && Means(TreesOf(StoreOf(proof.snapshot)), filteredTree, Apply(map[], proof.mappings))
    && FaithfulMappings(proof.mappings, source, Apply(map[], proof.mappings))
  }

  lemma ProjectionFacts(sha1: Digest, proof: TreeProjection, r0: Bytes, filteredRef: Bytes, filteredTree: Bytes,
                        sourceTree: Bytes, source: map<Bytes, Leaf>, filtered: map<Bytes, Leaf>)
    requires AcceptedSnapshot(sha1, proof.snapshotRoot, filteredTree, proof.snapshot)
    requires Means(TreesOf(StoreOf(proof.snapshot)), filteredTree, filtered)
    ensures AcceptedProjection(sha1, proof, r0, filteredRef, filteredTree, sourceTree, source) <==>
      && proof.r0 == r0 && proof.filteredRef == filteredRef && proof.sourceTree == sourceTree
      && 1 <= |proof.mappings| <= MAX_MAPPINGS
      && FaithfulMappings(proof.mappings, source, filtered) && Targets(proof.mappings) == filtered.Keys
  {
    hide AcceptedSnapshot, Means, FaithfulMappings, Apply, TreesOf, StoreOf, Targets, NamedTrees, MAX_MAPPINGS;
    NamedSnapshot(sha1, proof.snapshotRoot, filteredTree, proof.snapshot);
    var ms, trees := proof.mappings, TreesOf(StoreOf(proof.snapshot));
    if FaithfulMappings(ms, source, filtered) && Targets(ms) == filtered.Keys {
      CoveringIsApply(ms, source, filtered);
    }
    if Means(trees, filteredTree, Apply(map[], ms)) {
      MeansUnique(trees, filteredTree, filtered, Apply(map[], ms));
      ApplyKeys(map[], ms);
    }
  }

  lemma NamedSnapshot(sha1: Digest, root: Bytes, expected: Bytes, records: seq<ObjectRecord>)
    requires AcceptedSnapshot(sha1, root, expected, records)
    ensures NamedTrees(TreesOf(StoreOf(records)))
  {
    hide *;
    AcceptedSnapshotFacts(sha1, root, expected, records);
  }

  /** `validate_tree_projection_proof`, without an expected list. */
  method ValidateTreeProjection(sha1: Digest, proof: TreeProjection, r0: Bytes, filteredRef: Bytes, filteredTree: Bytes,
                                sourceTree: Bytes, source: map<Bytes, Leaf>, violations: ViolationList)
    modifies violations
    ensures old(violations.items) <= violations.items
    ensures violations.items == old(violations.items) <==>
      AcceptedProjection(sha1, proof, r0, filteredRef, filteredTree, sourceTree, source)
  {
    hide *;
    ProjectionNeeds(sha1, proof, r0, filteredRef, filteredTree, sourceTree, source);
    if proof.r0 != r0 || proof.filteredRef != filteredRef {
      violations.Append(WrongProjectionRefs);
    }
    if proof.sourceTree != sourceTree {
      violations.Append(WrongSourceTree);
    }
    var filtered := ValidateSnapshot(sha1, proof.snapshotRoot, filteredTree, proof.snapshot, violations);
    if violations.items == old(violations.items) {
      SnapshotRoot(sha1, proof.snapshotRoot, filteredTree, proof.snapshot);
      ProjectionFacts(sha1, proof, r0, filteredRef, filteredTree, sourceTree, source, filtered);
    }
    var ms := proof.mappings;
    if !(1 <= |ms| <= MAX_MAPPINGS) {
      violations.Append(InvalidMappingCount);
      ms := [];
    }
    CheckMappings(ms, source, filtered, violations);
  }

  lemma SnapshotRoot(sha1: Digest, root: Bytes, expected: Bytes, records: seq<ObjectRecord>)
    requires AcceptedSnapshot(sha1, root, expected, records)
    ensures root == expected
  {
  }

  lemma ProjectionNeeds(sha1: Digest, proof: TreeProjection, r0: Bytes, filteredRef: Bytes, filteredTree: Bytes,
                        sourceTree: Bytes, source: map<Bytes, Leaf>)
    ensures AcceptedProjection(sha1, proof, r0, filteredRef, filteredTree, sourceTree, source) ==>
      && proof.r0 == r0 && proof.filteredRef == filteredRef && proof.sourceTree == sourceTree
      && AcceptedSnapshot(sha1, proof.snapshotRoot, filteredTree, proof.snapshot)
  {
  }

  // ----- validate_bootstrap_projection_proof

  datatype Generated = Generated(path: Bytes, leaf: Leaf)

  datatype Bootstrap = Bootstrap(filteredRef: Bytes, r1Ref: Bytes, filteredTree: Bytes, r1Tree: Bytes,
                                 templates: seq<Mapping>, generated: seq<Generated>)

  const ROOT_LOCK: Bytes := "Cargo.lock"
  const CONSUMER_LOCK: Bytes := "contracts/rterm-consumer/Cargo.lock"

  /** `commits.get(ref, {}).get("tree")`; an absent tree is no full ID. */
  function TreeOfCommit(objects: map<Bytes, Node>, r: Bytes): Bytes {
    if r in objects && objects[r].CommitNode? then objects[r].tree else []
  }

  function TreesIn(objects: map<Bytes, Node>): Trees {
    map o | o in objects && objects[o].TreeNode? :: objects[o].entries
  }

  predicate ClosedBlob(objects: map<Bytes, Node>, g: Generated) {
    && g.leaf.mode == "100644" && g.leaf.kind == BlobKind
    && g.leaf.oid in objects && objects[g.leaf.oid].BlobNode?
  }

  /** Exactly the two lockfiles, in order, each a blob of the repository. */
  ghost predicate TwoLockfiles(objects: map<Bytes, Node>, gs: seq<Generated>) {
    && |gs| == 2 && gs[0].path == ROOT_LOCK && gs[1].path == CONSUMER_LOCK
    && ClosedBlob(objects, gs[0]) && ClosedBlob(objects, gs[1])
  }

  /** The leaf map the first commit must have. */
  function ExpectedR1(filtered: map<Bytes, Leaf>, templates: seq<Mapping>, gs: seq<Generated>): map<Bytes, Leaf> {
    Write(Apply(filtered, templates), gs)
  }

  function Write(base: map<Bytes, Leaf>, gs: seq<Generated>): map<Bytes, Leaf> {
    if gs == [] then base
    else Write(base, gs[..|gs| - 1])[gs[|gs| - 1].path := gs[|gs| - 1].leaf]
  }

  ghost predicate Flattens(trees: Trees, root: Bytes, leaves: map<Bytes, Leaf>) {
    Flattenable(trees, root) && Means(trees, root, leaves)
  }

  ghost predicate BootstrapBinds(proof: Bootstrap, expected: seq<Mapping>, objects: map<Bytes, Node>, filteredRef: Bytes, r1Ref: Bytes) {
    && proof.filteredRef == filteredRef && proof.r1Ref == r1Ref
    && proof.filteredTree == TreeOfCommit(objects, filteredRef) && proof.r1Tree == TreeOfCommit(objects, r1Ref)
    && proof.templates == expected
  }

  /** The first commit is the filtered tree, the templates over it and the two lockfiles added. */
  ghost predicate BootstrapExact(proof: Bootstrap, expected: seq<Mapping>, objects: map<Bytes, Node>,
                                 filtered: map<Bytes, Leaf>, r1: map<Bytes, Leaf>)
  {
    && TwoLockfiles(objects, proof.generated)
    && ROOT_LOCK !in filtered && CONSUMER_LOCK !in filtered
    && r1 == ExpectedR1(filtered, expected, proof.generated)
  }

  ghost predicate AcceptedBootstrap(proof: Bootstrap, expected: seq<Mapping>, objects: map<Bytes, Node>, filteredRef: Bytes, r1Ref: Bytes) {
    && BootstrapBinds(proof, expected, objects, filteredRef, r1Ref)
    && exists filtered, r1 ::
        && Flattens(TreesIn(objects), TreeOfCommit(objects, filteredRef), filtered)
        && Flattens(TreesIn(objects), TreeOfCommit(objects, r1Ref), r1)
        && BootstrapExact(proof, expected, objects, filtered, r1)
  }

  method CheckBootstrapBinds(proof: Bootstrap, expected: seq<Mapping>, objects: map<Bytes, Node>, filteredRef: Bytes, r1Ref: Bytes,
                             violations: ViolationList)
    modifies violations
    ensures old(violations.items) <= violations.items
    ensures violations.items == old(violations.items) <==> BootstrapBinds(proof, expected, objects, filteredRef, r1Ref)
  {
    hide TreeOfCommit;
    if proof.filteredRef != filteredRef || proof.r1Ref != r1Ref {
      violations.Append(WrongBootstrapRefs);
    }
    if proof.filteredTree != TreeOfCommit(objects, filteredRef) {
      violations.Append(WrongFilteredTree);
    }
    if proof.r1Tree != TreeOfCommit(objects, r1Ref) {
      violations.Append(WrongR1Tree);
    }
    if proof.templates != expected {
      violations.Append(WrongTemplates);
    }
  }

  /** The tests on the generated files; returns those that pass. */
  method CheckGenerated(gs: seq<Generated>, objects: map<Bytes, Node>, violations: ViolationList) returns (valid: seq<Generated>)
    modifies violations
    ensures old(violations.items) <= violations.items
    ensures violations.items == old(violations.items) <==> TwoLockfiles(objects, gs)
    ensures violations.items == old(violations.items) ==> valid == gs
  {
    hide ROOT_LOCK, CONSUMER_LOCK, ClosedBlob;
    valid := [];
    if |gs| != 2 {
      violations.Append(WrongGeneratedCount);
      return;
    }
    for i := 0 to 2
      invariant |valid| <= i
      invariant old(violations.items) <= violations.items
      invariant violations.items == old(violations.items) ==> valid == gs[..i]
      invariant violations.items == old(violations.items) <==>
        forall k :: 0 <= k < i ==> gs[k].path in {ROOT_LOCK, CONSUMER_LOCK} && ClosedBlob(objects, gs[k])
    {
      if gs[i].path !in {ROOT_LOCK, CONSUMER_LOCK} || !ClosedBlob(objects, gs[i]) {
        violations.Append(InvalidGenerated);
        continue;
      }
      valid := valid + [gs[i]];
    }
    assert gs[..2] == gs;
    if |valid| != 2 || valid[0].path != ROOT_LOCK || valid[1].path != CONSUMER_LOCK {
      violations.Append(WrongGeneratedPaths);
    }
  }

  /** The comparison of the first commit's leaves with what it must hold. */
  method CheckProduct(r1: map<Bytes, Leaf>, filtered: map<Bytes, Leaf>, expected: seq<Mapping>, valid: seq<Generated>,
                      violations: ViolationList)
    modifies violations
    ensures old(violations.items) <= violations.items
    ensures violations.items == old(violations.items) <==>
      && (forall i :: 0 <= i < |valid| ==> valid[i].path !in filtered)
      && r1 == ExpectedR1(filtered, expected, valid)
  {
    var product := Apply(filtered, expected);
    for i := 0 to |valid|
      invariant old(violations.items) <= violations.items
      invariant violations.items == old(violations.items) <==> forall k :: 0 <= k < i ==> valid[k].path !in filtered
      invariant product == Write(Apply(filtered, expected), valid[..i])
    {
      assert valid[..i + 1][..i] == valid[..i] && valid[..i + 1][i] == valid[i];
      if valid[i].path in filtered {
        violations.Append(GeneratedAlreadyThere);
      }
      product := product[valid[i].path := valid[i].leaf];
    }
    assert valid[..|valid|] == valid;
    if r1 != product {
      violations.Append(R1NotExact);
    }
  }

  /** `validate_bootstrap_projection_proof`. */
  method ValidateBootstrap(proof: Bootstrap, expected: seq<Mapping>, objects: map<Bytes, Node>, filteredRef: Bytes, r1Ref: Bytes,
                           violations: ViolationList)
    modifies violations
    ensures old(violations.items) <= violations.items
    ensures NamedTrees(TreesIn(objects)) ==>
      (violations.items == old(violations.items) <==> AcceptedBootstrap(proof, expected, objects, filteredRef, r1Ref))
  {
    hide *;
    var trees := TreesIn(objects);
    ghost var named := NamedTrees(trees);
    if named && AcceptedBootstrap(proof, expected, objects, filteredRef, r1Ref) {
      BootstrapNeeds(proof, expected, objects, filteredRef, r1Ref);
    }
    CheckBootstrapBinds(proof, expected, objects, filteredRef, r1Ref, violations);
    var filtered := FlattenTree(TreeOfCommit(objects, filteredRef), trees, violations);
    var r1 := FlattenTree(TreeOfCommit(objects, r1Ref), trees, violations);
    var valid := CheckGenerated(proof.generated, objects, violations);
    if named && violations.items == old(violations.items) {
      BootstrapDecides(proof, expected, objects, filteredRef, r1Ref, filtered, r1);
    }
    CheckProduct(r1, filtered, expected, valid, violations);
  }

  lemma BootstrapNeeds(proof: Bootstrap, expected: seq<Mapping>, objects: map<Bytes, Node>, filteredRef: Bytes, r1Ref: Bytes)
    requires AcceptedBootstrap(proof, expected, objects, filteredRef, r1Ref)
    ensures BootstrapBinds(proof, expected, objects, filteredRef, r1Ref)
    ensures Flattenable(TreesIn(objects), TreeOfCommit(objects, filteredRef))
    ensures Flattenable(TreesIn(objects), TreeOfCommit(objects, r1Ref))
    ensures TwoLockfiles(objects, proof.generated)
  {
    hide BootstrapBinds, Flattenable, Means, TwoLockfiles, ExpectedR1;
  }

  lemma BootstrapDecides(proof: Bootstrap, expected: seq<Mapping>, objects: map<Bytes, Node>, filteredRef: Bytes, r1Ref: Bytes,
                         filtered: map<Bytes, Leaf>, r1: map<Bytes, Leaf>)
    requires NamedTrees(TreesIn(objects))
    requires BootstrapBinds(proof, expected, objects, filteredRef, r1Ref) && TwoLockfiles(objects, proof.generated)
    requires Flattenable(TreesIn(objects), TreeOfCommit(objects, filteredRef))
    requires Flattenable(TreesIn(objects), TreeOfCommit(objects, r1Ref))
    requires Means(TreesIn(objects), TreeOfCommit(objects, filteredRef), filtered)
    requires Means(TreesIn(objects), TreeOfCommit(objects, r1Ref), r1)
    ensures AcceptedBootstrap(proof, expected, objects, filteredRef, r1Ref) <==>
      && (forall i :: 0 <= i < |proof.generated| ==> proof.generated[i].path !in filtered)
      && r1 == ExpectedR1(filtered, expected, proof.generated)
  {
    hide BootstrapBinds, NamedTrees, Flattenable, Means, ExpectedR1, ClosedBlob, ROOT_LOCK, CONSUMER_LOCK, TreeOfCommit, TreesIn;
    var trees, ft, rt := TreesIn(objects), TreeOfCommit(objects, filteredRef), TreeOfCommit(objects, r1Ref);
    var gs := proof.generated;
    assert (forall i :: 0 <= i < |gs| ==> gs[i].path !in filtered) <==> ROOT_LOCK !in filtered && CONSUMER_LOCK !in filtered by {
      assert gs[0].path == ROOT_LOCK && gs[1].path == CONSUMER_LOCK;
    }
    assert Flattens(trees, ft, filtered) && Flattens(trees, rt, r1);
    if AcceptedBootstrap(proof, expected, objects, filteredRef, r1Ref) {
      var f, r :| Flattens(trees, ft, f) && Flattens(trees, rt, r) && BootstrapExact(proof, expected, objects, f, r);
      MeansUnique(trees, ft, filtered, f);
      MeansUnique(trees, rt, r1, r);
    }
  }
}
