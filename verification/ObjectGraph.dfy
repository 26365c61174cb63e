/** The checker's object graph: the reachability worklist and the ancestry search. */
module ObjectGraph {
  import opened ByteStrings
  import opened RawTree
  import opened Reachability
  import opened Violations

  /** A parsed object.  A commit without a readable tree line has a tree that is not a full ID. */
  datatype Node =
    | CommitNode(parents: seq<Bytes>, tree: Bytes)
    | TreeNode(entries: seq<Entry>)
    | BlobNode

  function KindOf(n: Node): Kind {
    match n
    case CommitNode(_, _) => CommitKind
    case TreeNode(_) => TreeKind
    case BlobNode => BlobKind
  }

  /** "This ID must be an object of this kind": an item of the worklist. */
  datatype Demand = Demand(oid: Bytes, kind: Kind)

  datatype Graph = Graph(objects: map<Bytes, Node>, refs: seq<Bytes>, boundaries: set<Bytes>)

  const GITLINK: Bytes := "160000"

  function CommitDemands(ids: seq<Bytes>): (ds: seq<Demand>)
    ensures |ds| == |ids|
  {
    seq(|ids|, i requires 0 <= i < |ids| => Demand(ids[i], CommitKind))
  }

  function EntryDemands(entries: seq<Entry>): seq<Demand> {
    if entries == [] then []
    else
      var last := entries[|entries| - 1];
      EntryDemands(entries[..|entries| - 1]) + (if last.mode == GITLINK then [] else [Demand(last.oid, last.kind)])
  }

  ghost predicate NoGitlinks(entries: seq<Entry>) {
    forall i :: 0 <= i < |entries| ==> entries[i].mode != GITLINK
  }

  /** The demands an object of the graph makes: commit to tree, commit to
      parents unless it is a history boundary, tree to entries. */
  function DemandsOf(n: Node, boundary: bool): seq<Demand> {
    match n
    case CommitNode(parents, tree) =>
      (if FullSha(tree) then [Demand(tree, TreeKind)] else []) + (if boundary then [] else CommitDemands(parents))
    case TreeNode(entries) => EntryDemands(entries)
    case BlobNode => []
  }

  function Successors(g: Graph, d: Demand): seq<Demand> {
    if d.oid in g.objects && KindOf(g.objects[d.oid]) == d.kind
    then DemandsOf(g.objects[d.oid], d.oid in g.boundaries)
    else []
  }

  ghost function Next(g: Graph): Demand -> seq<Demand> {
    (d: Demand) => Successors(g, d)
  }

  ghost predicate Demanded(g: Graph, d: Demand) {
    Reachable(CommitDemands(g.refs), Next(g), d)
  }

  ghost predicate Readable(n: Node) {
    (n.CommitNode? ==> FullSha(n.tree)) && (n.TreeNode? ==> NoGitlinks(n.entries))
  }

  /** The demanded object is there, has the kind its referrer expects, and can be followed. */
  ghost predicate Satisfied(g: Graph, d: Demand) {
    d.oid in g.objects && KindOf(g.objects[d.oid]) == d.kind && Readable(g.objects[d.oid])
  }

  ghost predicate WellTyped(g: Graph) {
    forall d :: Demanded(g, d) ==> Satisfied(g, d)
  }

  /** Every demanded object is supplied as demanded, and nothing else is supplied. */
  ghost predicate ExactClosure(g: Graph) {
    && WellTyped(g)
    && (forall o :: o in g.objects ==> Demanded(g, Demand(o, KindOf(g.objects[o]))))
    && (forall b :: b in g.boundaries ==> b in g.objects)
  }

  // ----- the worklist

  ghost predicate Met(g: Graph, reachable: set<Bytes>, d: Demand) {
    d.oid in reachable && d.oid in g.objects && KindOf(g.objects[d.oid]) == d.kind
  }

  /** Everything recorded or waiting is really demanded. */
  ghost predicate Justified(g: Graph, reachable: set<Bytes>, pending: seq<Demand>) {
    && (forall d :: d in pending ==> Demanded(g, d))
    && (forall o :: o in reachable ==> o in g.objects && Demanded(g, Demand(o, KindOf(g.objects[o]))))
  }

  /** Every demand of a root or of a recorded object is met or still waiting. */
  ghost predicate Covered(g: Graph, reachable: set<Bytes>, pending: seq<Demand>) {
    && (forall d :: d in CommitDemands(g.refs) ==> d in pending || Met(g, reachable, d))
    && (forall o :: o in reachable && o in g.objects ==> Readable(g.objects[o]))
    && (forall o, d :: o in reachable && o in g.objects && d in DemandsOf(g.objects[o], o in g.boundaries) ==>
          d in pending || Met(g, reachable, d))
  }

  lemma InitiallyCovered(g: Graph)
    ensures Justified(g, {}, CommitDemands(g.refs)) && Covered(g, {}, CommitDemands(g.refs))
  {
    forall d | d in CommitDemands(g.refs) ensures Demanded(g, d) {
      RootReachable(CommitDemands(g.refs), Next(g), d);
    }
  }

  lemma DropCovered(g: Graph, reachable: set<Bytes>, rest: seq<Demand>, d: Demand)
    requires Covered(g, reachable, rest + [d]) && Met(g, reachable, d)
    ensures Covered(g, reachable, rest)
  {
  }

  lemma DropJustified(g: Graph, reachable: set<Bytes>, rest: seq<Demand>, d: Demand)
    requires Justified(g, reachable, rest + [d])
    ensures Justified(g, reachable, rest) && Demanded(g, d)
  {
    assert d in rest + [d];
    assert forall x :: x in rest ==> x in rest + [d];
  }

  lemma VisitJustified(g: Graph, reachable: set<Bytes>, rest: seq<Demand>, d: Demand)
    requires d.oid in g.objects && KindOf(g.objects[d.oid]) == d.kind
    requires Justified(g, reachable, rest + [d])
    ensures Justified(g, reachable + {d.oid}, rest + DemandsOf(g.objects[d.oid], d.oid in g.boundaries))
  {
    var pushed := DemandsOf(g.objects[d.oid], d.oid in g.boundaries);
    assert d in rest + [d] && Demanded(g, d);
    assert Next(g)(d) == pushed;
    forall e | e in pushed ensures Demanded(g, e) {
      StepReachable(CommitDemands(g.refs), Next(g), d, e);
    }
    forall e | e in rest ensures Demanded(g, e) {
      assert e in rest + [d];
    }
  }

  lemma VisitCovered(g: Graph, reachable: set<Bytes>, rest: seq<Demand>, d: Demand)
    requires d.oid in g.objects && KindOf(g.objects[d.oid]) == d.kind && Readable(g.objects[d.oid])
    requires Covered(g, reachable, rest + [d])
    ensures Covered(g, reachable + {d.oid}, rest + DemandsOf(g.objects[d.oid], d.oid in g.boundaries))
  {
    var pushed, grown := DemandsOf(g.objects[d.oid], d.oid in g.boundaries), reachable + {d.oid};
    assert Met(g, grown, d);
    forall x | x in rest + [d] || Met(g, reachable, x) ensures x in rest + pushed || Met(g, grown, x) {
    }
    forall o, x | o in grown && o in g.objects && x in DemandsOf(g.objects[o], o in g.boundaries)
      ensures x in rest + pushed || Met(g, grown, x)
    {
      if o == d.oid {
        assert x in pushed;
      }
    }
  }

  /** With an empty worklist and full coverage, the recorded objects are all that is demanded. */
  lemma Exhausted(g: Graph, reachable: set<Bytes>)
    requires Covered(g, reachable, [])
    ensures forall d :: Demanded(g, d) ==> Met(g, reachable, d) && Satisfied(g, d)
  {
    var roots, next := CommitDemands(g.refs), Next(g);
    var met := set o | o in reachable && o in g.objects :: Demand(o, KindOf(g.objects[o]));
    assert forall d :: d in met <==> Met(g, reachable, d);
    assert Closed(roots, next, met);
    ClosedCovers(roots, next, met);
  }

  lemma EntryDemandsStep(entries: seq<Entry>, i: nat)
    requires i < |entries|
    ensures EntryDemands(entries[..i + 1]) == EntryDemands(entries[..i])
      + (if entries[i].mode == GITLINK then [] else [Demand(entries[i].oid, entries[i].kind)])
    ensures NoGitlinks(entries[..i + 1]) <==> NoGitlinks(entries[..i]) && entries[i].mode != GITLINK
  {
    hide GITLINK;
    var longer := entries[..i + 1];
    assert longer[..i] == entries[..i] && longer[i] == entries[i];
    if NoGitlinks(longer) {
      assert forall k :: 0 <= k < i ==> entries[..i][k] == longer[k];
    }
  }

  lemma NoEntries(entries: seq<Entry>)
    ensures EntryDemands(entries[..0]) == [] && NoGitlinks(entries[..0])
  {}

  method PushEntries(entries: seq<Entry>, pending: seq<Demand>, violations: ViolationList) returns (pending': seq<Demand>)
    modifies violations
    ensures old(violations.items) <= violations.items
    ensures violations.items == old(violations.items) <==> NoGitlinks(entries)
    ensures pending' == pending + EntryDemands(entries)
  {
    hide EntryDemands, NoGitlinks, GITLINK;
    pending' := pending;
    NoEntries(entries);
    for i := 0 to |entries|
      invariant old(violations.items) <= violations.items
      invariant violations.items == old(violations.items) <==> NoGitlinks(entries[..i])
      invariant pending' == pending + EntryDemands(entries[..i])
    {
      var entry := entries[i];
      EntryDemandsStep(entries, i);
      if entry.mode == GITLINK {
        violations.Append(GitlinkInClosure);
        continue;
      }
      pending' := pending' + [Demand(entry.oid, entry.kind)];
    }
    assert entries[..|entries|] == entries;
  }

  /** What visiting one object appends to the worklist. */
  method PushDemands(n: Node, boundary: bool, pending: seq<Demand>, violations: ViolationList) returns (pending': seq<Demand>)
    modifies violations
    ensures old(violations.items) <= violations.items
    ensures violations.items == old(violations.items) <==> Readable(n)
    ensures pending' == pending + DemandsOf(n, boundary)
  {
    pending' := pending;
    match n {
      case CommitNode(parents, tree) =>
        if FullSha(tree) {
          pending' := pending' + [Demand(tree, TreeKind)];
        } else {
          violations.Append(CommitWithoutTree);
        }
        if !boundary {
          pending' := pending' + CommitDemands(parents);
        }
      case TreeNode(entries) =>
        pending' := PushEntries(entries, pending, violations);
      case BlobNode =>
    }
  }

  /** What holds between two turns of the worklist; `clean` says that no violation was reported. */
  ghost predicate Traversing(g: Graph, reachable: set<Bytes>, pending: seq<Demand>, clean: bool) {
    && Justified(g, reachable, pending)
    && (clean ==> Covered(g, reachable, pending))
    && (WellTyped(g) ==> clean)
  }

  lemma TurnDropped(g: Graph, reachable: set<Bytes>, rest: seq<Demand>, d: Demand, clean: bool)
    requires Traversing(g, reachable, rest + [d], clean)
    ensures d.oid in reachable || !WellTyped(g) ==> Traversing(g, reachable, rest, clean && Met(g, reachable, d))
    ensures WellTyped(g) ==> Satisfied(g, d)
  {
    DropJustified(g, reachable, rest, d);
    if clean && Met(g, reachable, d) {
      DropCovered(g, reachable, rest, d);
    }
  }

  lemma TurnVisited(g: Graph, reachable: set<Bytes>, rest: seq<Demand>, d: Demand, clean: bool)
    requires d.oid in g.objects && KindOf(g.objects[d.oid]) == d.kind
    requires Traversing(g, reachable, rest + [d], clean)
    ensures Traversing(g, reachable + {d.oid}, rest + DemandsOf(g.objects[d.oid], d.oid in g.boundaries),
                       clean && Readable(g.objects[d.oid]))
  {
    DropJustified(g, reachable, rest, d);
    VisitJustified(g, reachable, rest, d);
    if clean && Readable(g.objects[d.oid]) {
      VisitCovered(g, reachable, rest, d);
    }
  }

  lemma TraversalStarts(g: Graph)
    ensures Traversing(g, {}, CommitDemands(g.refs), true)
  {
    hide Justified, Covered, WellTyped;
    InitiallyCovered(g);
  }

  /** The closure loop of `validate_git_object_store_proof`. */
  method Traverse(g: Graph, violations: ViolationList) returns (reachable: set<Bytes>)
    modifies violations
    ensures old(violations.items) <= violations.items
    ensures reachable <= g.objects.Keys
    ensures Traversing(g, reachable, [], violations.items == old(violations.items))
  {
    hide Traversing, WellTyped, Readable, DemandsOf, CommitDemands;
    reachable := {};
    var pending := CommitDemands(g.refs);
    TraversalStarts(g);
    while pending != []
      invariant old(violations.items) <= violations.items
      invariant reachable <= g.objects.Keys
      invariant Traversing(g, reachable, pending, violations.items == old(violations.items))
      decreases g.objects.Keys - reachable, |pending|
    {
      var d := pending[|pending| - 1];
      ghost var clean := violations.items == old(violations.items);
      ghost var waiting := pending;
      pending := pending[..|pending| - 1];
      assert waiting == pending + [d];
      TurnDropped(g, reachable, pending, d, clean);
      if d.oid in reachable {
        if KindOf(g.objects[d.oid]) != d.kind {
          violations.Append(KindMismatch);
        }
        continue;
      }
      if d.oid !in g.objects {
        violations.Append(MissingObject);
        continue;
      }
      if KindOf(g.objects[d.oid]) != d.kind {
        violations.Append(UnexpectedKind);
        continue;
      }
      TurnVisited(g, reachable, pending, d, clean);
      pending := PushDemands(g.objects[d.oid], d.oid in g.boundaries, pending, violations);
      reachable := reachable + {d.oid};
    }
  }

  /** The traversal and the set comparisons after it: it always ends, and it
      leaves no violation exactly when the supplied objects are the demanded
      closure, each of the demanded kind. */
  method CheckClosure(g: Graph, violations: ViolationList) returns (reachable: set<Bytes>)
    modifies violations
    ensures old(violations.items) <= violations.items
    ensures violations.items == old(violations.items) <==> ExactClosure(g)
    ensures violations.items == old(violations.items) ==> reachable == g.objects.Keys
  {
    reachable := Traverse(g, violations);
    if violations.items == old(violations.items) { Exhausted(g, reachable); }
    if g.objects.Keys != reachable {
      violations.Append(ClosureNotExact);
    }
    if !(g.boundaries <= reachable) {
      violations.Append(UnreachableBoundary);
    }
  }

  /** The objects of an exact closure are the least set that holds the refs and
      is closed under commit-to-tree, commit-to-parent and tree-to-entry edges. */
  lemma ExactClosureIsLeast(g: Graph, s: set<Bytes>)
    requires ExactClosure(g)
    requires forall r :: r in g.refs ==> r in s
    requires forall o, d :: o in s && o in g.objects && d in DemandsOf(g.objects[o], o in g.boundaries) ==> d.oid in s
    ensures g.objects.Keys <= s
  {
    var inside := set o | o in g.objects && o in s :: Demand(o, KindOf(g.objects[o]));
    var roots, next := CommitDemands(g.refs), Next(g);
    forall d | d in roots ensures d in inside {
      RootReachable(roots, next, d);
      assert Demanded(g, d) && Satisfied(g, d);
    }
    forall x, y | x in inside && y in next(x) ensures y in inside {
      assert Demanded(g, x);
      StepReachable(roots, next, x, y);
      assert Demanded(g, y) && Satisfied(g, y);
      assert y in DemandsOf(g.objects[x.oid], x.oid in g.boundaries);
    }
    ClosedCovers(roots, next, inside);
  }

  // ----- ancestry

  function ParentsOf(commits: map<Bytes, Node>, oid: Bytes): seq<Bytes> {
    if oid in commits && commits[oid].CommitNode? then commits[oid].parents else []
  }

  ghost function ParentNext(commits: map<Bytes, Node>): Bytes -> seq<Bytes> {
    (oid: Bytes) => ParentsOf(commits, oid)
  }

  lemma ParentFacts(commits: map<Bytes, Node>, oid: Bytes)
    ensures ParentNext(commits)(oid) == ParentsOf(commits, oid)
    ensures oid !in commits ==> ParentsOf(commits, oid) == []
  {
  }

  /** The search loop: true exactly when a chain of parents leads from descendant to ancestor. */
  method SearchAncestor(commits: map<Bytes, Node>, ancestor: Bytes, descendant: Bytes) returns (found: bool)
    ensures found <==> Reachable([descendant], ParentNext(commits), ancestor)
  {
    hide *;
    ghost var roots, next := [descendant], ParentNext(commits);
    var pending := [descendant];
    var seen: set<Bytes> := {};
    ExploreStart(roots, next);
    while pending != []
      invariant Exploring(roots, next, seen, pending)
      invariant ancestor !in seen
      decreases commits.Keys - seen, |pending|
    {
      var commit := pending[|pending| - 1];
      ghost var waiting := pending;
      pending := pending[..|pending| - 1];
      assert waiting == pending + [commit];
      ExploreDrop(roots, next, seen, pending, commit);
      if commit == ancestor {
        return true;
      }
      if commit in seen {
        continue;
      }
      ParentFacts(commits, commit);
      ExploreVisit(roots, next, seen, pending, commit, ParentsOf(commits, commit));
      seen := seen + {commit};
      pending := pending + ParentsOf(commits, commit);
    }
    ExploreEnd(roots, next, seen);
    return false;
  }

  /** `git_graph_is_ancestor`. */
  method IsAncestor(commits: map<Bytes, Node>, ancestor: Bytes, descendant: Bytes) returns (r: bool)
    ensures r <==>
      && FullSha(ancestor) && FullSha(descendant)
      && Reachable([descendant], ParentNext(commits), ancestor)
  {
    if !FullSha(ancestor) || !FullSha(descendant) {
      return false;
    }
    r := SearchAncestor(commits, ancestor, descendant);
  }
}
