/** The producer's walk and the checker's traversal reach the same objects,
    and what the producer collects is what the checker accepts. */
module ClosureAgreement {
  import opened ByteStrings
  import opened CommitBody
  import opened RawTree
  import opened ObjectGraph
  import opened StoredObjects
  import opened Producer
  import opened Reachability
  import opened Results

  /** Demanded objects are present with the demanded kind, parse, hold no
      gitlink and are not over-long; keys are object IDs. */
  ghost predicate SoundRepository(repository: map<Bytes, Stored>, refs: seq<Bytes>, boundaries: set<Bytes>) {
    var g := GraphOf(repository, refs, boundaries);
    && WellTyped(g)
    && (forall o :: o in repository ==> FullSha(o))
    && (forall d :: Demanded(g, d) ==>
          WellFormedObject(repository[d.oid]) && |repository[d.oid].raw| <= MAX_OBJECT_BYTES)
  }

  lemma {:induction false} EntryDemandsAgree(es: seq<Entry>)
    requires Admissible(es) && NoGitlinks(es)
    ensures RecordDemands(RecordsOf(es)) == EntryDemands(es)
  {
    if es != [] {
      var init, last := es[..|es| - 1], es[|es| - 1];
      EntryDemandsAgree(init);
      assert AdmissibleEntry(last) && last.mode != GITLINK;
      assert RecordDemands(RecordsOf(es)) == RecordDemands(RecordsOf(init)) + [Demand(last.oid, last.kind)];
    }
  }

  /** On a well-formed, gitlink-free object both sides follow the same references in the same order. */
  lemma SameDemands(s: Stored, boundary: bool)
    requires WellFormedObject(s) && Readable(NodeOf(s))
    ensures WalkDemands(s, boundary) == Some(DemandsOf(NodeOf(s), boundary))
  {
    match s.kind {
      case CommitKind =>
        SameTree(s.raw);
      case TreeKind =>
        var es := TreeOf(s.raw);
        assert s.raw[0..] == s.raw;
        ParsersAgree(s.raw, 0, es);
        EntryDemandsAgree(es);
      case _ =>
    }
  }

  lemma StepsAgree(repository: map<Bytes, Stored>, refs: seq<Bytes>, boundaries: set<Bytes>, d: Demand)
    requires SoundRepository(repository, refs, boundaries)
    requires Demanded(GraphOf(repository, refs, boundaries), d)
    ensures Followable(repository, boundaries, d)
    ensures WalkNext(repository, boundaries)(d) == Next(GraphOf(repository, refs, boundaries))(d)
    ensures d.oid in repository && d.kind == repository[d.oid].kind
  {
    var g := GraphOf(repository, refs, boundaries);
    assert Satisfied(g, d);
    var s := repository[d.oid];
    assert g.objects[d.oid] == NodeOf(s) && KindOf(NodeOf(s)) == s.kind;
    SameDemands(s, d.oid in boundaries);
  }

  /** Whatever the two traversals remember, they reach the same demands, so the
      producer collects exactly what the checker will look for. */
  lemma ClosuresAgree(repository: map<Bytes, Stored>, refs: seq<Bytes>, boundaries: set<Bytes>)
    requires SoundRepository(repository, refs, boundaries)
    ensures forall d :: Walked(repository, refs, boundaries, d) <==> Demanded(GraphOf(repository, refs, boundaries), d)
    ensures AllFollowable(repository, refs, boundaries)
  {
    var g := GraphOf(repository, refs, boundaries);
    forall d | Demanded(g, d)
      ensures Followable(repository, boundaries, d) && Next(g)(d) == WalkNext(repository, boundaries)(d)
    {
      StepsAgree(repository, refs, boundaries, d);
    }
    SameReach(CommitDemands(refs), Next(g), WalkNext(repository, boundaries));
  }

  ghost function Collected(repository: map<Bytes, Stored>, refs: seq<Bytes>, boundaries: set<Bytes>): map<Bytes, Stored> {
    map o | o in WalkedOids(repository, refs, boundaries) :: repository[o]
  }

  lemma CollectedSteps(repository: map<Bytes, Stored>, refs: seq<Bytes>, boundaries: set<Bytes>, d: Demand)
    requires SoundRepository(repository, refs, boundaries)
    requires Demanded(GraphOf(repository, refs, boundaries), d)
    ensures var c := GraphOf(Collected(repository, refs, boundaries), refs, boundaries);
      && d.oid in c.objects
      && c.objects[d.oid] == GraphOf(repository, refs, boundaries).objects[d.oid]
      && Next(c)(d) == Next(GraphOf(repository, refs, boundaries))(d)
  {
    ClosuresAgree(repository, refs, boundaries);
    StepsAgree(repository, refs, boundaries, d);
    assert d.oid in WalkedOids(repository, refs, boundaries);
  }

  /** What the producer collects from a sound repository passes the checker's closure test. */
  lemma ProducedClosureAccepted(repository: map<Bytes, Stored>, refs: seq<Bytes>, boundaries: set<Bytes>)
    requires SoundRepository(repository, refs, boundaries)
    requires forall b :: b in boundaries ==> b in refs
    ensures ExactClosure(GraphOf(Collected(repository, refs, boundaries), refs, boundaries))
  {
    var g, c := GraphOf(repository, refs, boundaries), GraphOf(Collected(repository, refs, boundaries), refs, boundaries);
    var roots := CommitDemands(refs);
    forall d | Demanded(g, d) ensures d.oid in c.objects && c.objects[d.oid] == g.objects[d.oid] && Next(g)(d) == Next(c)(d) {
      CollectedSteps(repository, refs, boundaries, d);
    }
    SameReach(roots, Next(g), Next(c));
    assert WellTyped(c) by {
      forall d | Demanded(c, d) ensures Satisfied(c, d) {
        assert Demanded(g, d) && Satisfied(g, d);
      }
    }
    ClosuresAgree(repository, refs, boundaries);
    forall o | o in c.objects ensures Demanded(c, Demand(o, KindOf(c.objects[o]))) {
      var d := Demand(o, repository[o].kind);
      assert Demanded(g, d) && Demanded(c, d);
    }
    forall b | b in boundaries ensures b in c.objects {
      RootIsDemanded(g, b);
    }
  }

  lemma RootIsDemanded(g: Graph, r: Bytes)
    requires r in g.refs
    ensures Demanded(g, Demand(r, CommitKind))
  {
    var i :| 0 <= i < |g.refs| && g.refs[i] == r;
    assert CommitDemands(g.refs)[i] == Demand(r, CommitKind);
    RootReachable(CommitDemands(g.refs), Next(g), Demand(r, CommitKind));
  }
}
