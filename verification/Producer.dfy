/** The producer of object closures: its tree parser and the class that walks a repository. */
module Producer {
  import opened ByteStrings
  import opened CommitBody
  import opened RawTree
  import opened ObjectGraph
  import opened StoredObjects
  import opened Reachability
  import opened Results

  const MAX_OBJECT_BYTES := 16 * 1024 * 1024
  const MAX_OBJECT_COUNT := 65_536

  // ----- parse_tree

  datatype Record = Record(mode: Bytes, name: Bytes, oid: Bytes)

  function RecordOf(c: Cut): Record
    requires c.Cut?
  {
    Record(c.mode, c.name, Hex(c.id))
  }

  /** Like the checker's cut, except that an empty name is not malformed here. */
  function LooseCut(raw: Bytes, cursor: nat): (c: Cut)
    requires cursor < |raw|
    ensures c.Cut? ==> cursor < c.next <= |raw| && |c.id| == 20
  {
    var space := Find(raw, ' ', cursor);
    var nul := if space >= -1 then Find(raw, NUL, space + 1) else -1;
    if space <= cursor || nul < 0 || nul + 21 > |raw| then Malformed
    else Cut(raw[cursor..space], raw[space + 1..nul], raw[nul + 1..nul + 21], nul + 21)
  }

  /** The records from `cursor` on, or nothing where the parser raises. */
  function RecordsFrom(raw: Bytes, cursor: nat): Option<seq<Record>>
    requires cursor <= |raw|
    decreases |raw| - cursor
  {
    if cursor == |raw| then Some([])
    else
      var c := LooseCut(raw, cursor);
      if c.Malformed? || !Decodable(c) then None
      else
        Prepend([RecordOf(c)], RecordsFrom(raw, c.next))
  }

  lemma PrependSnoc(records: seq<Record>, x: Record, rest: Option<seq<Record>>)
    ensures Prepend(records, Prepend([x], rest)) == Prepend(records + [x], rest)
  {
    if rest.Some? {
      assert records + ([x] + rest.value) == records + [x] + rest.value;
    }
  }

  function Prepend(records: seq<Record>, rest: Option<seq<Record>>): Option<seq<Record>> {
    match rest
    case None => None
    case Some(more) => Some(records + more)
  }

  /** `parse_tree`. */
  method ParseTree(raw: Bytes) returns (r: Result<seq<Record>>)
    ensures r.Ok? <==> RecordsFrom(raw, 0).Some?
    ensures r.Ok? ==> RecordsFrom(raw, 0) == Some(r.value)
  {
    var records: seq<Record> := [];
    var cursor := 0;
    assert forall rest: seq<Record> :: records + rest == rest;
    while cursor < |raw|
      invariant cursor <= |raw|
      invariant RecordsFrom(raw, 0) == Prepend(records, RecordsFrom(raw, cursor))
      decreases |raw| - cursor
    {
      var c := LooseCut(raw, cursor);
      if c.Malformed? || !Decodable(c) {
        return Err;
      }
      PrependSnoc(records, RecordOf(c), RecordsFrom(raw, c.next));
      records := records + [RecordOf(c)];
      cursor := c.next;
    }
    assert records + [] == records;
    return Ok(records);
  }

  function RecordsOf(es: seq<Entry>): (rs: seq<Record>)
    ensures |rs| == |es|
  {
    seq(|es|, i requires 0 <= i < |es| => Record(es[i].mode, es[i].name, es[i].oid))
  }

  lemma LooseCutAgrees(raw: Bytes, cursor: nat, e: Entry)
    requires cursor < |raw| && CutEntry(raw, cursor).Cut?
    requires AdmissibleEntry(e) && EntryOf(CutEntry(raw, cursor)) == e
    ensures LooseCut(raw, cursor) == CutEntry(raw, cursor) && Decodable(CutEntry(raw, cursor))
    ensures RecordOf(CutEntry(raw, cursor)) == Record(e.mode, e.name, e.oid)
  {
  }

  lemma FirstRecord(raw: Bytes, cursor: nat, e: Entry, rest: Bytes)
    requires AdmissibleEntry(e) && cursor <= |raw| && raw[cursor..] == SerializeEntry(e) + rest
    ensures cursor < |raw| && CutEntry(raw, cursor).Cut?
    ensures raw[CutEntry(raw, cursor).next..] == rest
    ensures RecordsFrom(raw, cursor) ==
      Prepend([Record(e.mode, e.name, e.oid)], RecordsFrom(raw, CutEntry(raw, cursor).next))
  {
    HeadCut(raw, cursor, e, rest);
    LooseCutAgrees(raw, cursor, e);
  }

  /** On a tree the checker accepts, the producer reads the same modes, names and IDs. */
  lemma {:induction false} ParsersAgree(raw: Bytes, cursor: nat, es: seq<Entry>)
    requires Admissible(es) && cursor <= |raw| && raw[cursor..] == Serialize(es)
    ensures RecordsFrom(raw, cursor) == Some(RecordsOf(es))
    decreases |es|
  {
    hide Serialize, SerializeEntry, RecordsFrom, CutEntry, AdmissibleEntry, RecordsOf;
    AdmissibleFullIds(es);
    RecordsOfCons(es);
    if es == [] {
      NothingSerialized();
      NoRecords(raw);
    } else {
      SerializeHead(es);
      FirstRecord(raw, cursor, es[0], Serialize(es[1..]));
      ParsersAgree(raw, CutEntry(raw, cursor).next, es[1..]);
    }
  }

  lemma RecordsOfCons(es: seq<Entry>)
    ensures RecordsOf(es) == if es == [] then [] else [Record(es[0].mode, es[0].name, es[0].oid)] + RecordsOf(es[1..])
  {}

  lemma NoRecords(raw: Bytes)
    ensures RecordsFrom(raw, |raw|) == Some([])
  {}

  // ----- GitClosure

  /** The kind is taken from the mode at traversal time: everything but a directory is read as a blob. */
  function RecordDemands(records: seq<Record>): (ds: seq<Demand>)
    ensures |ds| == |records|
  {
    seq(|records|, i requires 0 <= i < |records| =>
      Demand(records[i].oid, if records[i].mode == "40000" then TreeKind else BlobKind))
  }

  /** What the walk pushes after reading an object, or nothing where it raises. */
  function WalkDemands(s: Stored, boundary: bool): Option<seq<Demand>> {
    match s.kind
    case CommitKind =>
      var lines := SplitLines(Header(s.raw));
      if !Ascii(Header(s.raw)) || !FullSha(SearchedTree(lines)) then None
      else Some([Demand(SearchedTree(lines), TreeKind)] + (if boundary then [] else CommitDemands(ParentsIn(lines))))
    case TreeKind =>
      (match RecordsFrom(s.raw, 0)
       case None => None
       case Some(records) => Some(RecordDemands(records)))
    case _ => Some([])
  }

  /** `git cat-file` finds the object under the asked kind, and it is not over-long. */
  predicate Fetchable(repository: map<Bytes, Stored>, d: Demand) {
    && FullSha(d.oid) && d.oid in repository
    && repository[d.oid].kind == d.kind && |repository[d.oid].raw| <= MAX_OBJECT_BYTES
  }

  predicate Followable(repository: map<Bytes, Stored>, boundaries: set<Bytes>, d: Demand) {
    Fetchable(repository, d) && WalkDemands(repository[d.oid], d.oid in boundaries).Some?
  }

  function WalkSuccessors(repository: map<Bytes, Stored>, boundaries: set<Bytes>, d: Demand): seq<Demand> {
    if Followable(repository, boundaries, d) then WalkDemands(repository[d.oid], d.oid in boundaries).value else []
  }

  ghost function WalkNext(repository: map<Bytes, Stored>, boundaries: set<Bytes>): Demand -> seq<Demand> {
    (d: Demand) => WalkSuccessors(repository, boundaries, d)
  }

  /** The walk asks for `d` at some point. */
  ghost predicate Walked(repository: map<Bytes, Stored>, refs: seq<Bytes>, boundaries: set<Bytes>, d: Demand) {
    Reachable(CommitDemands(refs), WalkNext(repository, boundaries), d)
  }

  ghost predicate AllFollowable(repository: map<Bytes, Stored>, refs: seq<Bytes>, boundaries: set<Bytes>) {
    forall d :: Walked(repository, refs, boundaries, d) ==> Followable(repository, boundaries, d)
  }

  /** The objects the walk asks for. */
  ghost function WalkedOids(repository: map<Bytes, Stored>, refs: seq<Bytes>, boundaries: set<Bytes>): set<Bytes> {
    set o | o in repository && Walked(repository, refs, boundaries, Demand(o, repository[o].kind))
  }

  ghost function OidsOf(ds: set<Demand>): set<Bytes> {
    set d | d in ds :: d.oid
  }

  ghost function Universe(repository: map<Bytes, Stored>): set<Demand> {
    set o | o in repository :: Demand(o, repository[o].kind)
  }

  lemma OidsGrow(ds: set<Demand>, d: Demand)
    ensures OidsOf({}) == {}
    ensures OidsOf(ds + {d}) == OidsOf(ds) + {d.oid}
  {
    assert d in ds + {d};
  }

  lemma FollowFacts(repository: map<Bytes, Stored>, refs: seq<Bytes>, boundaries: set<Bytes>, d: Demand)
    ensures Followable(repository, boundaries, d) <==>
      Fetchable(repository, d) && WalkDemands(repository[d.oid], d.oid in boundaries).Some?
    ensures Followable(repository, boundaries, d) ==>
      && d in Universe(repository)
      && WalkNext(repository, boundaries)(d) == WalkDemands(repository[d.oid], d.oid in boundaries).value
    ensures Reachable(CommitDemands(refs), WalkNext(repository, boundaries), d) && !Followable(repository, boundaries, d) ==>
      !AllFollowable(repository, refs, boundaries)
  {
  }

  /** What the walk has read when nothing is waiting. */
  lemma WalkEnds(repository: map<Bytes, Stored>, refs: seq<Bytes>, boundaries: set<Bytes>, seen: set<Demand>)
    requires Exploring(CommitDemands(refs), WalkNext(repository, boundaries), seen, [])
    requires forall d :: d in seen ==> Followable(repository, boundaries, d)
    ensures AllFollowable(repository, refs, boundaries)
    ensures OidsOf(seen) == WalkedOids(repository, refs, boundaries)
  {
    ExploreEnd(CommitDemands(refs), WalkNext(repository, boundaries), seen);
    forall o | o in repository && Walked(repository, refs, boundaries, Demand(o, repository[o].kind))
      ensures o in OidsOf(seen)
    {
      assert Demand(o, repository[o].kind) in seen;
    }
  }

  class GitClosure {
    /** What the repository on disk answers. */
    const repository: map<Bytes, Stored>
    var objects: map<Bytes, Stored>

    /** Collected objects are the repository's own. */
    ghost predicate Valid()
      reads this
    {
      forall o :: o in objects ==> Fetchable(repository, Demand(o, objects[o].kind)) && objects[o] == repository[o]
    }

    constructor (repository: map<Bytes, Stored>)
      ensures Valid() && this.repository == repository && objects == map[]
    {
      this.repository := repository;
      objects := map[];
    }

    /** `read_object`: the cached or fetched body, recording what was fetched. */
    method ReadObject(d: Demand) returns (r: Result<Bytes>)
      requires Valid()
      modifies this
      ensures Valid()
      ensures r.Ok? <==> Fetchable(repository, d)
      ensures r.Ok? ==> r.value == repository[d.oid].raw && objects == old(objects)[d.oid := repository[d.oid]]
      ensures r.Err? ==> objects == old(objects)
    {
      if !FullSha(d.oid) {
        return Err;
      }
      if d.oid in objects {
        if objects[d.oid].kind != d.kind {
          return Err;
        }
        return Ok(objects[d.oid].raw);
      }
      if d.oid !in repository || repository[d.oid].kind != d.kind {
        return Err;
      }
      var raw := repository[d.oid].raw;
      if |raw| > MAX_OBJECT_BYTES {
        return Err;
      }
      objects := objects[d.oid := Stored(d.kind, raw)];
      return Ok(raw);
    }

    /** Reading one object and listing what it asks for next. */
    method Expand(d: Demand, boundary: bool) returns (r: Result<seq<Demand>>)
      requires Valid()
      modifies this
      ensures Valid()
      ensures r.Ok? <==> Fetchable(repository, d) && WalkDemands(repository[d.oid], boundary).Some?
      ensures r.Ok? ==>
        && WalkDemands(repository[d.oid], boundary) == Some(r.value)
        && objects == old(objects)[d.oid := repository[d.oid]]
    {
      var body := ReadObject(d);
      if body.Err? {
        return Err;
      }
      var raw := body.value;
      match d.kind {
        case CommitKind =>
          if !Ascii(Header(raw)) {
            return Err;
          }
          var lines := SplitLines(Header(raw));
          var tree := SearchedTree(lines);
          if !FullSha(tree) {
            return Err;
          }
          var parents := if boundary then [] else CommitDemands(ParentsIn(lines));
          return Ok([Demand(tree, TreeKind)] + parents);
        case TreeKind =>
          var records := ParseTree(raw);
          if records.Err? {
            return Err;
          }
          return Ok(RecordDemands(records.value));
        case _ =>
          return Ok([]);
      }
    }

    /** The loop of `walk`. */
    method Collect(refs: seq<Bytes>, boundaries: set<Bytes>) returns (r: Result<()>, ghost seen: set<Demand>)
      requires Valid()
      modifies this
      ensures Valid()
      ensures r.Ok? ==>
        && Exploring(CommitDemands(refs), WalkNext(repository, boundaries), seen, [])
        && (forall d :: d in seen ==> Followable(repository, boundaries, d))
        && objects.Keys == old(objects.Keys) + OidsOf(seen)
      ensures r.Err? ==> !AllFollowable(repository, refs, boundaries)
    {
      hide *;
      ghost var roots, next := CommitDemands(refs), WalkNext(repository, boundaries);
      ghost var universe := Universe(repository);
      var pending := CommitDemands(refs);
      var visited: set<Demand> := {};
      ExploreStart(roots, next);
      OidsGrow({}, Demand([], BlobKind));
      while pending != []
        invariant Valid()
        invariant visited <= universe
        invariant Exploring(roots, next, visited, pending)
        invariant forall d :: d in visited ==> Followable(repository, boundaries, d)
        invariant objects.Keys == old(objects.Keys) + OidsOf(visited)
        decreases universe - visited, |pending|
      {
        var d := pending[|pending| - 1];
        ghost var waiting := pending;
        pending := pending[..|pending| - 1];
        assert waiting == pending + [d];
        ExploreDrop(roots, next, visited, pending, d);
        if d in visited {
          continue;
        }
        FollowFacts(repository, refs, boundaries, d);
        var pushed := Expand(d, d.oid in boundaries);
        if pushed.Err? {
          return Err, visited;
        }
        ExploreVisit(roots, next, visited, pending, d, pushed.value);
        OidsGrow(visited, d);
        visited := visited + {d};
        pending := pending + pushed.value;
      }
      return Ok(()), visited;
    }

    /** `walk`: collects exactly the objects the walk asks for, provided each can be followed. */
    method Walk(refs: seq<Bytes>, boundaries: set<Bytes>) returns (r: Result<()>)
      requires Valid()
      modifies this
      ensures Valid()
      ensures r.Ok? <==> AllFollowable(repository, refs, boundaries) && |objects| <= MAX_OBJECT_COUNT
      ensures AllFollowable(repository, refs, boundaries) ==>
        objects.Keys == old(objects.Keys) + WalkedOids(repository, refs, boundaries)
    {
      hide *;
      ghost var seen;
      r, seen := Collect(refs, boundaries);
      if r.Err? {
        return;
      }
      WalkEnds(repository, refs, boundaries, seen);
      if |objects| > MAX_OBJECT_COUNT {
        return Err;
      }
    }
  }
}
