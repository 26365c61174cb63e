/** Validating one repository of a proof, and why the producer's proofs pass. */
module RepositoryProof {
  import opened ByteStrings
  import opened RawTree
  import opened ObjectGraph
  import opened StoredObjects
  import opened ObjectStore
  import opened Base64
  import opened Producer
  import opened ClosureAgreement
  import opened Violations
  import opened Results

  predicate AllFullShas(ids: seq<Bytes>) {
    forall i :: 0 <= i < |ids| ==> FullSha(ids[i])
  }

  /** `ids == sorted(set(ids))`. */
  predicate SortedUnique(ids: seq<Bytes>) {
    Ascending(ids) && forall i, j :: 0 <= i < j < |ids| ==> ids[i] != ids[j]
  }

  function SetOf(ids: seq<Bytes>): set<Bytes> {
    set x | x in ids
  }

  predicate GoodBoundaries(refs: seq<Bytes>, boundaries: seq<Bytes>) {
    SortedUnique(boundaries) && AllFullShas(boundaries) && SetOf(boundaries) <= SetOf(refs)
  }

  predicate GoodInventory(records: seq<ObjectRecord>) {
    1 <= |records| <= MAX_INVENTORY && Ascending(Oids(records))
  }

  /** Everything the checker asks of one repository's refs, boundaries and objects.  `declared` are
      the refs the proof gives, and `refs` the certified ones, both in the order of the ref names. */
  ghost predicate AcceptedRepository(sha1: Digest, records: seq<ObjectRecord>, declared: seq<Bytes>, refs: seq<Bytes>, boundaries: seq<Bytes>) {
    && declared == refs && AllFullShas(refs)
    && GoodBoundaries(refs, boundaries)
    && GoodInventory(records)
    && Ingestible(sha1, records, MAX_GIT_CLOSURE_TOTAL_BYTES)
    && ExactClosure(GraphOf(StoreOf(records), refs, SetOf(boundaries)))
  }

  /** The tests on refs, boundaries and inventory; a bad list is replaced by an empty one. */
  method CheckShape(records: seq<ObjectRecord>, declared: seq<Bytes>, refs: seq<Bytes>, boundaries: seq<Bytes>, violations: ViolationList)
      returns (kept: seq<Bytes>, supplied: seq<ObjectRecord>)
    modifies violations
    ensures old(violations.items) <= violations.items
    ensures violations.items == old(violations.items) <==>
      declared == refs && AllFullShas(refs) && GoodBoundaries(refs, boundaries) && GoodInventory(records)
    ensures violations.items == old(violations.items) ==> kept == boundaries && supplied == records
  {
    hide AllFullShas, GoodBoundaries, Ascending;
    kept, supplied := boundaries, records;
    if declared != refs || !AllFullShas(declared) {
      violations.Append(InvalidRefs);
    }
    if !GoodBoundaries(refs, boundaries) {
      violations.Append(InvalidBoundaries);
      kept := [];
    }
    if !(1 <= |records| <= MAX_INVENTORY) {
      violations.Append(InvalidInventorySize);
      supplied := [];
    } else if !Ascending(Oids(records)) {
      violations.Append(UnsortedInventory);
    }
  }

  /** The body of the loop over repositories in `validate_git_object_store_proof`. */
  method CheckRepository(sha1: Digest, records: seq<ObjectRecord>, declared: seq<Bytes>, refs: seq<Bytes>, boundaries: seq<Bytes>,
                         violations: ViolationList)
      returns (graph: Option<Graph>)
    modifies violations
    ensures old(violations.items) <= violations.items
    ensures violations.items == old(violations.items) <==> AcceptedRepository(sha1, records, declared, refs, boundaries)
    ensures violations.items == old(violations.items) ==>
      graph == Some(GraphOf(StoreOf(records), refs, SetOf(boundaries)))
  {
    hide *;
    AcceptedFacts(sha1, records, declared, refs, boundaries);
    var kept, supplied := CheckShape(records, declared, refs, boundaries, violations);
    var stopped, objects, nodes := Ingest(sha1, supplied, violations);
    if stopped {
      return None;
    }
    var g := Graph(nodes, refs, SetOf(kept));
    var reachable := CheckClosure(g, violations);
    return Some(g);
  }

  lemma AcceptedFacts(sha1: Digest, records: seq<ObjectRecord>, declared: seq<Bytes>, refs: seq<Bytes>, boundaries: seq<Bytes>)
    ensures AcceptedRepository(sha1, records, declared, refs, boundaries) <==>
      && declared == refs && AllFullShas(refs) && GoodBoundaries(refs, boundaries) && GoodInventory(records)
      && Ingestible(sha1, records, MAX_GIT_CLOSURE_TOTAL_BYTES) && ExactClosure(GraphOf(StoreOf(records), refs, SetOf(boundaries)))
    ensures GraphOf(StoreOf(records), refs, SetOf(boundaries)) == Graph(Nodes(StoreOf(records)), refs, SetOf(boundaries))
  {
  }

  // ----- the producer's own proofs

  /** `records` lists `objects` in ID order with base64 bodies, as `proof_repository` does. */
  ghost predicate Lists(records: seq<ObjectRecord>, objects: map<Bytes, Stored>) {
    && Ascending(Oids(records))
    && (forall i, j :: 0 <= i < j < |records| ==> records[i].oid != records[j].oid)
    && (forall i :: 0 <= i < |records| ==> records[i].oid in objects && Wraps(records[i], objects[records[i].oid]))
    && (forall o :: o in objects ==> exists i :: 0 <= i < |records| && records[i].oid == o)
  }

  ghost predicate Wraps(r: ObjectRecord, s: Stored) {
    r.kind == s.kind && Encodes64(r.body, s.raw)
  }

  /** Objects sit under the digest of their framed bytes. */
  ghost predicate ContentAddressed(sha1: Digest, repository: map<Bytes, Stored>) {
    forall o :: o in repository ==> AllBytes(repository[o].raw) && ObjectId(sha1, repository[o].kind, repository[o].raw) == o
  }

  lemma ListedStore(records: seq<ObjectRecord>, objects: map<Bytes, Stored>)
    requires Lists(records, objects)
    ensures StoreOf(records) == objects
  {
    hide StoreOf, RawOf, Encodes64, Ascending;
    StoreKeys(records);
    forall o | o in objects ensures o in StoreOf(records) && StoreOf(records)[o] == objects[o] {
      var i :| 0 <= i < |records| && records[i].oid == o;
      StoreEntry(records, i);
    }
    assert StoreOf(records).Keys == objects.Keys;
  }

  /** What the producer writes for a sound, content-addressed repository is
      accepted by the checker if and only if the whole closure fits its budgets. */
  lemma ProducedProofAccepted(sha1: Digest, repository: map<Bytes, Stored>, refs: seq<Bytes>, boundaries: seq<Bytes>,
                              records: seq<ObjectRecord>)
    requires SoundRepository(repository, refs, SetOf(boundaries)) && ContentAddressed(sha1, repository)
    requires AllFullShas(refs) && GoodBoundaries(refs, boundaries)
    requires Lists(records, Collected(repository, refs, SetOf(boundaries)))
    ensures AcceptedRepository(sha1, records, refs, refs, boundaries) <==> FitsLimits(records)
  {
    hide *;
    var bs := SetOf(boundaries);
    ListedFacts(records, Collected(repository, refs, bs));
    ListedStore(records, Collected(repository, refs, bs));
    BoundariesAreRefs(refs, boundaries);
    ProducedClosureAccepted(repository, refs, bs);
    ProducedRecords(sha1, repository, refs, bs, records);
    IngestibleFacts(sha1, records);
    AcceptedFacts(sha1, records, refs, refs, boundaries);
  }

  /** The checker's limits on count, bytes and tree entries. */
  ghost predicate FitsLimits(records: seq<ObjectRecord>) {
    && 1 <= |records| <= MAX_INVENTORY
    && BytesIn(records) <= MAX_GIT_CLOSURE_TOTAL_BYTES && EntriesIn(records) <= MAX_PARSED_TREE_ENTRIES
  }

  lemma ListedFacts(records: seq<ObjectRecord>, objects: map<Bytes, Stored>)
    requires Lists(records, objects)
    ensures GoodInventory(records) <==> 1 <= |records| <= MAX_INVENTORY
    ensures forall i, j :: 0 <= i < j < |records| ==> records[i].oid != records[j].oid
  {
    hide Ascending, Wraps;
  }

  lemma BoundariesAreRefs(refs: seq<Bytes>, boundaries: seq<Bytes>)
    requires GoodBoundaries(refs, boundaries)
    ensures forall b :: b in SetOf(boundaries) ==> b in refs
  {
    hide SortedUnique, AllFullShas;
    assert forall b :: b in SetOf(boundaries) ==> b in SetOf(refs);
  }

  lemma IngestibleFacts(sha1: Digest, records: seq<ObjectRecord>)
    requires forall i :: 0 <= i < |records| ==> GoodRecord(sha1, records[i])
    requires forall i, j :: 0 <= i < j < |records| ==> records[i].oid != records[j].oid
    ensures Ingestible(sha1, records, MAX_GIT_CLOSURE_TOTAL_BYTES) <==>
      BytesIn(records) <= MAX_GIT_CLOSURE_TOTAL_BYTES && EntriesIn(records) <= MAX_PARSED_TREE_ENTRIES
    ensures FitsLimits(records) <==>
      && 1 <= |records| <= MAX_INVENTORY
      && BytesIn(records) <= MAX_GIT_CLOSURE_TOTAL_BYTES && EntriesIn(records) <= MAX_PARSED_TREE_ENTRIES
  {
    hide GoodRecord, BytesIn, EntriesIn;
  }

  /** Each record written for a sound repository carries a well-formed object under its own ID. */
  lemma ProducedRecords(sha1: Digest, repository: map<Bytes, Stored>, refs: seq<Bytes>, bs: set<Bytes>, records: seq<ObjectRecord>)
    requires SoundRepository(repository, refs, bs) && ContentAddressed(sha1, repository)
    requires Lists(records, Collected(repository, refs, bs))
    ensures forall i :: 0 <= i < |records| ==> GoodRecord(sha1, records[i])
  {
    hide FullSha, Ascending, GoodRecord, RawOf, ObjectId, WellTyped, Demanded, Walked, WellFormedObject, Encodes64, AllFollowable;
    ClosuresAgree(repository, refs, bs);
    forall i | 0 <= i < |records| ensures GoodRecord(sha1, records[i]) {
      var r := records[i];
      var d := Demand(r.oid, repository[r.oid].kind);
      assert Walked(repository, refs, bs, d) && Demanded(GraphOf(repository, refs, bs), d);
      StepsAgree(repository, refs, bs, d);
      WrappedIsGood(sha1, r, repository[r.oid]);
    }
  }

  lemma WrappedIsGood(sha1: Digest, r: ObjectRecord, s: Stored)
    requires Wraps(r, s) && WellFormedObject(s) && FullSha(r.oid)
    requires |s.raw| <= MAX_GIT_OBJECT_BYTES && ObjectId(sha1, s.kind, s.raw) == r.oid
    ensures GoodRecord(sha1, r)
  {
    hide Encodes64;
  }
}
