/** One repository of an object-store proof: decoding, authenticating and
    parsing the supplied objects under byte and entry budgets, then the closure test. */
module ObjectStore {
  import opened ByteStrings
  import opened RawTree
  import opened CommitBody
  import opened ObjectGraph
  import opened StoredObjects
  import opened Base64
  import opened Violations
  import opened Results

  const MAX_GIT_OBJECT_BYTES: nat := 16 * 1024 * 1024
  const MAX_GIT_OBJECT_BASE64_CHARS: nat := 4 * ((MAX_GIT_OBJECT_BYTES + 2) / 3)
  const MAX_GIT_CLOSURE_TOTAL_BYTES: nat := 192 * 1024 * 1024
  const MAX_INVENTORY: nat := 65_536

  /** A supplied object; the body is base64. */
  datatype ObjectRecord = ObjectRecord(oid: Bytes, kind: Kind, body: Bytes)

  // ----- what an acceptable inventory is

  /** The record holds `raw`, within the size limit, under its own object ID. */
  ghost predicate Carries(sha1: Digest, r: ObjectRecord, raw: Bytes) {
    && FullSha(r.oid) && r.kind != InvalidKind
    && Encodes64(r.body, raw) && |raw| <= MAX_GIT_OBJECT_BYTES
    && ObjectId(sha1, r.kind, raw) == r.oid
  }

  ghost function RawOf(r: ObjectRecord): (raw: Bytes)
    ensures forall b :: Encodes64(r.body, b) ==> raw == b
  {
    if exists b :: Encodes64(r.body, b) then
      var b :| Encodes64(r.body, b);
      assert forall c :: Encodes64(r.body, c) ==> c == b by {
        forall c | Encodes64(r.body, c) ensures c == b { EncodeInjective(c, b); }
      }
      b
    else []
  }

  ghost function StoredOf(r: ObjectRecord): Stored {
    Stored(r.kind, RawOf(r))
  }

  ghost predicate GoodRecord(sha1: Digest, r: ObjectRecord) {
    Carries(sha1, r, RawOf(r)) && WellFormedObject(StoredOf(r))
  }

  ghost function EntryCount(r: ObjectRecord): nat {
    if r.kind == TreeKind then |TreeOf(RawOf(r))| else 0
  }

  ghost function BytesIn(records: seq<ObjectRecord>): nat {
    if records == [] then 0 else BytesIn(records[..|records| - 1]) + |RawOf(records[|records| - 1])|
  }

  ghost function EntriesIn(records: seq<ObjectRecord>): nat {
    if records == [] then 0 else EntriesIn(records[..|records| - 1]) + EntryCount(records[|records| - 1])
  }

  ghost function StoreOf(records: seq<ObjectRecord>): map<Bytes, Stored> {
    if records == [] then map[]
    else StoreOf(records[..|records| - 1])[records[|records| - 1].oid := StoredOf(records[|records| - 1])]
  }

  function Oids(records: seq<ObjectRecord>): (ids: seq<Bytes>)
    ensures |ids| == |records|
  {
    seq(|records|, i requires 0 <= i < |records| => records[i].oid)
  }

  /** Every record is good and no ID is supplied twice. */
  ghost predicate AllGood(sha1: Digest, records: seq<ObjectRecord>) {
    && (forall i :: 0 <= i < |records| ==> GoodRecord(sha1, records[i]))
    && (forall i, j :: 0 <= i < j < |records| ==> records[i].oid != records[j].oid)
  }

  ghost predicate Ingestible(sha1: Digest, records: seq<ObjectRecord>, maxBytes: nat) {
    && AllGood(sha1, records)
    && BytesIn(records) <= maxBytes
    && EntriesIn(records) <= MAX_PARSED_TREE_ENTRIES
  }

  // ----- decoding and parsing one record

  lemma CanonicalSize(raw: Bytes)
    requires AllBytes(raw) && |raw| <= MAX_GIT_OBJECT_BYTES
    ensures |Encode(raw)| <= MAX_GIT_OBJECT_BASE64_CHARS
  {
    hide MAX_GIT_OBJECT_BYTES, Encode;
    EncodedSizeGrows(|raw|, MAX_GIT_OBJECT_BYTES);
  }

  lemma EncodedSizeGrows(a: nat, b: nat)
    requires a <= b
    ensures (a + 2) / 3 * 4 <= 4 * ((b + 2) / 3)
  {}

  /** `decode_git_object_record`: the raw body, which may come with a violation
      when only the digest is wrong. */
  method DecodeRecord(sha1: Digest, r: ObjectRecord, violations: ViolationList) returns (raw: Option<Bytes>)
    modifies violations
    ensures old(violations.items) <= violations.items
    ensures violations.items == old(violations.items) <==> Carries(sha1, r, RawOf(r))
    ensures raw.None? ==> violations.items != old(violations.items)
    ensures raw.Some? ==> FullSha(r.oid) && r.kind != InvalidKind && Encodes64(r.body, raw.value) && RawOf(r) == raw.value
  {
    hide Encode, Decode, Framed, ObjectId;
    if !FullSha(r.oid) {
      violations.Append(InvalidObjectId);
    }
    if r.kind == InvalidKind {
      violations.Append(InvalidObjectKind);
    }
    if !FullSha(r.oid) || r.kind == InvalidKind {
      return None;
    }
    if Encodes64(r.body, RawOf(r)) && |RawOf(r)| <= MAX_GIT_OBJECT_BYTES { CanonicalSize(RawOf(r)); }
    raw := DecodeCanonical(r.body, MAX_GIT_OBJECT_BYTES, MAX_GIT_OBJECT_BASE64_CHARS, violations);
    if raw.None? {
      return;
    }
    if ObjectId(sha1, r.kind, raw.value) != r.oid {
      violations.Append(ObjectIdMismatch);
    }
  }

  ghost predicate Parses(s: Stored, used: nat) {
    && WellFormedObject(s)
    && (s.kind == TreeKind ==> used + |TreeOf(s.raw)| <= MAX_PARSED_TREE_ENTRIES)
  }

  /** Filing an authenticated object under its kind. */
  method ParseObject(s: Stored, violations: ViolationList, budget: EntryBudget) returns (node: Node)
    requires s.kind != InvalidKind && AllBytes(s.raw)
    modifies violations, budget
    ensures old(violations.items) <= violations.items
    ensures violations.items == old(violations.items) <==> Parses(s, old(budget.entries))
    ensures violations.items == old(violations.items) ==>
      && node == NodeOf(s) && budget.exceeded == old(budget.exceeded)
      && budget.entries == old(budget.entries) + (if s.kind == TreeKind then |TreeOf(s.raw)| else 0)
    ensures old(budget.entries) <= MAX_PARSED_TREE_ENTRIES ==> budget.entries <= MAX_PARSED_TREE_ENTRIES
  {
    hide Canonical, WellFormedCommit, Serialize, HeaderLines, ParentsIn, FirstLineTree;
    match s.kind {
      case CommitKind =>
        var parents, tree := ParseCommitBody(s.raw, violations);
        node := CommitNode(parents, tree);
      case TreeKind =>
        var entries := ParseRawTree(s.raw, violations, budget);
        node := TreeNode(entries);
        forall es | Encodes(s.raw, es) ensures TreeOf(s.raw) == es { TreeOfUnique(s.raw, es); }
      case BlobKind =>
        node := BlobNode;
    }
  }

  // ----- the ingest loop

  /** The accumulators after `records`, none of which drew a violation. */
  ghost predicate Ingested(sha1: Digest, records: seq<ObjectRecord>, objects: map<Bytes, Stored>, nodes: map<Bytes, Node>,
                           total: int, entries: nat)
  {
    && AllGood(sha1, records)
    && objects == StoreOf(records) && nodes == Nodes(objects)
    && total == BytesIn(records) && entries == EntriesIn(records)
  }

  lemma IngestNone(sha1: Digest)
    ensures Ingested(sha1, [], map[], map[], 0, 0)
  {
  }

  lemma {:induction false} StoreKeys(records: seq<ObjectRecord>)
    ensures forall o :: o in StoreOf(records) <==> exists i :: 0 <= i < |records| && records[i].oid == o
  {
    hide StoredOf;
    if records != [] {
      var n := |records| - 1;
      StoreKeys(records[..n]);
      forall o ensures o in StoreOf(records) <==> exists i :: 0 <= i < |records| && records[i].oid == o {
        if o in StoreOf(records[..n]) {
          var i :| 0 <= i < n && records[..n][i].oid == o;
          assert records[i].oid == o;
        }
        if exists i :: 0 <= i < |records| && records[i].oid == o {
          var i :| 0 <= i < |records| && records[i].oid == o;
          assert i < n ==> records[..n][i].oid == o;
        }
      }
    }
  }

  lemma {:induction false} StoreEntry(records: seq<ObjectRecord>, i: nat)
    requires i < |records|
    requires forall i, j :: 0 <= i < j < |records| ==> records[i].oid != records[j].oid
    ensures records[i].oid in StoreOf(records) && StoreOf(records)[records[i].oid] == StoredOf(records[i])
  {
    hide StoredOf;
    var n := |records| - 1;
    if i < n {
      var init := records[..n];
      assert forall k :: 0 <= k < n ==> init[k] == records[k];
      StoreEntry(init, i);
    }
  }

  lemma IngestOne(sha1: Digest, records: seq<ObjectRecord>, r: ObjectRecord, objects: map<Bytes, Stored>,
                  nodes: map<Bytes, Node>, total: int, entries: nat)
    requires Ingested(sha1, records, objects, nodes, total, entries)
    requires GoodRecord(sha1, r) && r.oid !in objects
    ensures Ingested(sha1, records + [r], objects[r.oid := StoredOf(r)], nodes[r.oid := NodeOf(StoredOf(r))],
                     total + |RawOf(r)|, entries + EntryCount(r))
  {
    hide GoodRecord, StoredOf, NodeOf, RawOf, EntryCount;
    var grown := records + [r];
    assert grown[..|records|] == records && grown[|records|] == r;
    StoreKeys(records);
  }

  lemma {:induction false} SumsGrow(records: seq<ObjectRecord>, i: nat)
    requires i <= |records|
    ensures BytesIn(records[..i]) <= BytesIn(records) && EntriesIn(records[..i]) <= EntriesIn(records)
    decreases |records|
  {
    hide RawOf, EntryCount;
    if i < |records| {
      var init := records[..|records| - 1];
      assert init[..i] == records[..i];
      SumsGrow(init, i);
    } else {
      assert records[..i] == records;
    }
  }

  /** An acceptable inventory passes each test at record `i`. */
  lemma NextIngestible(sha1: Digest, records: seq<ObjectRecord>, maxBytes: nat, i: nat, objects: map<Bytes, Stored>)
    requires Ingestible(sha1, records, maxBytes) && i < |records| && objects == StoreOf(records[..i])
    ensures GoodRecord(sha1, records[i]) && records[i].oid !in objects
    ensures BytesIn(records[..i]) + |RawOf(records[i])| <= maxBytes
    ensures EntriesIn(records[..i]) + EntryCount(records[i]) <= MAX_PARSED_TREE_ENTRIES
  {
    hide GoodRecord, RawOf, EntryCount, StoredOf;
    StoreKeys(records[..i]);
    SumsGrow(records, i + 1);
    assert records[..i + 1][..i] == records[..i] && records[..i + 1][i] == records[i];
    assert forall k :: 0 <= k < i ==> records[..i][k] == records[k];
  }

  lemma GoodRecordFacts(sha1: Digest, r: ObjectRecord)
    ensures GoodRecord(sha1, r) <==> Carries(sha1, r, RawOf(r)) && WellFormedObject(StoredOf(r))
    ensures StoredOf(r) == Stored(r.kind, RawOf(r))
    ensures Carries(sha1, r, RawOf(r)) ==> Encodes64(r.body, RawOf(r)) && AllBytes(RawOf(r))
    ensures forall used: nat :: used <= MAX_PARSED_TREE_ENTRIES ==>
      (Parses(StoredOf(r), used) <==> WellFormedObject(StoredOf(r)) && used + EntryCount(r) <= MAX_PARSED_TREE_ENTRIES)
    ensures EntryCount(r) == if r.kind == TreeKind then |TreeOf(RawOf(r))| else 0
  {
    hide WellFormedObject, RawOf, TreeOf, Encode;
  }

  lemma DeclaredForBody(body: Bytes, raw: Bytes)
    requires Encodes64(body, raw)
    ensures DeclaredLength(body) == Some(|raw|)
  {
    DeclaredLengthExact(raw);
  }

  lemma DeclaredNonNegative(body: Bytes)
    ensures DeclaredLength(body).Some? ==> DeclaredLength(body).value >= 0
  {
  }

  lemma EncodedBytes(body: Bytes, raw: Bytes)
    requires Encodes64(body, raw)
    ensures AllBytes(raw)
  {
  }

  lemma Limits()
    ensures 0 <= MAX_GIT_CLOSURE_TOTAL_BYTES && 0 <= MAX_PARSED_TREE_ENTRIES
  {
  }

  lemma IngestedFacts(sha1: Digest, records: seq<ObjectRecord>, objects: map<Bytes, Stored>, nodes: map<Bytes, Node>,
                      total: int, entries: nat, maxBytes: nat)
    requires Ingested(sha1, records, objects, nodes, total, entries)
    ensures objects == StoreOf(records) && nodes == Nodes(objects)
    ensures total == BytesIn(records) && entries == EntriesIn(records)
    ensures total <= maxBytes && entries <= MAX_PARSED_TREE_ENTRIES ==> Ingestible(sha1, records, maxBytes)
  {
  }

  /** The loop over the object inventory.  The running byte total never passes
      its limit, and a body that decodes always had a predicted length, so the
      total is never adjusted after decoding. */
  method Ingest(sha1: Digest, records: seq<ObjectRecord>, violations: ViolationList)
      returns (stopped: bool, objects: map<Bytes, Stored>, nodes: map<Bytes, Node>)
    modifies violations
    ensures old(violations.items) <= violations.items
    ensures stopped ==> violations.items != old(violations.items)
    ensures violations.items == old(violations.items) <==> Ingestible(sha1, records, MAX_GIT_CLOSURE_TOTAL_BYTES)
    ensures violations.items == old(violations.items) ==> objects == StoreOf(records) && nodes == Nodes(objects)
  {
    hide *;
    objects, nodes := map[], map[];
    var total := 0;
    var budget := new EntryBudget();
    IngestNone(sha1);
    Limits();
    assert records[..0] == [];
    for i := 0 to |records|
      invariant old(violations.items) <= violations.items
      invariant 0 <= total <= MAX_GIT_CLOSURE_TOTAL_BYTES && budget.entries <= MAX_PARSED_TREE_ENTRIES
      invariant fresh(budget) && !budget.exceeded
      invariant violations.items == old(violations.items) ==>
        Ingested(sha1, records[..i], objects, nodes, total, budget.entries)
      invariant Ingestible(sha1, records, MAX_GIT_CLOSURE_TOTAL_BYTES) ==> violations.items == old(violations.items)
    {
      var r := records[i];
      ghost var clean := violations.items == old(violations.items);
      ghost var objects0, nodes0, total0, entries0 := objects, nodes, total, budget.entries;
      assert records[..i + 1] == records[..i] + [r];
      GoodRecordFacts(sha1, r);
      if clean {
        IngestedFacts(sha1, records[..i], objects, nodes, total, budget.entries, MAX_GIT_CLOSURE_TOTAL_BYTES);
        if Ingestible(sha1, records, MAX_GIT_CLOSURE_TOTAL_BYTES) {
          NextIngestible(sha1, records, MAX_GIT_CLOSURE_TOTAL_BYTES, i, objects);
        }
        if GoodRecord(sha1, r) {
          DeclaredForBody(r.body, RawOf(r));
          if r.oid !in objects { IngestOne(sha1, records[..i], r, objects, nodes, total, budget.entries); }
        }
      }
      var declared := DeclaredLength(r.body);
      DeclaredNonNegative(r.body);
      if declared.Some? && total > MAX_GIT_CLOSURE_TOTAL_BYTES - declared.value {
        violations.Append(ClosureTooLarge);
        return true, map[], map[];
      }
      if declared.Some? {
        total := total + declared.value;
      }
      var raw := DecodeRecord(sha1, r, violations);
      if raw.None? {
        continue;
      }
      DeclaredForBody(r.body, raw.value);
      if declared.None? {
        assert false;
      }
      if r.oid in objects {
        violations.Append(DuplicateObjectId);
        continue;
      }
      EncodedBytes(r.body, raw.value);
      var s := Stored(r.kind, raw.value);
      objects := objects[r.oid := s];
      var node := ParseObject(s, violations, budget);
      nodes := nodes[r.oid := node];
      if budget.exceeded {
        return true, map[], map[];
      }
    }
    assert records[..|records|] == records;
    if violations.items == old(violations.items) {
      IngestedFacts(sha1, records, objects, nodes, total, budget.entries, MAX_GIT_CLOSURE_TOTAL_BYTES);
    }
    return false, objects, nodes;
  }
}
