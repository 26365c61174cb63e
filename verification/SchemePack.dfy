/** The binary colour-scheme pack: encoder, cursor-driven parser, and their round trip.

    `toml` is the TOML library's verdict on a record's contents. */
module SchemePack {
  import opened ByteStrings
  import opened Results

  // ----- little-endian integers

  function LittleEndian(n: nat, width: nat): (b: Bytes)
    ensures |b| == width && AllBytes(b)
  {
    if width == 0 then [] else [(n % 256) as char] + LittleEndian(n / 256, width - 1)
  }

  /** `from_le_bytes`. */
  function FromLittleEndian(b: Bytes): nat {
    if b == [] then 0 else b[0] as int + 256 * FromLittleEndian(b[1..])
  }

  function Pow256(width: nat): (p: nat)
    ensures p > 0
  {
    if width == 0 then 1 else 256 * Pow256(width - 1)
  }

  lemma {:induction false} IntegerReadsBack(n: nat, width: nat)
    requires n < Pow256(width)
    ensures FromLittleEndian(LittleEndian(n, width)) == n
  {
    if width > 0 {
      IntegerReadsBack(n / 256, width - 1);
      assert LittleEndian(n, width)[1..] == LittleEndian(n / 256, width - 1);
    }
  }

  lemma {:induction false} BytesReadBack(b: Bytes)
    requires AllBytes(b)
    ensures FromLittleEndian(b) < Pow256(|b|)
    ensures LittleEndian(FromLittleEndian(b), |b|) == b
  {
    if b != [] {
      BytesReadBack(b[1..]);
      var rest := FromLittleEndian(b[1..]);
      LowByte(b[0] as int, rest);
      assert b == [b[0]] + b[1..];
    }
  }

  lemma LowByte(low: nat, rest: nat)
    requires low < 256
    ensures (low + 256 * rest) % 256 == low && (low + 256 * rest) / 256 == rest
  {}

  lemma IntegerRanges()
    ensures Pow256(2) == 0x1_0000 && Pow256(4) == 0x1_0000_0000
  {
    assert Pow256(0) == 1 && Pow256(1) == 256;
    assert Pow256(2) == 256 * Pow256(1) && Pow256(3) == 256 * Pow256(2);
  }

  // ----- the format

  datatype Record = Record(name: Bytes, contents: Bytes)

  const PACK_MAGIC: Bytes := ['R', 'S', 'S', 'H', 'C', 'S', '1', NUL]

  function EncodeRecord(r: Record): Bytes {
    LittleEndian(|r.name|, 2) + LittleEndian(|r.contents|, 4) + r.name + r.contents
  }

  function EncodeRecords(rs: seq<Record>): Bytes {
    if rs == [] then [] else EncodeRecord(rs[0]) + EncodeRecords(rs[1..])
  }

  function EncodePack(rs: seq<Record>): Bytes {
    PACK_MAGIC + LittleEndian(|rs|, 4) + EncodeRecords(rs)
  }

  type Toml = Bytes -> bool

  /** What a record may hold: lengths within their fields, text, and TOML. */
  ghost predicate ValidRecord(r: Record, toml: Toml) {
    && |r.name| < 0x1_0000 && |r.contents| < 0x1_0000_0000
    && ValidUtf8(r.name) && ValidUtf8(r.contents) && toml(r.contents)
  }

  ghost predicate ValidRecords(rs: seq<Record>, toml: Toml) {
    forall i :: 0 <= i < |rs| ==> ValidRecord(rs[i], toml)
  }

  predicate DistinctNames(rs: seq<Record>) {
    forall i, j :: 0 <= i < j < |rs| ==> rs[i].name != rs[j].name
  }

  ghost predicate ValidPack(rs: seq<Record>, toml: Toml) {
    |rs| < 0x1_0000_0000 && ValidRecords(rs, toml) && DistinctNames(rs)
  }

  /** The records as a map. */
  function MapOf(rs: seq<Record>): map<Bytes, Bytes> {
    if rs == [] then map[] else MapOf(rs[..|rs| - 1])[rs[|rs| - 1].name := rs[|rs| - 1].contents]
  }

  // ----- what one record parses to

  /** The value of the `width`-byte integer at the cursor, if it is all there. */
  function IntegerAt(input: Bytes, cursor: nat, width: nat): Option<nat> {
    if cursor + width <= |input| then Some(FromLittleEndian(input[cursor..cursor + width])) else None
  }

  /** The lengths in the record header at the cursor leave room for the record. */
  ghost predicate RecordFits(input: Bytes, cursor: nat) {
    && IntegerAt(input, cursor, 2).Some? && IntegerAt(input, cursor + 2, 4).Some?
    && cursor + 6 + IntegerAt(input, cursor, 2).value + IntegerAt(input, cursor + 2, 4).value <= |input|
  }

  ghost function RecordAt(input: Bytes, cursor: nat): Record
    requires RecordFits(input, cursor)
  {
    var n, d := IntegerAt(input, cursor, 2).value, IntegerAt(input, cursor + 2, 4).value;
    Record(input[cursor + 6..cursor + 6 + n], input[cursor + 6 + n..cursor + 6 + n + d])
  }

  ghost predicate ParsesAt(input: Bytes, cursor: nat, toml: Toml) {
    RecordFits(input, cursor) && ValidRecord(RecordAt(input, cursor), toml)
  }

  ghost function NextCursor(input: Bytes, cursor: nat): (next: nat)
    requires RecordFits(input, cursor)
    ensures cursor < next <= |input|
  {
    cursor + 6 + |RecordAt(input, cursor).name| + |RecordAt(input, cursor).contents|
  }

  /** A record read from the input is the one whose encoding lies there. */
  lemma ReadIsEncoded(input: Bytes, cursor: nat)
    requires AllBytes(input) && RecordFits(input, cursor)
    ensures input[cursor..NextCursor(input, cursor)] == EncodeRecord(RecordAt(input, cursor))
  {
    hide FromLittleEndian, LittleEndian;
    var r := RecordAt(input, cursor);
    BytesReadBack(input[cursor..cursor + 2]);
    BytesReadBack(input[cursor + 2..cursor + 6]);
    Joins(input, cursor, cursor + 2, cursor + 6);
    Joins(input, cursor, cursor + 6, cursor + 6 + |r.name|);
    Joins(input, cursor, cursor + 6 + |r.name|, NextCursor(input, cursor));
  }

  lemma Joins(s: Bytes, a: nat, b: nat, c: nat)
    requires a <= b <= c <= |s|
    ensures s[a..c] == s[a..b] + s[b..c]
  {}

  /** Four consecutive fields are the four slices at their offsets. */
  lemma FourFields(input: Bytes, cursor: nat, a: Bytes, b: Bytes, c: Bytes, d: Bytes, rest: Bytes)
    requires cursor <= |input| && input[cursor..] == a + b + c + d + rest
    ensures var p, q, u, v := cursor + |a|, cursor + |a| + |b|, cursor + |a| + |b| + |c|, cursor + |a| + |b| + |c| + |d|;
      v <= |input| && input[cursor..p] == a && input[p..q] == b && input[q..u] == c && input[u..v] == d && input[v..] == rest
  {
    assert a + b + c + d + rest == a + (b + (c + (d + rest)));
    SliceOf(input, cursor, a, b + (c + (d + rest)));
    SliceOf(input, cursor + |a|, b, c + (d + rest));
    SliceOf(input, cursor + |a| + |b|, c, d + rest);
    SliceOf(input, cursor + |a| + |b| + |c|, d, rest);
  }

  /** An encoded record is read back from wherever it lies. */
  lemma EncodedIsRead(input: Bytes, cursor: nat, r: Record, rest: Bytes, toml: Toml)
    requires cursor <= |input| && input[cursor..] == EncodeRecord(r) + rest
    requires ValidRecord(r, toml)
    ensures RecordFits(input, cursor) && RecordAt(input, cursor) == r
    ensures input[NextCursor(input, cursor)..] == rest
  {
    hide FromLittleEndian, LittleEndian, ValidUtf8, Pow256;
    IntegerRanges();
    IntegerReadsBack(|r.name|, 2);
    IntegerReadsBack(|r.contents|, 4);
    FourFields(input, cursor, LittleEndian(|r.name|, 2), LittleEndian(|r.contents|, 4), r.name, r.contents, rest);
  }

  // ----- the cursor operations

  /** `usize::MAX` on a 64-bit target. */
  const MAX_USIZE: nat := 0xFFFF_FFFF_FFFF_FFFF

  /** `take`. */
  method Take(input: Bytes, cursor: nat, length: nat) returns (r: Result<Bytes>, next: nat)
    requires cursor <= |input| <= MAX_USIZE
    ensures r.Ok? <==> cursor + length <= |input|
    ensures r.Ok? ==> next == cursor + length && r.value == input[cursor..next]
    ensures next <= |input|
  {
    var end := cursor + length;
    if end > MAX_USIZE {
      return Err, cursor;
    }
    if end > |input| {
      return Err, cursor;
    }
    return Ok(input[cursor..end]), end;
  }

  /** `take_u16` and `take_u32`. */
  method TakeInteger(input: Bytes, cursor: nat, width: nat) returns (r: Result<nat>, next: nat)
    requires cursor <= |input| <= MAX_USIZE
    ensures r.Ok? <==> IntegerAt(input, cursor, width).Some?
    ensures r.Ok? ==> next == cursor + width && r.value == IntegerAt(input, cursor, width).value
    ensures next <= |input|
  {
    var bytes: Result<Bytes>;
    bytes, next := Take(input, cursor, width);
    if bytes.Err? {
      return Err, next;
    }
    return Ok(FromLittleEndian(bytes.value)), next;
  }

  /** One turn of the record loop, up to the insertion. */
  method TakeRecord(input: Bytes, cursor: nat, toml: Toml) returns (r: Result<Record>, next: nat)
    requires AllBytes(input) && cursor <= |input| <= MAX_USIZE
    ensures r.Ok? <==> ParsesAt(input, cursor, toml)
    ensures r.Ok? ==> r.value == RecordAt(input, cursor) && next == NextCursor(input, cursor)
    ensures next <= |input|
  {
    hide ValidUtf8, FromLittleEndian;
    var nameLength, dataLength, name, contents;
    nameLength, next := TakeInteger(input, cursor, 2);
    if nameLength.Err? {
      return Err, next;
    }
    dataLength, next := TakeInteger(input, next, 4);
    if dataLength.Err? {
      return Err, next;
    }
    BytesReadBack(input[cursor..cursor + 2]);
    BytesReadBack(input[cursor + 2..cursor + 6]);
    IntegerRanges();
    name, next := Take(input, next, nameLength.value);
    if name.Err? || !ValidUtf8(name.value) {
      return Err, next;
    }
    contents, next := Take(input, next, dataLength.value);
    if contents.Err? || !ValidUtf8(contents.value) || !toml(contents.value) {
      return Err, next;
    }
    return Ok(Record(name.value, contents.value)), next;
  }

  // ----- whole packs

  /** The records from the cursor on, when exactly `count` of them fill the input. */
  ghost function RecordsFrom(input: Bytes, cursor: nat, count: nat, toml: Toml): Option<seq<Record>>
    requires cursor <= |input|
    decreases count
  {
    if count == 0 then
      if cursor == |input| then Some([]) else None
    else if !ParsesAt(input, cursor, toml) then None
    else
      var rest := RecordsFrom(input, NextCursor(input, cursor), count - 1, toml);
      if rest.None? then None else Some([RecordAt(input, cursor)] + rest.value)
  }

  lemma {:induction false} RecordsSound(input: Bytes, cursor: nat, count: nat, toml: Toml)
    requires AllBytes(input) && cursor <= |input| && RecordsFrom(input, cursor, count, toml).Some?
    ensures var rs := RecordsFrom(input, cursor, count, toml).value;
      |rs| == count && ValidRecords(rs, toml) && EncodeRecords(rs) == input[cursor..]
    decreases count
  {
    hide EncodeRecord, RecordAt, RecordFits, NextCursor, ValidRecord;
    if count > 0 {
      var next := NextCursor(input, cursor);
      RecordsSound(input, next, count - 1, toml);
      ReadIsEncoded(input, cursor);
      Joins(input, cursor, next, |input|);
      assert input[cursor..|input|] == input[cursor..] && input[next..|input|] == input[next..];
      var rs := RecordsFrom(input, cursor, count, toml).value;
      assert rs[1..] == RecordsFrom(input, next, count - 1, toml).value;
    }
  }

  lemma {:induction false} RecordsComplete(input: Bytes, cursor: nat, rs: seq<Record>, toml: Toml)
    requires cursor <= |input| && input[cursor..] == EncodeRecords(rs) && ValidRecords(rs, toml)
    ensures RecordsFrom(input, cursor, |rs|, toml) == Some(rs)
    decreases |rs|
  {
    hide EncodeRecord, RecordAt, RecordFits, NextCursor, ValidRecord;
    if rs != [] {
      EncodedIsRead(input, cursor, rs[0], EncodeRecords(rs[1..]), toml);
      RecordsComplete(input, NextCursor(input, cursor), rs[1..], toml);
      assert rs == [rs[0]] + rs[1..];
    }
  }

  ghost function PackRecords(input: Bytes, toml: Toml): Option<seq<Record>> {
    if |input| < 12 || input[..8] != PACK_MAGIC then None
    else RecordsFrom(input, 12, IntegerAt(input, 8, 4).value, toml)
  }

  /** `input` encodes exactly these records. */
  ghost predicate Packs(input: Bytes, rs: seq<Record>, toml: Toml) {
    ValidPack(rs, toml) && input == EncodePack(rs)
  }

  lemma PackRead(input: Bytes, rs: seq<Record>, toml: Toml)
    requires Packs(input, rs, toml)
    ensures PackRecords(input, toml) == Some(rs)
  {
    hide LittleEndian, FromLittleEndian, EncodeRecords, RecordsFrom, DistinctNames;
    IntegerRanges();
    IntegerReadsBack(|rs|, 4);
    var count := LittleEndian(|rs|, 4);
    assert input == PACK_MAGIC + (count + EncodeRecords(rs));
    assert input[0..] == input;
    SliceOf(input, 0, PACK_MAGIC, count + EncodeRecords(rs));
    SliceOf(input, 8, count, EncodeRecords(rs));
    RecordsComplete(input, 12, rs, toml);
  }

  lemma PackWritten(input: Bytes, toml: Toml)
    requires AllBytes(input) && PackRecords(input, toml).Some?
    requires DistinctNames(PackRecords(input, toml).value)
    ensures Packs(input, PackRecords(input, toml).value, toml)
  {
    hide LittleEndian, FromLittleEndian, EncodeRecords, RecordsFrom, DistinctNames;
    IntegerRanges();
    BytesReadBack(input[8..12]);
    var rs := PackRecords(input, toml).value;
    RecordsSound(input, 12, IntegerAt(input, 8, 4).value, toml);
    assert input[8..12] == LittleEndian(|rs|, 4);
    assert input == input[..8] + input[8..12] + input[12..];
  }

  /** The encoding loses nothing: not even the order of the records. */
  lemma EncodePackInjective(a: seq<Record>, b: seq<Record>, toml: Toml)
    requires ValidPack(a, toml) && ValidPack(b, toml) && EncodePack(a) == EncodePack(b)
    ensures a == b
  {
    hide ValidPack, EncodePack, PackRecords;
    PackRead(EncodePack(a), a, toml);
    PackRead(EncodePack(b), b, toml);
  }

  lemma {:induction false} MapOfMember(rs: seq<Record>, i: nat)
    requires DistinctNames(rs) && i < |rs|
    ensures rs[i].name in MapOf(rs) && MapOf(rs)[rs[i].name] == rs[i].contents
  {
    if i < |rs| - 1 { MapOfMember(rs[..|rs| - 1], i); }
  }

  lemma {:induction false} MapOfKey(rs: seq<Record>, name: Bytes)
    ensures name in MapOf(rs) <==> exists i :: 0 <= i < |rs| && rs[i].name == name
  {
    if rs != [] {
      MapOfKey(rs[..|rs| - 1], name);
      assert forall i :: 0 <= i < |rs| - 1 ==> rs[..|rs| - 1][i] == rs[i];
    }
  }

  /** The records list the map, in some order. */
  ghost predicate Lists(rs: seq<Record>, m: map<Bytes, Bytes>) {
    && DistinctNames(rs)
    && (forall i :: 0 <= i < |rs| ==> rs[i].name in m && m[rs[i].name] == rs[i].contents)
    && (forall name :: name in m ==> exists i :: 0 <= i < |rs| && rs[i].name == name)
  }

  /** Whatever order a map's records are written in, the same map is read. */
  lemma MapOfListing(rs: seq<Record>, m: map<Bytes, Bytes>)
    ensures Lists(rs, m) ==> MapOf(rs) == m
    ensures DistinctNames(rs) ==> Lists(rs, MapOf(rs))
  {
    hide MapOf;
    if DistinctNames(rs) {
      forall name ensures name in MapOf(rs) <==> exists i :: 0 <= i < |rs| && rs[i].name == name { MapOfKey(rs, name); }
      forall i | 0 <= i < |rs| ensures rs[i].name in MapOf(rs) && MapOf(rs)[rs[i].name] == rs[i].contents { MapOfMember(rs, i); }
      if Lists(rs, m) {
        assert MapOf(rs).Keys == m.Keys;
      }
    }
  }

  /** `parse_pack`.  What it accepts is exactly an encoded pack, all bytes consumed. */
  method ParsePack(input: Bytes, toml: Toml) returns (r: Result<map<Bytes, Bytes>>, ghost rs: seq<Record>)
    requires AllBytes(input) && |input| <= MAX_USIZE
    ensures r.Ok? ==> Packs(input, rs, toml) && r.value == MapOf(rs)
    ensures r.Err? ==> forall other :: !Packs(input, other, toml)
  {
    hide RecordsFrom, ParsesAt, RecordAt, NextCursor, RecordFits, MapOf, Packs, DistinctNames;
    forall other | Packs(input, other, toml) ensures PackRecords(input, toml) == Some(other) && DistinctNames(other) {
      PackRead(input, other, toml);
      PackDistinct(input, other, toml);
    }
    rs := [];
    if |input| < 8 || input[..8] != PACK_MAGIC {
      return Err, rs;
    }
    var count: Result<nat>, cursor: nat := TakeInteger(input, 8, 4);
    if count.Err? {
      return Err, rs;
    }
    var schemes: map<Bytes, Bytes> := map[];
    EmptyRun(input, count.value, toml);
    for n := 0 to count.value
      invariant cursor <= |input| && |rs| == n
      invariant schemes == MapOf(rs) && DistinctNames(rs)
      invariant PackRecords(input, toml) == After(rs, RecordsFrom(input, cursor, count.value - n, toml))
    {
      var record, next := TakeRecord(input, cursor, toml);
      RecordsStep(input, cursor, count.value - n, rs, toml);
      if record.Err? {
        return Err, rs;
      }
      MapOfSnoc(rs, record.value);
      if record.value.name in schemes {
        NeverDistinct(rs, record.value, RecordsFrom(input, next, count.value - n - 1, toml));
        return Err, rs;
      }
      schemes := schemes[record.value.name := record.value.contents];
      rs := rs + [record.value];
      cursor := next;
    }
    RecordsEnd(input, cursor, rs, toml);
    if cursor != |input| {
      return Err, rs;
    }
    PackWritten(input, toml);
    return Ok(schemes), rs;
  }

  ghost function After(rs: seq<Record>, rest: Option<seq<Record>>): Option<seq<Record>> {
    if rest.None? then None else Some(rs + rest.value)
  }

  lemma PackDistinct(input: Bytes, rs: seq<Record>, toml: Toml)
    requires Packs(input, rs, toml)
    ensures DistinctNames(rs)
  {}

  lemma EmptyRun(input: Bytes, count: nat, toml: Toml)
    requires |input| >= 12
    ensures MapOf([]) == map[] && DistinctNames([])
    ensures RecordsFrom(input, 12, count, toml) == After([], RecordsFrom(input, 12, count, toml))
  {
    var rest := RecordsFrom(input, 12, count, toml);
    if rest.Some? { assert [] + rest.value == rest.value; }
  }

  lemma RecordsStep(input: Bytes, cursor: nat, count: nat, rs: seq<Record>, toml: Toml)
    requires cursor <= |input| && count > 0
    ensures !ParsesAt(input, cursor, toml) ==> RecordsFrom(input, cursor, count, toml).None?
    ensures ParsesAt(input, cursor, toml) ==>
      After(rs, RecordsFrom(input, cursor, count, toml)) ==
      After(rs + [RecordAt(input, cursor)], RecordsFrom(input, NextCursor(input, cursor), count - 1, toml))
  {
    hide RecordAt, NextCursor, ValidRecord, RecordFits;
    if ParsesAt(input, cursor, toml) {
      var rest := RecordsFrom(input, NextCursor(input, cursor), count - 1, toml);
      if rest.Some? {
        assert rs + [RecordAt(input, cursor)] + rest.value == rs + ([RecordAt(input, cursor)] + rest.value);
      }
    }
  }

  lemma RecordsEnd(input: Bytes, cursor: nat, rs: seq<Record>, toml: Toml)
    requires cursor <= |input|
    ensures After(rs, RecordsFrom(input, cursor, 0, toml)) == if cursor == |input| then Some(rs) else None
  {
    assert rs + [] == rs;
  }

  lemma MapOfSnoc(rs: seq<Record>, r: Record)
    ensures MapOf(rs + [r]) == MapOf(rs)[r.name := r.contents]
    ensures DistinctNames(rs) && r.name !in MapOf(rs) ==> DistinctNames(rs + [r])
  {
    assert (rs + [r])[..|rs|] == rs;
    MapOfKey(rs, r.name);
  }

  lemma NeverDistinct(rs: seq<Record>, r: Record, rest: Option<seq<Record>>)
    requires r.name in MapOf(rs)
    ensures After(rs + [r], rest).Some? ==> !DistinctNames(After(rs + [r], rest).value)
  {
    MapOfKey(rs, r.name);
    var i :| 0 <= i < |rs| && rs[i].name == r.name;
    if rest.Some? {
      var all := rs + [r] + rest.value;
      assert all[i] == rs[i] && all[|rs|] == r;
    }
  }
}
