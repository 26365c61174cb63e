/** Compiling a parsed scheme pack: alias table, partition, blob, ranges and index.

    The build script's ordered sets and maps keep their keys in byte order. */
module SchemeIndex {
  import opened ByteStrings
  import opened Results
  import opened SchemePack
  import Base64
  import Sorting

  // ----- numerals

  /** Digits in groups of three from the right. */
  function Grouped(digits: Bytes): Bytes {
    if |digits| <= 3 then digits
    else Grouped(digits[..|digits| - 3]) + ['_'] + digits[|digits| - 3..]
  }

  function DropUnderscores(text: Bytes): Bytes {
    if text == [] then []
    else if text[0] == '_' then DropUnderscores(text[1..])
    else [text[0]] + DropUnderscores(text[1..])
  }

  predicate Numeral(text: Bytes) {
    forall i :: 0 <= i < |text| ==> text[i] == '_' || '0' <= text[i] <= '9'
  }

  lemma {:induction false} DroppedDigits(text: Bytes)
    requires Numeral(text)
    ensures forall i :: 0 <= i < |DropUnderscores(text)| ==> '0' <= DropUnderscores(text)[i] <= '9'
  {
    if text != [] { DroppedDigits(text[1..]); }
  }

  /** What a Rust integer literal denotes. */
  function ReadInteger(text: Bytes): nat
    requires Numeral(text)
  {
    DroppedDigits(text);
    DecimalValue(DropUnderscores(text))
  }

  /** The first `n` digits with their separators, as the loop emits them. */
  function Emitted(digits: Bytes, n: nat): Bytes
    requires n <= |digits|
  {
    if n == 0 then []
    else
      Emitted(digits, n - 1) + (if n - 1 > 0 && (|digits| - (n - 1)) % 3 == 0 then ['_'] else []) + [digits[n - 1]]
  }

  lemma {:induction false} EmittedShorter(digits: Bytes, n: nat)
    requires |digits| > 3 && n <= |digits| - 3
    ensures Emitted(digits, n) == Emitted(digits[..|digits| - 3], n)
  {
    if n > 0 {
      EmittedShorter(digits, n - 1);
      var shorter := digits[..|digits| - 3];
      assert (|digits| - (n - 1)) % 3 == (|shorter| - (n - 1)) % 3;
    }
  }

  lemma {:induction false} EmittedIsGrouped(digits: Bytes)
    ensures Emitted(digits, |digits|) == Grouped(digits)
  {
    if |digits| <= 3 {
      EmittedShort(digits, |digits|);
      assert digits[..|digits|] == digits;
    } else {
      var n := |digits| - 3;
      EmittedShorter(digits, n);
      EmittedIsGrouped(digits[..n]);
      assert Emitted(digits, n + 1) == Emitted(digits, n) + ['_'] + [digits[n]];
      assert Emitted(digits, n + 2) == Emitted(digits, n + 1) + [] + [digits[n + 1]];
      assert Emitted(digits, n + 3) == Emitted(digits, n + 2) + [] + [digits[n + 2]];
      assert digits[n..] == [digits[n], digits[n + 1], digits[n + 2]];
      assert Emitted(digits, n + 3) == Emitted(digits, n) + ['_'] + digits[n..];
    }
  }

  lemma {:induction false} EmittedShort(digits: Bytes, n: nat)
    requires n <= |digits| <= 3
    ensures Emitted(digits, n) == digits[..n]
  {
    if n > 0 { EmittedShort(digits, n - 1); }
  }

  lemma {:induction false} DropConcat(a: Bytes, b: Bytes)
    ensures DropUnderscores(a + b) == DropUnderscores(a) + DropUnderscores(b)
  {
    if a == [] {
      assert a + b == b;
    } else {
      DropConcat(a[1..], b);
      var rest := DropUnderscores(a[1..]);
      assert (a + b)[1..] == a[1..] + b && (a + b)[0] == a[0];
      assert [a[0]] + (rest + DropUnderscores(b)) == [a[0]] + rest + DropUnderscores(b);
    }
  }

  lemma {:induction false} DropNothing(digits: Bytes)
    requires '_' !in digits
    ensures DropUnderscores(digits) == digits
  {
    if digits != [] { DropNothing(digits[1..]); }
  }

  lemma {:induction false} GroupedReadsBack(digits: Bytes)
    requires '_' !in digits
    ensures DropUnderscores(Grouped(digits)) == digits
    ensures forall c :: c in Grouped(digits) ==> c == '_' || c in digits
  {
    hide DropUnderscores;
    if |digits| <= 3 {
      DropNothing(digits);
    } else {
      var head, tail := digits[..|digits| - 3], digits[|digits| - 3..];
      GroupedReadsBack(head);
      DropNothing(tail);
      DropConcat(Grouped(head) + ['_'], tail);
      DropConcat(Grouped(head), ['_']);
      DropSeparator();
      assert digits == head + tail;
    }
  }

  lemma DropSeparator()
    ensures DropUnderscores(['_']) == []
  {}

  /** `rust_integer`: the decimal digits in groups of three, which read back to the value. */
  method RustInteger(value: nat) returns (text: Bytes)
    ensures text == Grouped(Decimal(value))
    ensures Numeral(text) && ReadInteger(text) == value
  {
    hide Emitted, Grouped, DropUnderscores, Decimal, DecimalValue;
    var digits := Decimal(value);
    text := [];
    EmittedNone(digits);
    for index := 0 to |digits|
      invariant text == Emitted(digits, index)
    {
      EmittedNext(digits, index);
      if index > 0 && (|digits| - index) % 3 == 0 {
        text := text + ['_'];
      }
      text := text + [digits[index]];
    }
    EmittedIsGrouped(digits);
    NumeralReadsBack(value);
  }

  lemma EmittedNone(digits: Bytes)
    ensures Emitted(digits, 0) == []
  {}

  lemma EmittedNext(digits: Bytes, n: nat)
    requires n < |digits|
    ensures Emitted(digits, n + 1) ==
      Emitted(digits, n) + (if n > 0 && (|digits| - n) % 3 == 0 then ['_'] else []) + [digits[n]]
  {}

  lemma NumeralReadsBack(value: nat)
    ensures Numeral(Grouped(Decimal(value))) && ReadInteger(Grouped(Decimal(value))) == value
  {
    hide Grouped, Decimal, DecimalValue, DropUnderscores;
    var digits := Decimal(value);
    GroupedReadsBack(digits);
    DecimalReadsBack(value);
    var text := Grouped(digits);
    forall i | 0 <= i < |text| ensures text[i] == '_' || '0' <= text[i] <= '9' {
      assert text[i] in text;
    }
  }

  // ----- the blob and its ranges

  type Schemes = map<Bytes, Bytes>

  ghost predicate AllIn(order: seq<Bytes>, schemes: Schemes) {
    forall i :: 0 <= i < |order| ==> order[i] in schemes
  }

  /** The contents of the listed schemes, one after another. */
  function Blob(schemes: Schemes, order: seq<Bytes>): Bytes
    requires AllIn(order, schemes)
  {
    if order == [] then [] else Blob(schemes, order[..|order| - 1]) + schemes[order[|order| - 1]]
  }

  /** Where the i-th scheme starts. */
  function Start(schemes: Schemes, order: seq<Bytes>, i: nat): nat
    requires AllIn(order, schemes) && i <= |order|
  {
    |Blob(schemes, order[..i])|
  }

  lemma BlobStep(schemes: Schemes, order: seq<Bytes>, i: nat)
    requires AllIn(order, schemes) && i < |order|
    ensures Blob(schemes, order[..i + 1]) == Blob(schemes, order[..i]) + schemes[order[i]]
  {
    assert order[..i + 1][..i] == order[..i];
  }

  lemma {:induction false} BlobPrefix(schemes: Schemes, order: seq<Bytes>, i: nat, j: nat)
    requires AllIn(order, schemes) && i <= j <= |order|
    ensures Blob(schemes, order[..i]) <= Blob(schemes, order[..j])
  {
    if i < j {
      BlobPrefix(schemes, order, i, j - 1);
      BlobStep(schemes, order, j - 1);
    }
  }

  /** Each range slices the blob to its scheme's contents. */
  lemma RangeIsContents(schemes: Schemes, order: seq<Bytes>, i: nat)
    requires AllIn(order, schemes) && i < |order|
    ensures Start(schemes, order, i + 1) == Start(schemes, order, i) + |schemes[order[i]]| <= |Blob(schemes, order)|
    ensures Blob(schemes, order)[Start(schemes, order, i)..Start(schemes, order, i + 1)] == schemes[order[i]]
  {
    hide Blob;
    BlobStep(schemes, order, i);
    BlobPrefix(schemes, order, i + 1, |order|);
    assert order[..|order|] == order;
    var whole, upTo := Blob(schemes, order), Blob(schemes, order[..i + 1]);
    assert whole[Start(schemes, order, i)..|upTo|] == upTo[Start(schemes, order, i)..];
  }

  /** The ranges tile the blob: every byte lies in exactly one of them. */
  lemma RangesTile(schemes: Schemes, order: seq<Bytes>, k: nat) returns (i: nat)
    requires AllIn(order, schemes) && k < |Blob(schemes, order)|
    ensures i < |order| && InRange(schemes, order, i, k)
    ensures forall j :: 0 <= j < |order| && InRange(schemes, order, j, k) ==> j == i
  {
    assert order[..|order|] == order;
    i := FindRange(schemes, order, |order|, k);
    forall j | 0 <= j < |order| && InRange(schemes, order, j, k) ensures j == i {
      if j < i { BlobPrefix(schemes, order, j + 1, i); }
      if i < j { BlobPrefix(schemes, order, i + 1, j); }
    }
  }

  ghost predicate InRange(schemes: Schemes, order: seq<Bytes>, i: nat, k: nat)
    requires AllIn(order, schemes) && i < |order|
  {
    Start(schemes, order, i) <= k < Start(schemes, order, i + 1)
  }

  lemma {:induction false} FindRange(schemes: Schemes, order: seq<Bytes>, n: nat, k: nat) returns (i: nat)
    requires AllIn(order, schemes) && n <= |order| && k < Start(schemes, order, n)
    ensures i < n && InRange(schemes, order, i, k)
  {
    assert order[..0] == [];
    if k >= Start(schemes, order, n - 1) {
      i := n - 1;
    } else {
      i := FindRange(schemes, order, n - 1, k);
    }
  }

  datatype Range = Range(start: nat, length: nat)

  const U32_LIMIT: nat := 0x1_0000_0000

  /** Every start and length fits `u32`. */
  ghost predicate FitsU32(schemes: Schemes, order: seq<Bytes>)
    requires AllIn(order, schemes)
  {
    forall i :: 0 <= i < |order| ==> Start(schemes, order, i) < U32_LIMIT && |schemes[order[i]]| < U32_LIMIT
  }

  ghost predicate RangesOf(ranges: map<Bytes, Range>, schemes: Schemes, order: seq<Bytes>, n: nat)
    requires AllIn(order, schemes) && n <= |order|
  {
    && (forall name :: name in ranges <==> name in order[..n])
    && forall i :: 0 <= i < n ==>
         order[i] in ranges && ranges[order[i]] == Range(Start(schemes, order, i), |schemes[order[i]]|)
  }

  /** The compile loop of `run`. */
  method CompileBlob(schemes: Schemes, order: seq<Bytes>) returns (r: Result<(Bytes, map<Bytes, Range>)>)
    requires AllIn(order, schemes) && Sorting.StrictlyAscending(order)
    ensures r.Ok? <==> FitsU32(schemes, order)
    ensures r.Ok? ==> r.value.0 == Blob(schemes, order) && RangesOf(r.value.1, schemes, order, |order|)
  {
    hide Blob, LexLe;
    var compiled: Bytes := [];
    var ranges: map<Bytes, Range> := map[];
    EmptyBlob(schemes, order);
    for n := 0 to |order|
      invariant compiled == Blob(schemes, order[..n])
      invariant forall i :: 0 <= i < n ==> Start(schemes, order, i) < U32_LIMIT && |schemes[order[i]]| < U32_LIMIT
      invariant RangesOf(ranges, schemes, order, n)
    {
      var contents := schemes[order[n]];
      if |compiled| >= U32_LIMIT || |contents| >= U32_LIMIT {
        assert Start(schemes, order, n) == |compiled|;
        return Err;
      }
      BlobStep(schemes, order, n);
      assert order[..n + 1] == order[..n] + [order[n]];
      ranges := ranges[order[n] := Range(|compiled|, |contents|)];
      compiled := compiled + contents;
    }
    assert order[..|order|] == order;
    return Ok((compiled, ranges));
  }

  lemma EmptyBlob(schemes: Schemes, order: seq<Bytes>)
    requires AllIn(order, schemes)
    ensures Blob(schemes, order[..0]) == []
  {}

  // ----- the alias table

  /** The alias a line declares: its name and the scheme it stands for. */
  function AliasOf(line: Bytes): Option<Record> {
    var tab := Find(line, '\t', 0);
    if tab < 0 then None
    else
      var name := Base64.Decode(line[..tab]);
      if name.None? || !ValidUtf8(name.value) then None
      else Some(Record(name.value, line[tab + 1..]))
  }

  predicate Comment(line: Bytes) {
    line != [] && line[0] == '#'
  }

  /** The aliases of all lines but the comments. */
  function AliasesOf(lines: seq<Bytes>): Option<seq<Record>> {
    if lines == [] then Some([])
    else
      var before, line := AliasesOf(lines[..|lines| - 1]), lines[|lines| - 1];
      if before.None? then None
      else if Comment(line) then before
      else if AliasOf(line).None? then None
      else Some(before.value + [AliasOf(line).value])
  }

  lemma {:induction false} NoAliases(lines: seq<Bytes>, n: nat)
    requires n <= |lines|
    ensures AliasesOf(lines[..n]).None? ==> AliasesOf(lines).None?
    ensures (AliasesOf(lines[..n]).Some? && AliasesOf(lines).Some?) ==> AliasesOf(lines[..n]).value <= AliasesOf(lines).value
  {
    hide AliasOf, Comment;
    if n < |lines| {
      NoAliases(lines[..|lines| - 1], n);
      assert lines[..|lines| - 1][..n] == lines[..n];
    } else {
      assert lines[..n] == lines;
    }
  }

  lemma PrefixDistinct(a: seq<Record>, b: seq<Record>)
    requires a <= b && DistinctNames(b)
    ensures DistinctNames(a)
  {
    assert forall i :: 0 <= i < |a| ==> a[i] == b[i];
  }

  /** `parse_aliases`, on the lines of the file. */
  method ParseAliases(lines: seq<Bytes>) returns (r: Result<map<Bytes, Bytes>>)
    ensures r.Ok? <==> AliasesOf(lines).Some? && DistinctNames(AliasesOf(lines).value)
    ensures r.Ok? ==> r.value == MapOf(AliasesOf(lines).value)
  {
    hide AliasOf, Comment, MapOf, DistinctNames;
    var aliases: map<Bytes, Bytes> := map[];
    ghost var rs: seq<Record> := [];
    EmptyTable();
    assert lines[..0] == [];
    for n := 0 to |lines|
      invariant AliasesOf(lines[..n]) == Some(rs) && DistinctNames(rs) && aliases == MapOf(rs)
    {
      var line := lines[n];
      assert lines[..n + 1][..n] == lines[..n];
      NoAliases(lines, n + 1);
      if !Comment(line) {
        var alias := AliasOf(line);
        if alias.None? {
          return Err;
        }
        MapOfSnoc(rs, alias.value);
        if alias.value.name in aliases {
          RepeatedName(rs, alias.value);
          if AliasesOf(lines).Some? && DistinctNames(AliasesOf(lines).value) {
            PrefixDistinct(rs + [alias.value], AliasesOf(lines).value);
          }
          return Err;
        }
        aliases := aliases[alias.value.name := alias.value.contents];
        rs := rs + [alias.value];
      }
    }
    assert lines[..|lines|] == lines;
    return Ok(aliases);
  }

  lemma EmptyTable()
    ensures MapOf([]) == map[] && DistinctNames([])
  {}

  lemma RepeatedName(rs: seq<Record>, r: Record)
    requires r.name in MapOf(rs)
    ensures !DistinctNames(rs + [r])
  {
    NeverDistinct(rs, r, Some([]));
    assert rs + [r] + [] == rs + [r];
  }

  /** How an alias is written. */
  function AliasLine(r: Record): Bytes
    requires AllBytes(r.name)
  {
    Base64.Encode(r.name) + ['\t'] + r.contents
  }

  /** Any written alias is read back, and no line of them looks like a comment. */
  lemma AliasReadsBack(r: Record)
    requires AllBytes(r.name) && ValidUtf8(r.name)
    ensures !Comment(AliasLine(r)) && AliasOf(AliasLine(r)) == Some(r)
  {
    hide Base64.Encode, Base64.Decode, ValidUtf8;
    var encoded, line := Base64.Encode(r.name), AliasLine(r);
    EncodedPlain(r.name);
    assert line[0..] == line == encoded + (['\t'] + r.contents);
    FindSeparator(line, 0, encoded, '\t', r.contents);
    assert line[..|encoded|] == encoded && line[|encoded| + 1..] == r.contents;
    Base64.DecodeEncode(r.name);
  }

  lemma {:induction false} EncodedPlain(b: Bytes)
    requires AllBytes(b)
    ensures forall i :: 0 <= i < |Base64.Encode(b)| ==> Base64.Encode(b)[i] != '\t' && Base64.Encode(b)[i] != '#'
  {
    if |b| >= 3 { EncodedPlain(b[3..]); }
  }

  lemma {:induction false} AliasesReadBack(rs: seq<Record>, lines: seq<Bytes>)
    requires |lines| == |rs|
    requires forall i :: 0 <= i < |rs| ==> AllBytes(rs[i].name) && ValidUtf8(rs[i].name) && lines[i] == AliasLine(rs[i])
    ensures AliasesOf(lines) == Some(rs)
  {
    hide AliasOf, Comment, AliasLine, ValidUtf8, AllBytes;
    if rs != [] {
      var n := |rs| - 1;
      AliasesReadBack(rs[..n], lines[..n]);
      AliasReadsBack(rs[n]);
      assert rs == rs[..n] + [rs[n]];
    }
  }

  // ----- the index

  datatype Entry = Entry(name: Bytes, start: Bytes, length: Bytes)

  /** The entry's numerals, read, slice the blob to these contents. */
  ghost predicate Points(e: Entry, blob: Bytes, contents: Bytes) {
    && Numeral(e.start) && Numeral(e.length)
    && ReadInteger(e.start) + ReadInteger(e.length) <= |blob|
    && blob[ReadInteger(e.start)..ReadInteger(e.start) + ReadInteger(e.length)] == contents
  }

  /** The range table points into the blob at each scheme's contents. */
  ghost predicate Locates(ranges: map<Bytes, Range>, blob: Bytes, schemes: Schemes) {
    forall name :: name in ranges ==>
      && name in schemes
      && ranges[name].start + ranges[name].length <= |blob|
      && blob[ranges[name].start..ranges[name].start + ranges[name].length] == schemes[name]
  }

  lemma RangesLocate(ranges: map<Bytes, Range>, schemes: Schemes, order: seq<Bytes>)
    requires AllIn(order, schemes) && RangesOf(ranges, schemes, order, |order|)
    ensures Locates(ranges, Blob(schemes, order), schemes)
  {
    hide Blob;
    assert order[..|order|] == order;
    forall name | name in ranges
      ensures name in schemes && ranges[name].start + ranges[name].length <= |Blob(schemes, order)|
      ensures Blob(schemes, order)[ranges[name].start..ranges[name].start + ranges[name].length] == schemes[name]
    {
      var i :| 0 <= i < |order| && order[i] == name;
      RangeIsContents(schemes, order, i);
    }
  }

  /** Index entry `j` belongs to the `j`-th name, and every alias leads to its scheme's contents. */
  ghost predicate Indexes(index: seq<Entry>, names: seq<Bytes>, aliases: map<Bytes, Bytes>, blob: Bytes, schemes: Schemes) {
    && |index| == |names|
    && forall j :: 0 <= j < |index| ==>
         && index[j].name == names[j]
         && names[j] in aliases && aliases[names[j]] in schemes
         && Points(index[j], blob, schemes[aliases[names[j]]])
  }

  method BuildIndex(names: seq<Bytes>, aliases: map<Bytes, Bytes>, ranges: map<Bytes, Range>,
                    ghost blob: Bytes, ghost schemes: Schemes) returns (index: seq<Entry>)
    requires Locates(ranges, blob, schemes)
    requires forall j :: 0 <= j < |names| ==> names[j] in aliases && aliases[names[j]] in ranges
    ensures Indexes(index, names, aliases, blob, schemes)
  {
    hide ReadInteger, Numeral, Grouped;
    index := [];
    for j := 0 to |names|
      invariant Indexes(index, names[..j], aliases, blob, schemes)
    {
      var range := ranges[aliases[names[j]]];
      var start := RustInteger(range.start);
      var length := RustInteger(range.length);
      index := index + [Entry(names[j], start, length)];
    }
    assert names[..|names|] == names;
  }

  // ----- the whole build

  datatype Manifest = Manifest(lookups: nat, schemes: nat, active: nat, shadowed: nat, packHash: Bytes)

  datatype Output = Output(blob: Bytes, index: seq<Entry>)

  /** Active and shadowed schemes partition the parsed schemes. */
  predicate Partitions(aliases: map<Bytes, Bytes>, shadowed: set<Bytes>, schemes: Schemes) {
    aliases.Values !! shadowed && aliases.Values + shadowed == schemes.Keys
  }

  predicate Matches(m: Manifest, aliases: map<Bytes, Bytes>, shadowed: set<Bytes>, schemes: Schemes, packHash: Bytes) {
    m == Manifest(|aliases|, |schemes|, |aliases.Values|, |shadowed|, packHash)
  }

  /** Everything the build demands of a parsed pack and alias table. */
  ghost predicate Buildable(schemes: Schemes, aliases: map<Bytes, Bytes>, shadowed: set<Bytes>, m: Manifest, packHash: Bytes) {
    && Partitions(aliases, shadowed, schemes)
    && Matches(m, aliases, shadowed, schemes, packHash)
    && SizesFit(schemes, Sorting.Sorted(aliases.Values))
  }

  ghost predicate SizesFit(schemes: Schemes, order: seq<Bytes>) {
    AllIn(order, schemes) && FitsU32(schemes, order)
  }

  lemma OrderIn(order: seq<Bytes>, values: set<Bytes>, schemes: Schemes)
    requires Sorting.SortedList(values, order) && values <= schemes.Keys
    ensures AllIn(order, schemes)
  {
    forall i | 0 <= i < |order| ensures order[i] in schemes {
      assert order[i] in Sorting.SetOf(order);
    }
  }

  /** From the checked tables on: the blob, the ranges and the index. */
  method Assemble(schemes: Schemes, aliases: map<Bytes, Bytes>) returns (r: Result<Output>, ghost order: seq<Bytes>, ghost names: seq<Bytes>)
    requires aliases.Values <= schemes.Keys
    ensures Sorting.SortedList(aliases.Values, order) && Sorting.SortedList(aliases.Keys, names)
    ensures r.Ok? <==> SizesFit(schemes, order)
    ensures r.Ok? ==> AllIn(order, schemes) && r.value.blob == Blob(schemes, order)
    ensures r.Ok? ==> Indexes(r.value.index, names, aliases, r.value.blob, schemes)
  {
    hide Blob, FitsU32, RangesOf, Locates, Indexes, LexLe;
    var active := Sorting.SortSet(aliases.Values);
    var keys := Sorting.SortSet(aliases.Keys);
    order, names := active, keys;
    OrderIn(order, aliases.Values, schemes);
    var compiled := CompileBlob(schemes, active);
    if compiled.Err? {
      return Err, order, names;
    }
    var (blob, ranges) := compiled.value;
    RangesLocate(ranges, schemes, order);
    NamesResolve(aliases, ranges, schemes, order, names);
    var index := BuildIndex(keys, aliases, ranges, blob, schemes);
    return Ok(Output(blob, index)), order, names;
  }

  lemma NamesResolve(aliases: map<Bytes, Bytes>, ranges: map<Bytes, Range>, schemes: Schemes, order: seq<Bytes>, names: seq<Bytes>)
    requires Sorting.SortedList(aliases.Values, order) && Sorting.SortedList(aliases.Keys, names)
    requires AllIn(order, schemes) && RangesOf(ranges, schemes, order, |order|)
    ensures forall j :: 0 <= j < |names| ==> names[j] in aliases && aliases[names[j]] in ranges
  {
    hide Blob, LexLe;
    assert order[..|order|] == order;
    forall j | 0 <= j < |names| ensures names[j] in aliases && aliases[names[j]] in ranges {
      assert names[j] in Sorting.SetOf(names);
      assert aliases[names[j]] in aliases.Values;
      assert aliases[names[j]] in Sorting.SetOf(order);
    }
  }

  /** The outcome of a build: exactly what the declared schemes and aliases call for. */
  ghost predicate Built(out: Output, schemes: Schemes, aliases: map<Bytes, Bytes>) {
    exists order, names ::
      && Sorting.SortedList(aliases.Values, order) && Sorting.SortedList(aliases.Keys, names)
      && AllIn(order, schemes) && out.blob == Blob(schemes, order)
      && Indexes(out.index, names, aliases, out.blob, schemes)
  }

  /** The four asset files are well formed and agree with each other. */
  ghost predicate Assets(pack: Bytes, rs: seq<Record>, toml: Toml, lines: seq<Bytes>, shadowed: set<Bytes>, m: Manifest, packHash: Bytes) {
    && Packs(pack, rs, toml)
    && AliasesOf(lines).Some? && DistinctNames(AliasesOf(lines).value)
    && Buildable(MapOf(rs), MapOf(AliasesOf(lines).value), shadowed, m, packHash)
  }

  /** `run`, from the bytes of its four asset files. */
  method Run(pack: Bytes, toml: Toml, lines: seq<Bytes>, shadowed: set<Bytes>, m: Manifest, sha256: Digest)
    returns (r: Result<Output>, ghost rs: seq<Record>)
    requires AllBytes(pack) && |pack| <= MAX_USIZE
    ensures r.Ok? ==> Assets(pack, rs, toml, lines, shadowed, m, sha256(pack))
    ensures r.Ok? ==> Built(r.value, MapOf(rs), MapOf(AliasesOf(lines).value))
    ensures r.Err? ==> forall other :: !Assets(pack, other, toml, lines, shadowed, m, sha256(pack))
  {
    hide AliasesOf, DistinctNames, Packs, MapOf, SizesFit, Indexes, AllIn, Sorting.SortedList, Blob;
    var parsed, records := ParsePack(pack, toml);
    rs := records;
    if parsed.Err? {
      return Err, rs;
    }
    forall other | Packs(pack, other, toml) ensures other == rs {
      PackRead(pack, other, toml);
      PackRead(pack, rs, toml);
    }
    var table := ParseAliases(lines);
    if table.Err? {
      return Err, rs;
    }
    var schemes, aliases := parsed.value, table.value;
    var active := aliases.Values;
    if !(active <= schemes.Keys) {
      return Err, rs;
    }
    assert active !! shadowed <==> active * shadowed == {} by {
      assert forall x :: x in active * shadowed <==> x in active && x in shadowed;
    }
    if active * shadowed != {} || active + shadowed != schemes.Keys {
      return Err, rs;
    }
    if !Matches(m, aliases, shadowed, schemes, sha256(pack)) {
      return Err, rs;
    }
    ghost var order, names;
    r, order, names := Assemble(schemes, aliases);
    Sorting.SortedUnique(aliases.Values, order, Sorting.Sorted(aliases.Values));
  }
}
