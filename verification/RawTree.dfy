/** Raw Git tree objects: the serialised form and the checker's parser. */
module RawTree {
  import opened ByteStrings
  import opened GitPaths
  import opened Violations

  const MAX_PARSED_TREE_ENTRIES := 262_144

  datatype Entry = Entry(mode: Bytes, name: Bytes, kind: Kind, oid: Bytes)

  function KindOfMode(mode: Bytes): Kind {
    if mode == "40000" then TreeKind
    else if mode == "100644" || mode == "100755" || mode == "120000" then BlobKind
    else if mode == "160000" then CommitKind
    else InvalidKind
  }

  // ----- the serialised form

  function SerializeEntry(e: Entry): Bytes
    requires FullSha(e.oid)
  {
    e.mode + [' '] + e.name + [NUL] + Unhex(e.oid)
  }

  ghost predicate FullIds(es: seq<Entry>) {
    forall i :: 0 <= i < |es| ==> FullSha(es[i].oid)
  }

  function Serialize(es: seq<Entry>): Bytes
    requires FullIds(es)
  {
    if es == [] then [] else SerializeEntry(es[0]) + Serialize(es[1..])
  }

  /** The key Git sorts a tree by: directories compare as if their name ended in a slash. */
  function SortKey(e: Entry): Bytes {
    if e.mode == "40000" then e.name + ['/'] else e.name
  }

  function SortKeys(es: seq<Entry>): (keys: seq<Bytes>)
    ensures |keys| == |es|
  {
    seq(|es|, i requires 0 <= i < |es| => SortKey(es[i]))
  }

  predicate AdmissibleEntry(e: Entry) {
    && e.kind == KindOfMode(e.mode) && e.kind != InvalidKind
    && ValidUtf8(e.name) && SafeGitPath(e.name) && '/' !in e.name
    && FullSha(e.oid)
  }

  /** What an admissible entry may be called: any proper name in UTF-8, and ".", the one
      improper name that the path test lets through. */
  lemma AdmissibleNames(e: Entry)
    ensures AdmissibleEntry(e) <==>
      && e.kind == KindOfMode(e.mode) && e.kind != InvalidKind && FullSha(e.oid) && ValidUtf8(e.name)
      && (e.name == "." || ('/' !in e.name && '\\' !in e.name && NUL !in e.name && ProperComponent(e.name)))
  {
    hide SafeGitPath, ProperComponent, ValidUtf8, FullSha;
    if '/' !in e.name { SafeName(e.name); }
  }

  /** A file called "." is accepted as a tree entry. */
  lemma DotEntryAdmissible(oid: Bytes)
    requires FullSha(oid)
    ensures AdmissibleEntry(Entry("100644", ".", BlobKind, oid)) && !ProperComponent(".")
  {
    hide FullSha, SafeGitPath, ProperComponent;
    AdmissibleNames(Entry("100644", ".", BlobKind, oid));
    DroppedIsImproper(".");
  }

  ghost predicate DistinctNames(es: seq<Entry>) {
    forall i, j :: 0 <= i < j < |es| ==> es[i].name != es[j].name
  }

  ghost predicate Admissible(es: seq<Entry>) {
    forall i :: 0 <= i < |es| ==> AdmissibleEntry(es[i])
  }

  /** What a tree object may hold: admissible entries, distinct names, canonical order, not empty. */
  ghost predicate Canonical(es: seq<Entry>) {
    && es != []
    && Admissible(es)
    && DistinctNames(es)
    && Ascending(SortKeys(es))
  }

  /** `raw` is the serialised form of the canonical entry list `es`. */
  ghost predicate Encodes(raw: Bytes, es: seq<Entry>) {
    Canonical(es) && raw == Serialize(es)
  }

  /** The bytes encode some canonical list that fits what is left of the entry budget. */
  ghost predicate Accepts(raw: Bytes, used: nat) {
    exists es :: Encodes(raw, es) && used + |es| <= MAX_PARSED_TREE_ENTRIES
  }

  lemma SerializeHead(es: seq<Entry>)
    requires FullIds(es) && es != []
    ensures Serialize(es) == SerializeEntry(es[0]) + Serialize(es[1..])
  {}

  lemma NothingSerialized()
    ensures Serialize([]) == []
  {}

  lemma {:induction false} SerializeAppend(a: seq<Entry>, b: seq<Entry>)
    requires FullIds(a) && FullIds(b)
    ensures Serialize(a + b) == Serialize(a) + Serialize(b)
  {
    hide Serialize, SerializeEntry;
    if a == [] {
      assert a + b == b;
      NothingSerialized();
    } else {
      SerializeAppend(a[1..], b);
      SerializeHead(a);
      SerializeHead(a + b);
      assert (a + b)[1..] == a[1..] + b && (a + b)[0] == a[0];
      Regroup(SerializeEntry(a[0]), Serialize(a[1..]), Serialize(b));
    }
  }

  lemma Regroup(a: Bytes, b: Bytes, c: Bytes)
    ensures a + (b + c) == a + b + c
  {}

  lemma SerializeSnoc(es: seq<Entry>, e: Entry)
    requires FullIds(es) && FullSha(e.oid)
    ensures Serialize(es + [e]) == Serialize(es) + SerializeEntry(e)
  {
    SerializeAppend(es, [e]);
    assert Serialize([e]) == SerializeEntry(e) + Serialize([]);
  }

  // ----- cutting one entry off the byte string

  datatype Cut = Malformed | Cut(mode: Bytes, name: Bytes, id: Bytes, next: nat)

  /** The two searches and the bounds test at the head of the checker's loop. */
  function CutEntry(raw: Bytes, cursor: nat): (c: Cut)
    requires cursor < |raw|
    ensures c.Cut? ==> cursor < c.next <= |raw| && |c.id| == 20
  {
    var space := Find(raw, ' ', cursor);
    var nul := if space >= 0 then Find(raw, NUL, space + 1) else -1;
    if space <= cursor || nul <= space + 1 || nul + 21 > |raw| then Malformed
    else Cut(raw[cursor..space], raw[space + 1..nul], raw[nul + 1..nul + 21], nul + 21)
  }

  lemma CutExact(raw: Bytes, cursor: nat)
    requires cursor < |raw| && CutEntry(raw, cursor).Cut?
    ensures var c := CutEntry(raw, cursor);
      raw[cursor..c.next] == c.mode + [' '] + c.name + [NUL] + c.id
  {
  }

  /** The entry recorded for a cut. */
  function EntryOf(c: Cut): (e: Entry)
    requires c.Cut? && |c.id| == 20
    ensures FullSha(e.oid) && e.kind == KindOfMode(e.mode)
  {
    Entry(c.mode, c.name, KindOfMode(c.mode), Hex(c.id))
  }

  ghost predicate WellDelimited(e: Entry) {
    e.mode != [] && ' ' !in e.mode && e.name != [] && NUL !in e.name && FullSha(e.oid)
  }

  lemma AdmissibleIsDelimited(e: Entry)
    requires AdmissibleEntry(e)
    ensures WellDelimited(e)
  {
  }

  /** `field` sits in `raw` at `from`. */
  ghost predicate At(raw: Bytes, from: nat, field: Bytes) {
    from + |field| <= |raw| && raw[from..from + |field|] == field
  }

  lemma FindEnd(raw: Bytes, from: nat, field: Bytes, c: char)
    requires At(raw, from, field) && c !in field
    requires from + |field| < |raw| && raw[from + |field|] == c
    ensures Find(raw, c, from) == from + |field|
  {
    forall i | from <= i < from + |field| ensures raw[i] != c {
      assert raw[i] == raw[from..from + |field|][i - from];
    }
  }

  lemma CutDelimited(raw: Bytes, cursor: nat, mode: Bytes, name: Bytes, id: Bytes)
    requires |id| == 20 && mode != [] && ' ' !in mode && name != [] && NUL !in name
    requires cursor + |mode| + |name| + 22 <= |raw|
    requires At(raw, cursor, mode) && raw[cursor + |mode|] == ' '
    requires At(raw, cursor + |mode| + 1, name) && raw[cursor + |mode| + 1 + |name|] == NUL
    requires At(raw, cursor + |mode| + |name| + 2, id)
    ensures CutEntry(raw, cursor) == Cut(mode, name, id, cursor + |mode| + |name| + 22)
  {
    hide Find, NUL;
    FindEnd(raw, cursor, mode, ' ');
    FindEnd(raw, cursor + |mode| + 1, name, NUL);
  }

  lemma Layout(raw: Bytes, cursor: nat, mode: Bytes, name: Bytes, id: Bytes, rest: Bytes)
    requires cursor <= |raw| && raw[cursor..] == mode + [' '] + name + [NUL] + id + rest
    ensures cursor + |mode| + |name| + |id| + 2 <= |raw|
    ensures At(raw, cursor, mode) && raw[cursor + |mode|] == ' '
    ensures At(raw, cursor + |mode| + 1, name) && raw[cursor + |mode| + 1 + |name|] == NUL
    ensures At(raw, cursor + |mode| + |name| + 2, id)
  {
    var tail := raw[cursor..];
    assert tail[|mode|] == ' ' && tail[|mode| + 1 + |name|] == NUL;
    assert tail[..|mode|] == mode;
    assert tail[|mode| + 1..|mode| + 1 + |name|] == name;
    assert tail[|mode| + |name| + 2..|mode| + |name| + 2 + |id|] == id;
  }

  lemma CutSerialized(raw: Bytes, cursor: nat, e: Entry, rest: Bytes)
    requires cursor < |raw| && WellDelimited(e)
    requires raw[cursor..] == SerializeEntry(e) + rest
    ensures CutEntry(raw, cursor) == Cut(e.mode, e.name, Unhex(e.oid), cursor + |SerializeEntry(e)|)
  {
    var id := Unhex(e.oid);
    Layout(raw, cursor, e.mode, e.name, id, rest);
    CutDelimited(raw, cursor, e.mode, e.name, id);
  }

  /** The serialised form determines the entries: no byte string encodes two lists. */
  lemma FirstEntryUnique(a: Entry, x: Bytes, b: Entry, y: Bytes)
    requires WellDelimited(a) && WellDelimited(b) && a.kind == b.kind
    requires SerializeEntry(a) + x == SerializeEntry(b) + y
    ensures a == b && x == y
  {
    var raw := SerializeEntry(a) + x;
    assert raw[0..] == raw;
    CutSerialized(raw, 0, a, x);
    CutSerialized(raw, 0, b, y);
    HexUnhex(a.oid);
    HexUnhex(b.oid);
  }

  lemma {:induction false} SerializeInjective(a: seq<Entry>, b: seq<Entry>)
    requires Admissible(a) && Admissible(b)
    requires Serialize(a) == Serialize(b)
    ensures a == b
  {
    if a != [] && b != [] {
      AdmissibleIsDelimited(a[0]);
      AdmissibleIsDelimited(b[0]);
      FirstEntryUnique(a[0].(kind := BlobKind), Serialize(a[1..]), b[0].(kind := BlobKind), Serialize(b[1..]));
      SerializeInjective(a[1..], b[1..]);
      assert a == [a[0]] + a[1..] && b == [b[0]] + b[1..];
    }
  }

  // ----- the checker's parser

  /** The running count of entries shared by all trees of one validation. */
  class EntryBudget {
    var entries: nat
    var exceeded: bool

    constructor ()
      ensures entries == 0 && !exceeded
    {
      entries, exceeded := 0, false;
    }
  }

  /** What the invariant of the parsing loop says about the bytes already consumed. */
  ghost predicate Consumed(raw: Bytes, cursor: nat, entries: seq<Entry>) {
    cursor <= |raw| && FullIds(entries) && raw[..cursor] == Serialize(entries)
  }

  ghost function EntryNames(es: seq<Entry>): set<Bytes> {
    set e | e in es :: e.name
  }

  /** Names, sort keys and admissibility of a list grown by one entry. */
  lemma AppendEntry(es: seq<Entry>, e: Entry)
    ensures EntryNames(es + [e]) == EntryNames(es) + {e.name}
    ensures SortKeys(es + [e]) == SortKeys(es) + [SortKey(e)]
    ensures Admissible(es) && DistinctNames(es) && AdmissibleEntry(e) && e.name !in EntryNames(es) ==>
      Admissible(es + [e]) && DistinctNames(es + [e])
  {
    assert EntryNames(es + [e]) == EntryNames(es) + {e.name} by {
      assert e in es + [e];
    }
    if DistinctNames(es) && e.name !in EntryNames(es) {
      assert forall i :: 0 <= i < |es| ==> es[i] in es && es[i].name in EntryNames(es);
      assert DistinctNames(es + [e]);
    }
  }

  lemma CutReserializes(raw: Bytes, cursor: nat)
    requires AllBytes(raw) && cursor < |raw| && CutEntry(raw, cursor).Cut?
    ensures SerializeEntry(EntryOf(CutEntry(raw, cursor))) == raw[cursor..CutEntry(raw, cursor).next]
  {
    CutExact(raw, cursor);
    UnhexHex(CutEntry(raw, cursor).id);
  }

  lemma ConsumeOne(raw: Bytes, cursor: nat, next: nat, entries: seq<Entry>, e: Entry)
    requires cursor <= next <= |raw| && Consumed(raw, cursor, entries)
    requires FullSha(e.oid) && SerializeEntry(e) == raw[cursor..next]
    ensures Consumed(raw, next, entries + [e])
  {
    SerializeSnoc(entries, e);
    assert raw[..next] == raw[..cursor] + raw[cursor..next];
  }

  /** What the parsing loop knows of its position and its three accumulators. */
  ghost predicate Scanned(raw: Bytes, cursor: nat, entries: seq<Entry>, names: set<Bytes>, sortKeys: seq<Bytes>) {
    Consumed(raw, cursor, entries) && names == EntryNames(entries) && sortKeys == SortKeys(entries)
  }

  lemma ScanStart(raw: Bytes)
    ensures Scanned(raw, 0, [], {}, [])
    ensures Admissible([]) && DistinctNames([])
  {
  }

  lemma ScanEnd(raw: Bytes, cursor: nat, entries: seq<Entry>, names: set<Bytes>, sortKeys: seq<Bytes>)
    requires Scanned(raw, cursor, entries, names, sortKeys)
    ensures cursor <= |raw| && Consumed(raw, cursor, entries) && names == EntryNames(entries) && sortKeys == SortKeys(entries)
  {
  }

  lemma Advance(raw: Bytes, cursor: nat, entries: seq<Entry>, names: set<Bytes>, sortKeys: seq<Bytes>, c: Cut)
    requires AllBytes(raw) && cursor < |raw| && c == CutEntry(raw, cursor) && c.Cut?
    requires Scanned(raw, cursor, entries, names, sortKeys)
    ensures Scanned(raw, c.next, entries + [EntryOf(c)], names + {c.name}, sortKeys + [SortKey(EntryOf(c))])
  {
    CutReserializes(raw, cursor);
    ConsumeOne(raw, cursor, c.next, entries, EntryOf(c));
    AppendEntry(entries, EntryOf(c));
  }

  lemma Remaining(raw: Bytes, cursor: nat, es: seq<Entry>, k: nat)
    requires FullIds(es) && raw == Serialize(es) && k <= |es|
    requires Consumed(raw, cursor, es[..k])
    ensures raw[cursor..] == Serialize(es[k..])
    ensures k < |es| ==> raw[cursor..] == SerializeEntry(es[k]) + Serialize(es[k + 1..])
  {
    hide SerializeEntry;
    var done, left := es[..k], es[k..];
    assert es == done + left;
    SerializeAppend(done, left);
    SameTail(raw, cursor, Serialize(done), Serialize(left));
    if k < |es| {
      SerializeHead(left);
      assert left[0] == es[k] && left[1..] == es[k + 1..];
    }
  }

  lemma SameTail(raw: Bytes, cursor: nat, head: Bytes, tail: Bytes)
    requires cursor <= |raw| && raw == head + tail && raw[..cursor] == head
    ensures raw[cursor..] == tail
  {}

  lemma HeadCut(raw: Bytes, cursor: nat, e: Entry, rest: Bytes)
    requires AdmissibleEntry(e) && cursor <= |raw| && raw[cursor..] == SerializeEntry(e) + rest
    ensures cursor < |raw| && CutEntry(raw, cursor).Cut? && EntryOf(CutEntry(raw, cursor)) == e
    ensures raw[CutEntry(raw, cursor).next..] == rest
  {
    AdmissibleIsDelimited(e);
    SliceOf(raw, cursor, SerializeEntry(e), rest);
    CutSerialized(raw, cursor, e, rest);
    HexUnhex(e.oid);
  }

  /** When the bytes encode `es`, the loop cannot be anywhere but between two entries of `es`. */
  lemma OnTrack(raw: Bytes, cursor: nat, es: seq<Entry>, k: nat)
    requires Admissible(es) && raw == Serialize(es) && k <= |es|
    requires Consumed(raw, cursor, es[..k])
    ensures k < |es| <==> cursor < |raw|
    ensures cursor < |raw| ==> CutEntry(raw, cursor).Cut? && EntryOf(CutEntry(raw, cursor)) == es[k]
  {
    hide AdmissibleEntry, Serialize, SerializeEntry, CutEntry, EntryOf;
    AdmissibleFullIds(es);
    Remaining(raw, cursor, es, k);
    if k < |es| {
      HeadCut(raw, cursor, es[k], Serialize(es[k + 1..]));
    } else {
      assert es[k..] == [];
      NothingSerialized();
    }
  }

  lemma AdmissibleFullIds(es: seq<Entry>)
    requires Admissible(es)
    ensures FullIds(es)
  {}

  lemma NextIsNew(es: seq<Entry>, k: nat)
    requires Admissible(es) && DistinctNames(es) && k < |es|
    ensures es[..k + 1] == es[..k] + [es[k]]
    ensures es[k].name !in EntryNames(es[..k])
    ensures AdmissibleEntry(es[k]) && Ascii(es[k].mode) && ValidUtf8(es[k].name)
  {
  }

  predicate Decodable(c: Cut)
    requires c.Cut?
  {
    Ascii(c.mode) && ValidUtf8(c.name)
  }

  lemma DecodableEntry(raw: Bytes, cursor: nat)
    requires cursor < |raw| && CutEntry(raw, cursor).Cut? && AdmissibleEntry(EntryOf(CutEntry(raw, cursor)))
    ensures Decodable(CutEntry(raw, cursor)) && EntryOf(CutEntry(raw, cursor)).name == CutEntry(raw, cursor).name
  {
  }

  /** One turn of the parsing loop, from the search for the delimiters to the
      three tests that report but do not stop it. */
  method ParseEntry(raw: Bytes, cursor: nat, names: set<Bytes>, violations: ViolationList, budget: EntryBudget)
      returns (cut: Cut)
    requires cursor < |raw|
    modifies violations, budget
    ensures old(violations.items) <= violations.items
    ensures cut.Malformed? ==> violations.items != old(violations.items)
    ensures cut.Malformed? <==>
      || CutEntry(raw, cursor).Malformed?
      || old(budget.entries) >= MAX_PARSED_TREE_ENTRIES
      || !Decodable(CutEntry(raw, cursor))
    ensures cut.Cut? ==>
      && cut == CutEntry(raw, cursor)
      && budget.entries == old(budget.entries) + 1 <= MAX_PARSED_TREE_ENTRIES
      && budget.exceeded == old(budget.exceeded)
      && (violations.items == old(violations.items) <==> AdmissibleEntry(EntryOf(cut)) && cut.name !in names)
    ensures budget.entries <= old(budget.entries) + 1
    ensures old(budget.entries) >= MAX_PARSED_TREE_ENTRIES ==> budget.entries == old(budget.entries)
  {
    cut := CutEntry(raw, cursor);
    if cut.Malformed? {
      violations.Append(MalformedTreeEntry);
      return;
    }
    if budget.entries >= MAX_PARSED_TREE_ENTRIES {
      budget.exceeded := true;
      violations.Append(TreeEntryBudget);
      return Malformed;
    }
    budget.entries := budget.entries + 1;
    if !Decodable(cut) {
      violations.Append(UndecodableTreeText);
      return Malformed;
    }
    if KindOfMode(cut.mode) == InvalidKind {
      violations.Append(UnsupportedMode);
    }
    if !SafeGitPath(cut.name) || '/' in cut.name {
      violations.Append(UnsafeEntryName);
    }
    if cut.name in names {
      violations.Append(DuplicateEntryName);
    }
  }

  /** The parsing loop.  It stops early, with an empty list, on a malformed
      entry, on an exhausted budget and on undecodable text.  The ghost list is
      the one the bytes encode within the budget, when there is one. */
  method ScanEntries(raw: Bytes, violations: ViolationList, budget: EntryBudget, ghost fits: bool, ghost es: seq<Entry>)
      returns (stopped: bool, entries: seq<Entry>, sortKeys: seq<Bytes>)
    requires AllBytes(raw)
    requires fits ==>
      && Admissible(es) && DistinctNames(es) && raw == Serialize(es)
      && budget.entries + |es| <= MAX_PARSED_TREE_ENTRIES
    modifies violations, budget
    ensures old(violations.items) <= violations.items
    ensures stopped ==> entries == [] && violations.items != old(violations.items)
    ensures !stopped ==>
      && Consumed(raw, |raw|, entries) && sortKeys == SortKeys(entries)
      && budget.entries == old(budget.entries) + |entries|
      && budget.exceeded == old(budget.exceeded)
      && (entries == [] || budget.entries <= MAX_PARSED_TREE_ENTRIES)
    ensures !stopped && violations.items == old(violations.items) ==> Admissible(entries) && DistinctNames(entries)
    ensures fits ==> violations.items == old(violations.items) && entries == es
    ensures old(budget.entries) <= MAX_PARSED_TREE_ENTRIES ==> budget.entries <= MAX_PARSED_TREE_ENTRIES
  {
    hide *;
    entries, sortKeys := [], [];
    var names: set<Bytes> := {};
    var cursor := 0;
    ScanStart(raw);
    while cursor < |raw|
      invariant Scanned(raw, cursor, entries, names, sortKeys)
      invariant old(violations.items) <= violations.items
      invariant budget.entries == old(budget.entries) + |entries| && budget.exceeded == old(budget.exceeded)
      invariant entries == [] || budget.entries <= MAX_PARSED_TREE_ENTRIES
      invariant violations.items == old(violations.items) ==> Admissible(entries) && DistinctNames(entries)
      invariant fits ==> |entries| <= |es| && entries == es[..|entries|]
      invariant fits ==> violations.items == old(violations.items)
      decreases |raw| - cursor
    {
      ScanEnd(raw, cursor, entries, names, sortKeys);
      if fits {
        OnTrack(raw, cursor, es, |entries|);
        NextIsNew(es, |entries|);
        DecodableEntry(raw, cursor);
      }
      var cut := ParseEntry(raw, cursor, names, violations, budget);
      if cut.Malformed? {
        return true, [], [];
      }
      Advance(raw, cursor, entries, names, sortKeys, cut);
      AppendEntry(entries, EntryOf(cut));
      names := names + {cut.name};
      sortKeys := sortKeys + [SortKey(EntryOf(cut))];
      entries := entries + [EntryOf(cut)];
      cursor := cut.next;
    }
    ScanEnd(raw, cursor, entries, names, sortKeys);
    if fits {
      OnTrack(raw, cursor, es, |entries|);
      assert es[..|es|] == es;
    }
    return false, entries, sortKeys;
  }

  /** `parse_raw_git_tree`: accepts exactly the serialised forms of canonical
      entry lists that fit the entry budget, and returns that list. */
  method ParseRawTree(raw: Bytes, violations: ViolationList, budget: EntryBudget) returns (entries: seq<Entry>)
    requires AllBytes(raw)
    modifies violations, budget
    ensures old(violations.items) <= violations.items
    ensures violations.items == old(violations.items) <==> Accepts(raw, old(budget.entries))
    ensures violations.items == old(violations.items) ==>
      && Encodes(raw, entries)
      && budget.entries == old(budget.entries) + |entries|
      && budget.exceeded == old(budget.exceeded)
    ensures old(budget.entries) <= MAX_PARSED_TREE_ENTRIES ==> budget.entries <= MAX_PARSED_TREE_ENTRIES
  {
    ghost var fits, es: seq<Entry> := Accepts(raw, budget.entries), [];
    if fits {
      es :| Encodes(raw, es) && budget.entries + |es| <= MAX_PARSED_TREE_ENTRIES;
    }
    var stopped, sortKeys;
    stopped, entries, sortKeys := ScanEntries(raw, violations, budget, fits, es);
    if stopped {
      return;
    }
    if entries == [] {
      violations.Append(EmptyTree);
    }
    if !Ascending(sortKeys) {
      violations.Append(TreeOutOfOrder);
    }
    assert raw[..|raw|] == raw;
  }
}
