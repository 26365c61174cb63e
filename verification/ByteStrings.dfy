/** Byte strings, hexadecimal object IDs, byte order and Git object framing.

    A byte string is a string whose characters are below 256, so that byte
    literals can be written as string literals.  A Python `str` is held as its UTF-8 encoding: strict
    decoding is then a validity test, and code-point order is byte order. */
module ByteStrings {

  type Bytes = seq<char>

  /** Every element is a byte: what the source's `bytes` type promises. */
  ghost predicate AllBytes(s: Bytes) {
    forall i :: 0 <= i < |s| ==> s[i] as int < 256
  }

  /** The kinds a Git object, or a tree entry that refers to one, can claim. */
  datatype Kind = CommitKind | TreeKind | BlobKind | InvalidKind

  // ----- searching

  /** `s.find(c, from)`: the first occurrence at or after `from`, or -1. */
  function Find(s: seq<char>, c: char, from: nat): (k: int)
    ensures k == -1 || from <= k < |s|
    ensures k >= 0 ==> s[k] == c
    ensures forall i :: from <= i < (if k < 0 then |s| else k) ==> s[i] != c
    decreases |s| - from
  {
    if from >= |s| then -1
    else if s[from] == c then from
    else Find(s, c, from + 1)
  }

  /** Inside `a + [c] + b`, where `a` is free of `c`, the search stops exactly at the separator. */
  lemma FindSeparator(s: seq<char>, from: nat, a: seq<char>, c: char, b: seq<char>)
    requires from <= |s| && s[from..] == a + ([c] + b)
    requires c !in a
    ensures Find(s, c, from) == from + |a|
  {
    var at := from + |a|;
    assert s[at] == s[from..][|a|] == c;
    assert forall i :: from <= i < at ==> s[i] == s[from..][i - from] == a[i - from];
  }

  lemma SliceOf<T>(s: seq<T>, from: nat, a: seq<T>, b: seq<T>)
    requires from <= |s| && s[from..] == a + b
    ensures from + |a| <= |s| && s[from..from + |a|] == a && s[from + |a|..] == b
  {
    assert s[from..from + |a|] == s[from..][..|a|];
    assert s[from + |a|..] == s[from..][|a|..];
  }

  /** A separator-free head followed by the separator is determined by the whole. */
  lemma SplitUnique(a: seq<char>, b: seq<char>, c: char, x: seq<char>, y: seq<char>)
    requires c !in a && c !in b
    requires a + [c] + x == b + [c] + y
    ensures a == b && x == y
  {
    var s := a + [c] + x;
    assert s[0..] == s == a + ([c] + x) == b + ([c] + y);
    FindSeparator(s, 0, a, c, x);
    FindSeparator(s, 0, b, c, y);
    assert a == s[..|a|] && b == s[..|b|];
    assert x == s[|a| + 1..] && y == s[|b| + 1..];
  }

  // ----- hexadecimal

  predicate IsHexDigit(c: char) {
    '0' <= c <= '9' || 'a' <= c <= 'f'
  }

  function HexDigit(v: nat): (c: char)
    requires v < 16
    ensures IsHexDigit(c)
  {
    if v < 10 then ('0' as int + v) as char else ('a' as int + v - 10) as char
  }

  function HexValue(c: char): (v: nat)
    requires IsHexDigit(c)
    ensures v < 16 && HexDigit(v) == c
  {
    if c <= '9' then c as int - '0' as int else c as int - 'a' as int + 10
  }

  /** `FULL_SHA.fullmatch`: forty lower-case hexadecimal digits. */
  predicate FullSha(s: seq<char>) {
    |s| == 40 && forall i :: 0 <= i < |s| ==> IsHexDigit(s[i])
  }

  /** `bytes.hex()`. */
  function Hex(b: Bytes): (s: Bytes)
    ensures |s| == 2 * |b|
    ensures forall i :: 0 <= i < |s| ==> IsHexDigit(s[i])
  {
    if b == [] then []
    else [HexDigit(b[0] as int / 16 % 16), HexDigit(b[0] as int % 16)] + Hex(b[1..])
  }

  /** `bytes.fromhex`. */
  function Unhex(s: Bytes): (b: Bytes)
    requires |s| % 2 == 0
    requires forall i :: 0 <= i < |s| ==> IsHexDigit(s[i])
    ensures 2 * |b| == |s|
  {
    if s == [] then []
    else [(16 * HexValue(s[0]) + HexValue(s[1])) as char] + Unhex(s[2..])
  }

  lemma {:induction false} UnhexHex(b: Bytes)
    requires AllBytes(b)
    ensures Unhex(Hex(b)) == b
  {
    if b != [] {
      UnhexHex(b[1..]);
      var s := Hex(b);
      assert s[2..] == Hex(b[1..]);
      var n := b[0] as int;
      assert HexValue(s[0]) == n / 16 && HexValue(s[1]) == n % 16;
    }
  }

  lemma {:induction false} HexUnhex(s: Bytes)
    requires |s| % 2 == 0
    requires forall i :: 0 <= i < |s| ==> IsHexDigit(s[i])
    ensures Hex(Unhex(s)) == s
  {
    if s != [] {
      HexUnhex(s[2..]);
      var hi, lo := HexValue(s[0]), HexValue(s[1]);
      var b := Unhex(s);
      assert b[0] as int == 16 * hi + lo;
      assert b[0] as int / 16 == hi && b[0] as int % 16 == lo;
      assert b[1..] == Unhex(s[2..]);
      assert Hex(b) == [s[0], s[1]] + s[2..];
    }
  }

  // ----- order

  /** Lexicographic order on byte strings, reflexive. */
  predicate LexLe(a: seq<char>, b: seq<char>) {
    a == [] || (b != [] && (a[0] < b[0] || (a[0] == b[0] && LexLe(a[1..], b[1..]))))
  }

  lemma {:induction false} LexLeAntisymmetric(a: seq<char>, b: seq<char>)
    requires LexLe(a, b) && LexLe(b, a)
    ensures a == b
  {
    if a != [] && b != [] {
      LexLeAntisymmetric(a[1..], b[1..]);
      assert a == [a[0]] + a[1..] && b == [b[0]] + b[1..];
    }
  }

  lemma {:induction false} LexLeTransitive(a: seq<char>, b: seq<char>, c: seq<char>)
    requires LexLe(a, b) && LexLe(b, c)
    ensures LexLe(a, c)
  {
    if a != [] && a[0] == b[0] == c[0] {
      LexLeTransitive(a[1..], b[1..], c[1..]);
    }
  }

  lemma {:induction false} LexLeTotal(a: seq<char>, b: seq<char>)
    ensures LexLe(a, b) || LexLe(b, a)
  {
    if a != [] && b != [] {
      LexLeTotal(a[1..], b[1..]);
    }
  }

  /** `keys == sorted(keys)` for byte-string keys. */
  predicate Ascending(keys: seq<Bytes>) {
    forall i, j :: 0 <= i < j < |keys| ==> LexLe(keys[i], keys[j])
  }

  // ----- text

  predicate Continuation(c: char) {
    0x80 <= c as int < 0xC0
  }

  /** Strict UTF-8, section 4 of RFC 3629: no overlong form, no surrogate, nothing past U+10FFFF. */
  predicate ValidUtf8(s: Bytes) {
    if s == [] then true
    else
      var b := s[0] as int;
      if b < 0x80 then ValidUtf8(s[1..])
      else if 0xC2 <= b < 0xE0 then
        |s| >= 2 && Continuation(s[1]) && ValidUtf8(s[2..])
      else if 0xE0 <= b < 0xF0 then
        && |s| >= 3 && Continuation(s[1]) && Continuation(s[2])
        && (b == 0xE0 ==> s[1] as int >= 0xA0) && (b == 0xED ==> (s[1] as int) < 0xA0)
        && ValidUtf8(s[3..])
      else if 0xF0 <= b < 0xF5 then
        && |s| >= 4 && Continuation(s[1]) && Continuation(s[2]) && Continuation(s[3])
        && (b == 0xF0 ==> s[1] as int >= 0x90) && (b == 0xF4 ==> (s[1] as int) < 0x90)
        && ValidUtf8(s[4..])
      else false
  }

  predicate Ascii(s: seq<char>) {
    forall i :: 0 <= i < |s| ==> s[i] as int < 128
  }

  // ----- decimal numerals and object framing

  function Digit(v: nat): (c: char)
    requires v < 10
    ensures '0' <= c <= '9' && c as int - '0' as int == v
  {
    ('0' as int + v) as char
  }

  function Decimal(n: nat): (s: Bytes)
    ensures |s| > 0
    ensures forall i :: 0 <= i < |s| ==> '0' <= s[i] <= '9'
  {
    if n < 10 then [Digit(n)] else Decimal(n / 10) + [Digit(n % 10)]
  }

  /** The value a plain decimal numeral denotes. */
  function DecimalValue(s: seq<char>): (n: nat)
    requires forall i :: 0 <= i < |s| ==> '0' <= s[i] <= '9'
  {
    if s == [] then 0
    else 10 * DecimalValue(s[..|s| - 1]) + (s[|s| - 1] as int - '0' as int)
  }

  lemma {:induction false} DecimalReadsBack(n: nat)
    ensures DecimalValue(Decimal(n)) == n
  {
    if n < 10 {
      assert DecimalValue([]) == 0;
      assert [Digit(n)][..0] == [];
    } else {
      DecimalReadsBack(n / 10);
      var s := Decimal(n);
      assert s[..|s| - 1] == Decimal(n / 10);
    }
  }

  function KindName(k: Kind): Bytes {
    match k
    case CommitKind => "commit"
    case TreeKind => "tree"
    case BlobKind => "blob"
    case InvalidKind => "invalid"
  }

  const NUL: char := 0 as char

  /** The bytes Git hashes for an object: `f"{kind} {len(raw)}\0" + raw`. */
  function Framed(k: Kind, raw: Bytes): Bytes {
    KindName(k) + [' '] + Decimal(|raw|) + [NUL] + raw
  }

  /** Framing loses nothing, so an object ID computed without collisions fixes kind and body. */
  lemma FramedInjective(k: Kind, raw: Bytes, k': Kind, raw': Bytes)
    requires Framed(k, raw) == Framed(k', raw')
    ensures k == k' && raw == raw'
  {
    var head, head' := KindName(k) + [' '] + Decimal(|raw|), KindName(k') + [' '] + Decimal(|raw'|);
    assert NUL !in head && NUL !in head';
    SplitUnique(head, head', NUL, raw, raw');
    assert Framed(k, raw)[0] == KindName(k)[0] && Framed(k', raw')[0] == KindName(k')[0];
  }

  /** Object IDs are SHA-1 values.  The digest itself is a parameter of every validator. */
  type Digest = Bytes -> Bytes

  function ObjectId(sha1: Digest, k: Kind, raw: Bytes): Bytes {
    sha1(Framed(k, raw))
  }
}
