/** Base64 as section 4 of RFC 4648 defines it: the encoder, the build script's
    decoder, and the length the checker predicts before it decodes. */
module Base64 {
  import opened ByteStrings
  import opened Results
  import opened Violations

  // ----- the alphabet

  function SextetChar(v: nat): (c: char)
    requires v < 64
    ensures c as int < 128 && c != '='
  {
    if v < 26 then ('A' as int + v) as char
    else if v < 52 then ('a' as int + v - 26) as char
    else if v < 62 then ('0' as int + v - 52) as char
    else if v == 62 then '+' else '/'
  }

  function Sextet(c: char): (r: Option<nat>)
    ensures r.Some? ==> r.value < 64
  {
    if 'A' <= c <= 'Z' then Some(c as int - 'A' as int)
    else if 'a' <= c <= 'z' then Some(c as int - 'a' as int + 26)
    else if '0' <= c <= '9' then Some(c as int - '0' as int + 52)
    else if c == '+' then Some(62)
    else if c == '/' then Some(63)
    else None
  }

  lemma SextetOfChar(v: nat)
    requires v < 64
    ensures Sextet(SextetChar(v)) == Some(v)
  {
  }

  // ----- encoding

  /** The sextets of three bytes. */
  function First(a: nat): nat
    requires a < 256
  { a / 4 }

  function Second(a: nat, b: nat): nat
    requires a < 256 && b < 256
  { a % 4 * 16 + b / 16 }

  function Third(b: nat, c: nat): nat
    requires b < 256 && c < 256
  { b % 16 * 4 + c / 64 }

  function Fourth(c: nat): nat
    requires c < 256
  { c % 64 }

  function Encode(b: Bytes): (s: Bytes)
    requires AllBytes(b)
    ensures |s| == (|b| + 2) / 3 * 4
  {
    if |b| == 0 then []
    else
      var x := b[0] as int;
      if |b| == 1 then
        [SextetChar(First(x)), SextetChar(Second(x, 0)), '=', '=']
      else
        var y := b[1] as int;
        if |b| == 2 then
          [SextetChar(First(x)), SextetChar(Second(x, y)), SextetChar(Third(y, 0)), '=']
        else
          var z := b[2] as int;
          [SextetChar(First(x)), SextetChar(Second(x, y)), SextetChar(Third(y, z)), SextetChar(Fourth(z))]
            + Encode(b[3..])
  }

  // ----- decoding

  /** The bytes of four sextets.  Shifts are on eight bits, and the operands of
      each `|` have no bit in common, so `|` is a sum. */
  function Byte1(a: nat, b: nat): (n: nat)
    requires a < 64 && b < 64
    ensures n < 256
  { a * 4 % 256 + b / 16 }

  function Byte2(b: nat, c: nat): (n: nat)
    requires b < 64 && c < 64
    ensures n < 256
  {
    assert b * 16 % 256 == b % 16 * 16;
    b * 16 % 256 + c / 4
  }

  function Byte3(c: nat, d: nat): (n: nat)
    requires c < 64 && d < 64
    ensures n < 256
  {
    assert c * 64 % 256 == c % 4 * 64;
    c * 64 % 256 + d
  }

  /** The bytes of one group of four characters. */
  function DecodeGroup(p: char, q: char, r: char, s: char): (out: Option<Bytes>)
    ensures out.Some? ==> AllBytes(out.value)
  {
    hide Byte1, Byte2, Byte3, Sextet;
    var a, b := Sextet(p), Sextet(q);
    var c, d := if r == '=' then Some(0) else Sextet(r), if s == '=' then Some(0) else Sextet(s);
    if a.None? || b.None? || c.None? || d.None? then None
    else
      Some([Byte1(a.value, b.value) as char]
           + (if r == '=' then [] else [Byte2(b.value, c.value) as char])
           + (if s == '=' then [] else [Byte3(c.value, d.value) as char]))
  }

  function Decode(input: Bytes): (out: Option<Bytes>)
    ensures out.Some? ==> |input| % 4 == 0 && AllBytes(out.value)
  {
    if |input| % 4 != 0 then None
    else if input == [] then Some([])
    else
      var head, tail := DecodeGroup(input[0], input[1], input[2], input[3]), Decode(input[4..]);
      if head.None? || tail.None? then None else Some(head.value + tail.value)
  }

  /** `decode_base64`. */
  method DecodeBase64(input: Bytes) returns (r: Result<Bytes>)
    ensures r.Ok? <==> Decode(input).Some?
    ensures r.Ok? ==> Decode(input) == Some(r.value)
  {
    if |input| % 4 != 0 {
      return Err;
    }
    hide Decode, DecodeGroup;
    var decoded: Bytes := [];
    var i := 0;
    DecodeStart(input);
    while i < |input|
      invariant i <= |input| && i % 4 == 0 && |input| % 4 == 0
      invariant Decode(input) == After(decoded, Decode(input[i..]))
    {
      DecodeStep(input, i, decoded);
      var group := DecodeGroup(input[i], input[i + 1], input[i + 2], input[i + 3]);
      if group.None? {
        return Err;
      }
      decoded := decoded + group.value;
      i := i + 4;
    }
    DecodeNothing(decoded);
    assert input[i..] == [];
    return Ok(decoded);
  }

  function After(done: Bytes, rest: Option<Bytes>): Option<Bytes> {
    match rest
    case None => None
    case Some(more) => Some(done + more)
  }

  lemma DecodeStart(input: Bytes)
    ensures Decode(input) == After([], Decode(input[0..]))
  {
    hide Decode;
    assert input[0..] == input;
    assert Decode(input).Some? ==> [] + Decode(input).value == Decode(input).value;
  }

  lemma DecodeNothing(done: Bytes)
    ensures After(done, Decode([])) == Some(done)
  {
    assert done + [] == done;
  }

  lemma DecodeCons(input: Bytes)
    requires |input| >= 4 && |input| % 4 == 0
    ensures var head, tail := DecodeGroup(input[0], input[1], input[2], input[3]), Decode(input[4..]);
      Decode(input) == if head.None? || tail.None? then None else Some(head.value + tail.value)
  {
    hide DecodeGroup;
  }

  lemma DecodeStep(input: Bytes, i: nat, done: Bytes)
    requires i < |input| && i % 4 == 0 && |input| % 4 == 0
    ensures i + 4 <= |input|
    ensures var group := DecodeGroup(input[i], input[i + 1], input[i + 2], input[i + 3]);
      After(done, Decode(input[i..])) ==
        if group.None? then None else After(done + group.value, Decode(input[i + 4..]))
  {
    hide DecodeGroup, Decode;
    DecodeCons(input[i..]);
    assert input[i..][4..] == input[i + 4..];
    var group, tail := DecodeGroup(input[i], input[i + 1], input[i + 2], input[i + 3]), Decode(input[i + 4..]);
    assert group.Some? && tail.Some? ==> done + (group.value + tail.value) == done + group.value + tail.value;
  }

  lemma FirstByteBack(x: nat, y: nat)
    requires x < 256 && y < 256
    ensures First(x) < 64 && Second(x, y) < 64 && Byte1(First(x), Second(x, y)) == x
  {
    assert (x % 4 * 16 + y / 16) / 16 == x % 4;
  }

  lemma SecondByteBack(x: nat, y: nat, z: nat)
    requires x < 256 && y < 256 && z < 256
    ensures Second(x, y) < 64 && Third(y, z) < 64 && Byte2(Second(x, y), Third(y, z)) == y
  {
    var b := Second(x, y);
    assert b % 16 == y / 16;
    assert b * 16 % 256 == b % 16 * 16;
    assert (y % 16 * 4 + z / 64) / 4 == y % 16;
  }

  lemma ThirdByteBack(y: nat, z: nat)
    requires y < 256 && z < 256
    ensures Third(y, z) < 64 && Fourth(z) < 64 && Byte3(Third(y, z), Fourth(z)) == z
  {
    var c := Third(y, z);
    assert c % 4 == z / 64;
    assert c * 64 % 256 == c % 4 * 64;
  }

  lemma SextetArithmetic(x: nat, y: nat, z: nat)
    requires x < 256 && y < 256 && z < 256
    ensures First(x) < 64 && Second(x, y) < 64 && Third(y, z) < 64 && Fourth(z) < 64
    ensures Byte1(First(x), Second(x, y)) == x
    ensures Byte2(Second(x, y), Third(y, z)) == y
    ensures Byte3(Third(y, z), Fourth(z)) == z
  {
    hide *;
    FirstByteBack(x, y);
    SecondByteBack(x, y, z);
    ThirdByteBack(y, z);
  }

  lemma GroupRoundTrip(x: nat, y: nat, z: nat)
    requires x < 256 && y < 256 && z < 256
    ensures DecodeGroup(SextetChar(First(x)), SextetChar(Second(x, y)), SextetChar(Third(y, z)), SextetChar(Fourth(z)))
      == Some([x as char, y as char, z as char])
    ensures DecodeGroup(SextetChar(First(x)), SextetChar(Second(x, y)), SextetChar(Third(y, 0)), '=')
      == Some([x as char, y as char])
    ensures DecodeGroup(SextetChar(First(x)), SextetChar(Second(x, 0)), '=', '=') == Some([x as char])
  {
    hide Sextet, SextetChar, First, Second, Third, Fourth, Byte1, Byte2, Byte3;
    assert [x as char] + [y as char] + [z as char] == [x as char, y as char, z as char];
    assert [x as char] + [y as char] + [] == [x as char, y as char];
    assert [x as char] + [] + [] == [x as char];
    SextetArithmetic(x, y, z);
    SextetArithmetic(x, y, 0);
    SextetArithmetic(x, 0, 0);
    SextetOfChar(First(x));
    SextetOfChar(Second(x, y));
    SextetOfChar(Second(x, 0));
    SextetOfChar(Third(y, z));
    SextetOfChar(Third(y, 0));
    SextetOfChar(Fourth(z));
  }

  /** Decoding undoes encoding for every byte string. */
  lemma {:induction false} DecodeEncode(b: Bytes)
    requires AllBytes(b)
    ensures Decode(Encode(b)) == Some(b)
    decreases |b|
  {
    hide DecodeGroup, SextetChar, First, Second, Third, Fourth, Decode;
    DecodedEmpty();
    if b != [] {
      GroupRoundTrip(b[0] as int, if |b| > 1 then b[1] as int else 0, if |b| > 2 then b[2] as int else 0);
      var s := Encode(b);
      DecodeCons(s);
      if |b| == 1 {
        assert s[4..] == [];
        assert [b[0]] + [] == b;
      } else if |b| == 2 {
        assert s[4..] == [];
        assert [b[0], b[1]] + [] == b;
      } else {
        DecodeEncode(b[3..]);
        assert s[4..] == Encode(b[3..]);
        assert [b[0], b[1], b[2]] + b[3..] == b;
      }
    }
  }

  lemma DecodedEmpty()
    ensures Decode([]) == Some([])
  {}

  lemma EncodeInjective(a: Bytes, b: Bytes)
    requires AllBytes(a) && AllBytes(b) && Encode(a) == Encode(b)
    ensures a == b
  {
    DecodeEncode(a);
    DecodeEncode(b);
  }

  // ----- the predicted length

  /** `declared_canonical_base64_length`. */
  function DeclaredLength(encoded: Bytes): Option<int> {
    if |encoded| % 4 != 0 then None
    else
      var first := Find(encoded, '=', 0);
      if first < 0 then Some(|encoded| / 4 * 3)
      else
        var padding := |encoded| - first;
        if padding > 2 || (exists i :: first <= i < |encoded| && encoded[i] != '=') then None
        else Some(|encoded| / 4 * 3 - padding)
  }

  function PaddingOf(n: nat): nat {
    if n % 3 == 0 then 0 else 3 - n % 3
  }

  /** The padding characters of an encoding are exactly its last ones. */
  lemma {:induction false} PaddingPlace(b: Bytes, i: nat)
    requires AllBytes(b) && i < |Encode(b)|
    ensures Encode(b)[i] == '=' <==> i >= |Encode(b)| - PaddingOf(|b|)
  {
    hide Encode, PaddingOf;
    if |b| < 3 {
      ShortPadding(b, i);
    } else {
      LongEncoding(b);
      if i >= 4 {
        PaddingPlace(b[3..], i - 4);
        assert Encode(b)[i] == Encode(b)[4..][i - 4];
      }
    }
  }

  lemma ShortPadding(b: Bytes, i: nat)
    requires AllBytes(b) && |b| < 3 && i < |Encode(b)|
    ensures Encode(b)[i] == '=' <==> i >= |Encode(b)| - PaddingOf(|b|)
  {
    hide Encode;
    ShortEncoding(b);
  }

  /** One byte ends in two padding characters, two bytes in one. */
  lemma ShortEncoding(b: Bytes)
    requires AllBytes(b) && 1 <= |b| <= 2
    ensures var s := Encode(b); |s| == 4 && s[0] != '=' && s[1] != '=' && (s[2] == '=' <==> |b| == 1) && s[3] == '='
  {
    hide SextetChar, First, Second, Third, Fourth;
  }

  lemma LongEncoding(b: Bytes)
    requires AllBytes(b) && |b| >= 3
    ensures |Encode(b)| >= 4 && Encode(b)[4..] == Encode(b[3..]) && PaddingOf(|b|) == PaddingOf(|b| - 3)
    ensures forall i :: 0 <= i < 4 ==> Encode(b)[i] != '='
    ensures |Encode(b[3..])| >= PaddingOf(|b| - 3)
  {
    hide SextetChar, First, Second, Third, Fourth;
  }

  /** On every canonical encoding the prediction is the real decoded length. */
  lemma DeclaredLengthExact(b: Bytes)
    requires AllBytes(b)
    ensures DeclaredLength(Encode(b)) == Some(|b|)
  {
    hide Encode;
    var s := Encode(b);
    forall i | 0 <= i < |s| ensures s[i] == '=' <==> i >= |s| - PaddingOf(|b|) {
      PaddingPlace(b, i);
    }
    var first := Find(s, '=', 0);
    assert |s| >= PaddingOf(|b|) && (PaddingOf(|b|) > 0 ==> s[|s| - PaddingOf(|b|)] == '=');
    assert first == if PaddingOf(|b|) == 0 then -1 else |s| - PaddingOf(|b|);
  }

  // ----- the strict decoder

  /** `encoded` is the canonical encoding of `raw`. */
  ghost predicate Encodes64(encoded: Bytes, raw: Bytes) {
    AllBytes(raw) && encoded == Encode(raw)
  }

  /** `decode_canonical_base64`: decodes, re-encodes and compares. */
  method DecodeCanonical(encoded: Bytes, maxDecoded: nat, maxEncoded: nat, violations: ViolationList)
      returns (raw: Option<Bytes>)
    modifies violations
    ensures raw.None? <==> violations.items != old(violations.items)
    ensures old(violations.items) <= violations.items
    ensures raw.Some? ==> Encodes64(encoded, raw.value) && |raw.value| <= maxDecoded && |encoded| <= maxEncoded
    ensures forall b :: Encodes64(encoded, b) && |b| <= maxDecoded && |encoded| <= maxEncoded ==> raw == Some(b)
  {
    hide Encode, Decode;
    forall b | Encodes64(encoded, b) ensures Decode(encoded) == Some(b) {
      DecodeEncode(b);
    }
    if |encoded| > maxEncoded {
      violations.Append(EncodedTooLong);
      return None;
    }
    var decoded := Decode(encoded);
    if decoded.None? {
      violations.Append(NotBase64);
      return None;
    }
    if |decoded.value| > maxDecoded || Encode(decoded.value) != encoded {
      violations.Append(NotCanonicalBase64);
      return None;
    }
    return decoded;
  }

  /** The comparison makes the choice of library decoder immaterial: any
      decoder that undoes the encoder accepts the same strings. */
  lemma AnyDecoderAgrees(library: Bytes -> Option<Bytes>, encoded: Bytes, raw: Bytes)
    requires forall b :: AllBytes(b) ==> library(Encode(b)) == Some(b)
    requires AllBytes(raw)
    ensures library(encoded) == Some(raw) && Encode(raw) == encoded <==> Decode(encoded) == Some(raw) && Encode(raw) == encoded
  {
    hide Encode, Decode;
    DecodeEncode(raw);
  }
}
