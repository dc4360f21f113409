/**
 Numbers and strings as bytes: fixed-width little-endian, varints, and length-prefixed slices.
 */
module Coding {
  import opened Mvcc

  const TWO32 := 0x1_0000_0000
  const TWO64 := 0x1_0000_0000_0000_0000

  type Word = x: int | 0 <= x < 0x1_0000_0000
  type Long = x: int | 0 <= x < 0x1_0000_0000_0000_0000

  // What a decoder reports.
  datatype Status = Ok | Corruption(message: string)

  // ----- Fixed width

  function EncodeFixed32(x: Word): (b: Bytes)
    ensures |b| == 4
  {
    [x % 256, x / 0x100 % 256, x / 0x1_0000 % 256, x / 0x100_0000]
  }

  function DecodeFixed32(b: Bytes): Word
    requires |b| == 4
  {
    b[0] as int + 0x100 * b[1] as int + 0x1_0000 * b[2] as int + 0x100_0000 * b[3] as int
  }

  lemma {:induction false} FixedRoundTrip(x: Word)
    ensures DecodeFixed32(EncodeFixed32(x)) == x
  {
    assert x == x % 0x100 + 0x100 * (x / 0x100);
    assert x / 0x100 == x / 0x100 % 0x100 + 0x100 * (x / 0x1_0000);
    assert x / 0x1_0000 == x / 0x1_0000 % 0x100 + 0x100 * (x / 0x100_0000);
  }

  // The lowest byte comes first.
  lemma {:induction false} FixedFormat(x: Word)
    ensures EncodeFixed32(x)[0] == x % 256 && EncodeFixed32(x)[1] == x / 0x100 % 256
    ensures EncodeFixed32(x)[2] == x / 0x1_0000 % 256 && EncodeFixed32(x)[3] == x / 0x100_0000 % 256
  {
    assert x / 0x100_0000 < 256;
  }

  function EncodeFixed64(x: Long): (b: Bytes)
    ensures |b| == 8
  {
    EncodeFixed32(x % TWO32) + EncodeFixed32(x / TWO32)
  }

  function DecodeFixed64(b: Bytes): Long
    requires |b| == 8
  {
    DecodeFixed32(b[..4]) as int + TWO32 * DecodeFixed32(b[4..]) as int
  }

  lemma {:induction false} Fixed64RoundTrip(x: Long)
    ensures DecodeFixed64(EncodeFixed64(x)) == x
  {
    var lo, hi := EncodeFixed32(x % TWO32), EncodeFixed32(x / TWO32);
    FixedRoundTrip(x % TWO32);
    FixedRoundTrip(x / TWO32);
    hide EncodeFixed32, DecodeFixed32;
    assert (lo + hi)[..4] == lo && (lo + hi)[4..] == hi;
  }

  // ----- Varints: seven bits a byte, the high bit on all but the last

  function Varint(v: nat): (b: Bytes)
    ensures |b| > 0
  {
    if v < 128 then [v] else [v % 128 + 128] + Varint(v / 128)
  }

  // The unrolled 32-bit encoder.
  function EncodeVarint32(v: Word): (b: Bytes)
    ensures |b| <= 5
  {
    if v < 0x80 then [v]
    else if v < 0x4000 then [v % 0x80 + 128, v / 0x80]
    else if v < 0x20_0000 then [v % 0x80 + 128, v / 0x80 % 0x80 + 128, v / 0x4000]
    else if v < 0x1000_0000 then [v % 0x80 + 128, v / 0x80 % 0x80 + 128, v / 0x4000 % 0x80 + 128, v / 0x20_0000]
    else [v % 0x80 + 128, v / 0x80 % 0x80 + 128, v / 0x4000 % 0x80 + 128, v / 0x20_0000 % 0x80 + 128, v / 0x1000_0000]
  }

  lemma {:induction false} UnrolledIsVarint(v: Word)
    ensures EncodeVarint32(v) == Varint(v)
  {
    var a, b, c, d := v / 0x80, v / 0x4000, v / 0x20_0000, v / 0x1000_0000;
    assert a / 0x80 == b && b / 0x80 == c && c / 0x80 == d;
    if v >= 0x80 {
      assert Varint(v) == [v % 0x80 + 128] + Varint(a);
      if a >= 0x80 {
        assert Varint(a) == [a % 0x80 + 128] + Varint(b);
        if b >= 0x80 {
          assert Varint(b) == [b % 0x80 + 128] + Varint(c);
          if c >= 0x80 { assert Varint(c) == [c % 0x80 + 128] + Varint(d); }
        }
      }
    }
  }

  method EncodeVarint64(value: Long) returns (b: Bytes)
    ensures b == Varint(value)
  {
    var v: nat := value;
    b := [];
    while v >= 128
      invariant b + Varint(v) == Varint(value)
    {
      b := b + [v % 128 + 128];
      v := v / 128;
    }
    b := b + [v];
  }

  datatype Parsed<T> = Malformed | Parsed(value: T, rest: Bytes)

  // At most n bytes of varint.
  function GetVarint(b: Bytes, n: nat): Parsed<nat> {
    if n == 0 || b == [] then Malformed
    else if b[0] < 128 then Parsed(b[0] as int, b[1..])
    else match GetVarint(b[1..], n - 1)
      case Malformed => Malformed
      case Parsed(v, rest) => Parsed(b[0] as int - 128 + 128 * v, rest)
  }

  // Five bytes hold 35 bits, ten bytes hold 70: the excess is cut off.
  function GetVarint32(b: Bytes): Parsed<Word> {
    match GetVarint(b, 5)
    case Malformed => Malformed
    case Parsed(v, rest) => Parsed(v % TWO32, rest)
  }

  function GetVarint64(b: Bytes): Parsed<Long> {
    match GetVarint(b, 10)
    case Malformed => Malformed
    case Parsed(v, rest) => Parsed(v % TWO64, rest)
  }

  function Power128(n: nat): nat {
    if n == 0 then 1 else 128 * Power128(n - 1)
  }

  lemma {:induction false} VarintRoundTrip(v: nat, n: nat, rest: Bytes)
    requires n > 0 && v < Power128(n)
    ensures GetVarint(Varint(v) + rest, n) == Parsed(v, rest)
  {
    var b := Varint(v) + rest;
    if v < 128 {
      assert b[1..] == rest;
    } else {
      VarintRoundTrip(v / 128, n - 1, rest);
      assert b[1..] == Varint(v / 128) + rest;
    }
  }

  // The number that bytes stand for, seven bits to a byte, the lowest first.
  function Weighed(b: Bytes): nat {
    if b == [] then 0 else b[0] as int % 128 + 128 * Weighed(b[1..])
  }

  lemma {:induction false} VarintWeighs(v: nat)
    ensures Weighed(Varint(v)) == v
  {
    if v >= 128 {
      VarintWeighs(v / 128);
      assert Varint(v)[1..] == Varint(v / 128);
    } else {
      assert Varint(v)[1..] == [];
    }
  }

  // There is a mark on all bytes but the last, which is not zero unless it is the only one.
  lemma {:induction false} VarintFormat(v: nat, i: nat)
    requires i < |Varint(v)|
    ensures Varint(v)[i] >= 128 <==> i < |Varint(v)| - 1
    ensures i == |Varint(v)| - 1 > 0 ==> Varint(v)[i] != 0
  {
    if v >= 128 && i > 0 {
      VarintFormat(v / 128, i - 1);
    }
  }

  // A varint is read exactly if one of the first n bytes has no mark.
  lemma {:induction false} VarintParsesIff(b: Bytes, n: nat)
    ensures GetVarint(b, n).Parsed? <==> exists i :: 0 <= i < n && i < |b| && b[i] < 128
  {
    if n > 0 && b != [] && b[0] >= 128 {
      VarintParsesIff(b[1..], n - 1);
      if i :| 0 <= i < n && i < |b| && b[i] < 128 {
        assert b[1..][i - 1] < 128;
      }
    }
  }

  // And then it is the number that the bytes up to that one stand for.
  lemma {:induction false} VarintReads(b: Bytes, n: nat)
    requires GetVarint(b, n).Parsed?
    ensures var r := GetVarint(b, n);
            |r.rest| < |b| && b == b[..|b| - |r.rest|] + r.rest && r.value == Weighed(b[..|b| - |r.rest|])
  {
    if b[0] < 128 {
      assert b[..1][1..] == [];
    } else {
      VarintReads(b[1..], n - 1);
      var k := |b| - |GetVarint(b, n).rest|;
      assert b[..k][1..] == b[1..][..k - 1];
    }
  }

  // Of five bytes the low 32 bits count.
  lemma {:induction false} Varint32Reads(b: Bytes)
    ensures GetVarint32(b).Parsed? <==> exists i :: 0 <= i < 5 && i < |b| && b[i] < 128
    ensures var r := GetVarint32(b);
            r.Parsed? ==>
              |r.rest| < |b| && b == b[..|b| - |r.rest|] + r.rest
              && r.value as int == Weighed(b[..|b| - |r.rest|]) % 0x1_0000_0000
  {
    hide Weighed, GetVarint;
    VarintParsesIff(b, 5);
    if GetVarint32(b).Parsed? { VarintReads(b, 5); }
  }

  // So a varint that is cut off is not read.
  lemma {:induction false} VarintTruncated(v: nat, k: nat, n: nat)
    requires k < |Varint(v)|
    ensures GetVarint(Varint(v)[..k], n) == Malformed
  {
    VarintParsesIff(Varint(v)[..k], n);
    forall i | 0 <= i < k ensures Varint(v)[..k][i] >= 128 { VarintFormat(v, i); }
  }

  lemma {:induction false} Varint32RoundTrip(v: Word, rest: Bytes)
    ensures GetVarint32(Varint(v) + rest) == Parsed(v, rest)
  {
    assert Power128(5) == 128 * 128 * 128 * 128 * 128 by { assert Power128(3) == 128 * 128 * 128; }
    VarintRoundTrip(v, 5, rest);
  }

  lemma {:induction false} Varint64RoundTrip(v: Long, rest: Bytes)
    ensures GetVarint64(Varint(v) + rest) == Parsed(v, rest)
  {
    assert Power128(10) > TWO64 by {
      assert Power128(3) == 128 * 128 * 128;
      assert Power128(6) == 128 * 128 * 128 * Power128(3);
      assert Power128(9) == 128 * 128 * 128 * Power128(6);
    }
    VarintRoundTrip(v, 10, rest);
  }

  // The decoding loop: bytes are shifted into place, and cut off at the word's width.
  method GetVarint32Ptr(b: Bytes) returns (r: Parsed<Word>)
    ensures r == GetVarint32(b)
  {
    hide GetVarint, Over;
    var result: nat, place: nat, i := 0, 1, 0;
    assert b[0..] == b && GetVarint(b, 5) == Over(0, 1, GetVarint(b, 5)) by { OverNothing(GetVarint(b, 5)); }
    while i < 5 && i < |b|
      invariant i <= 5 && i <= |b|
      invariant GetVarint(b, 5) == Over(result, place, GetVarint(b[i..], 5 - i))
    {
      var byte := b[i] as int;
      assert b[i..][0] == b[i] && b[i..][1..] == b[i + 1..];
      OneByteMore(b[i..], 5 - i, result, place);
      if byte < 128 {
        result := result + place * byte;
        return Parsed(result % TWO32, b[i + 1..]);
      }
      result := result + place * (byte - 128);
      place := place * 128;
      i := i + 1;
    }
    NoByteMore(b[i..], 5 - i, result, place);
    return Malformed;
  }

  // What the bytes before, worth `result`, and those still to be read come to together.
  function Over(result: nat, place: nat, r: Parsed<nat>): Parsed<nat> {
    if r.Malformed? then Malformed else Parsed(result + place * r.value, r.rest)
  }

  lemma {:induction false} OverNothing(r: Parsed<nat>)
    ensures Over(0, 1, r) == r
  {
  }

  lemma {:induction false} OneByteMore(b: Bytes, n: nat, result: nat, place: nat)
    requires n > 0 && b != []
    ensures b[0] < 128 ==> Over(result, place, GetVarint(b, n)) == Parsed(result + place * b[0] as int, b[1..])
    ensures b[0] >= 128 ==>
              Over(result, place, GetVarint(b, n))
              == Over(result + place * (b[0] as int - 128), place * 128, GetVarint(b[1..], n - 1))
  {
    if b[0] >= 128 && GetVarint(b[1..], n - 1).Parsed? {
      Shifted(result, place, b[0] as int - 128, GetVarint(b[1..], n - 1).value);
    }
  }

  lemma {:induction false} NoByteMore(b: Bytes, n: nat, result: nat, place: nat)
    requires n == 0 || b == []
    ensures Over(result, place, GetVarint(b, n)) == Malformed
  {
  }

  lemma {:induction false} Shifted(result: nat, place: nat, low: nat, v: nat)
    ensures result + place * (low + 128 * v) == (result + place * low) + (place * 128) * v
  {
    assert place * (low + 128 * v) == place * low + place * (128 * v);
    assert place * (128 * v) == (place * 128) * v;
  }

  // ----- Length-prefixed slices; the length is stored in 32 bits

  function PutSlice(s: Bytes): Bytes {
    Varint(|s| % TWO32) + s
  }

  function GetSlice(b: Bytes): Parsed<Bytes> {
    match GetVarint32(b)
    case Malformed => Malformed
    case Parsed(len, rest) => if |rest| >= len then Parsed(rest[..len], rest[len..]) else Malformed
  }

  predicate Short(s: Bytes) {
    |s| < TWO32
  }

  lemma {:induction false} SliceRoundTrip(s: Bytes, rest: Bytes)
    requires Short(s)
    ensures GetSlice(PutSlice(s) + rest) == Parsed(s, rest)
  {
    hide Varint, GetVarint32;
    Varint32RoundTrip(|s|, s + rest);
    assert PutSlice(s) + rest == Varint(|s|) + (s + rest);
    assert (s + rest)[..|s|] == s && (s + rest)[|s|..] == rest;
  }

  // Neither is a string that is cut off anywhere.
  lemma {:induction false} SliceTruncated(s: Bytes, k: nat)
    requires Short(s) && k < |PutSlice(s)|
    ensures GetSlice(PutSlice(s)[..k]) == Malformed
  {
    hide Varint, GetVarint;
    var head := Varint(|s|);
    if k < |head| {
      assert PutSlice(s)[..k] == head[..k];
      VarintTruncated(|s|, k, 5);
    } else {
      assert PutSlice(s)[..k] == head + s[..k - |head|];
      Varint32RoundTrip(|s|, s[..k - |head|]);
    }
  }

  lemma {:induction false} GetSliceShrinks(b: Bytes)
    ensures GetSlice(b).Parsed? ==> |GetSlice(b).rest| <= |b|
  {
    GetVarintShrinks(b, 5);
  }

  lemma {:induction false} GetSliceShort(b: Bytes)
    ensures GetSlice(b).Parsed? ==> Short(GetSlice(b).value)
  {
  }

  lemma {:induction false} GetVarintShrinks(b: Bytes, n: nat)
    ensures GetVarint(b, n).Parsed? ==> |GetVarint(b, n).rest| < |b|
  {
    if n > 0 && b != [] { GetVarintShrinks(b[1..], n - 1); }
  }
}
