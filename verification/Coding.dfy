/**
  Little-endian numbers, varints and length-prefixed strings (util/coding.h, util/coding.cc),
  and the masked checksum (util/crc32c.h).
 */
module Coding {

  type Byte = b: nat | b < 256
  type Bytes = seq<Byte>
  type Word = w: nat | w < 0x1_0000_0000
  type Long = w: nat | w < 0x1_0000_0000_0000_0000

  // ----- fixed-width numbers -----

  function Fixed32(w: Word): (b: Bytes)
    ensures |b| == 4
  {
    [w % 256, w / 0x100 % 256, w / 0x1_0000 % 256, w / 0x100_0000]
  }

  function DecodeFixed32(b: Bytes): Word
    requires |b| >= 4
  {
    var b0: int, b1: int, b2: int, b3: int := b[0], b[1], b[2], b[3];
    b0 + 0x100 * (b1 + 0x100 * (b2 + 0x100 * b3))
  }

  lemma Fixed32RoundTrip(w: Word)
    ensures DecodeFixed32(Fixed32(w)) == w
  {
    var a, b, c := w / 0x100, w / 0x1_0000, w / 0x100_0000;
    assert a == w / 0x100 && b == a / 0x100 && c == b / 0x100;
  }

  lemma Fixed32Injective(b: Bytes)
    requires |b| == 4
    ensures Fixed32(DecodeFixed32(b)) == b
  {
    var b0: int, b1: int, b2: int, b3: int := b[0], b[1], b[2], b[3];
    var w := b0 + 0x100 * (b1 + 0x100 * (b2 + 0x100 * b3));
    assert w / 0x100 == b1 + 0x100 * (b2 + 0x100 * b3);
    assert w / 0x1_0000 == b2 + 0x100 * b3;
  }

  function Fixed64(v: Long): (b: Bytes)
    ensures |b| == 8
  {
    Fixed32(v % 0x1_0000_0000) + Fixed32(v / 0x1_0000_0000)
  }

  function DecodeFixed64(b: Bytes): Long
    requires |b| >= 8
  {
    var low: int, high: int := DecodeFixed32(b), DecodeFixed32(b[4..]);
    low + high * 0x1_0000_0000
  }

  lemma Fixed64RoundTrip(v: Long, rest: Bytes)
    ensures DecodeFixed64(Fixed64(v) + rest) == v
  {
    hide Fixed32;
    var low, high := Fixed32(v % 0x1_0000_0000), Fixed32(v / 0x1_0000_0000);
    Fixed32RoundTrip(v % 0x1_0000_0000);
    Fixed32RoundTrip(v / 0x1_0000_0000);
    assert (Fixed64(v) + rest)[4..] == high + rest;
    DecodePrefix(low + (high + rest), 4);
    DecodePrefix(high + rest, 4);
    assert (low + (high + rest))[..4] == low && (high + rest)[..4] == high;
    assert Fixed64(v) + rest == low + (high + rest);
  }

  lemma DecodePrefix(b: Bytes, n: nat)
    requires 4 <= n <= |b|
    ensures DecodeFixed32(b) == DecodeFixed32(b[..n])
  {
  }

  // ----- varints -----

  /** The result of a Get... routine: what it parsed and what is left, or failure. */
  datatype Parsed<+T> = Fail | Got(value: T, rest: Bytes)

  /** Seven bits a byte, low ones first; all bytes but the last have the high bit set. */
  function Varint(v: nat): (b: Bytes)
    ensures |b| >= 1
  {
    if v < 128 then [v] else [v % 128 + 128] + Varint(v / 128)
  }

  /** At most `max` bytes. */
  function GetVarint(b: Bytes, max: nat): (r: Parsed<nat>)
    ensures r.Got? ==> |r.rest| < |b|
    decreases max
  {
    if max == 0 || b == [] then Fail
    else if b[0] < 128 then Got(b[0], b[1..])
    else
      match GetVarint(b[1..], max - 1)
      case Fail => Fail
      case Got(v, rest) => Got(More(b[0], v), rest)
  }

  function More(first: Byte, v: nat): nat
    requires first >= 128
  {
    var low: int := first;
    low - 128 + 128 * v
  }

  lemma {:induction false} VarintRoundTrip(v: nat, rest: Bytes, max: nat)
    requires |Varint(v)| <= max
    ensures GetVarint(Varint(v) + rest, max) == Got(v, rest)
    decreases v
  {
    var b := Varint(v) + rest;
    if v < 128 {
      assert b[1..] == rest;
    } else {
      VarintRoundTrip(v / 128, rest, max - 1);
      assert b[1..] == Varint(v / 128) + rest;
    }
  }

  /** Two encodings side by side can be told apart: no varint is a prefix of another. */
  lemma VarintPrefixFree(v: nat, w: nat, r: Bytes, s: Bytes)
    requires Varint(v) + r == Varint(w) + s
    ensures v == w && r == s
  {
    var max := |Varint(v)| + |Varint(w)|;
    VarintRoundTrip(v, r, max);
    VarintRoundTrip(w, s, max);
  }

  function Pow128(n: nat): nat {
    if n == 0 then 1 else 128 * Pow128(n - 1)
  }

  lemma {:induction false} VarintLength(v: nat, n: nat)
    requires n >= 1 && v < Pow128(n)
    ensures |Varint(v)| <= n
    decreases n
  {
    if v >= 128 {
      VarintLength(v / 128, n - 1);
    }
  }

  lemma WordLength(v: Word)
    ensures |Varint(v)| <= 5
  {
    assert Pow128(5) == 0x8_0000_0000;
    VarintLength(v, 5);
  }

  lemma LongLength(v: Long)
    ensures |Varint(v)| <= 10
  {
    assert Pow128(5) == 0x8_0000_0000;
    assert Pow128(10) == 0x40_0000_0000_0000_0000;
    VarintLength(v, 10);
  }

  function Wrap64(v: nat): Long {
    v % 0x1_0000_0000_0000_0000
  }

  lemma WrapAdd(a: nat, b: nat)
    ensures Wrap64(Wrap64(a) + b) == Wrap64(a + b) && Wrap64(0) == 0
  {
  }

  /** GetVarint32 and GetVarint64: five or ten bytes, bits that do not fit are lost. */
  function Get32(b: Bytes): (r: Parsed<Word>)
    ensures r.Got? ==> |r.rest| < |b|
  {
    match GetVarint(b, 5)
    case Fail => Fail
    case Got(v, rest) => Got(v % 0x1_0000_0000, rest)
  }

  function Get64(b: Bytes): (r: Parsed<Long>)
    ensures r.Got? ==> |r.rest| < |b|
  {
    match GetVarint(b, 10)
    case Fail => Fail
    case Got(v, rest) => Got(Wrap64(v), rest)
  }

  lemma Get32RoundTrip(v: Word, rest: Bytes)
    ensures Get32(Varint(v) + rest) == Got(v, rest)
  {
    hide Varint, GetVarint;
    WordLength(v);
    VarintRoundTrip(v, rest, 5);
  }

  lemma Get64RoundTrip(v: Long, rest: Bytes)
    ensures Get64(Varint(v) + rest) == Got(v, rest)
  {
    hide Varint, GetVarint;
    LongLength(v);
    VarintRoundTrip(v, rest, 10);
  }

  /** PutVarint64. */
  method EncodeVarint64(v: Long) returns (b: Bytes)
    ensures b == Varint(v)
  {
    b := [];
    var left: nat := v;
    while left >= 128
      invariant b + Varint(left) == Varint(v)
    {
      assert b + ([left % 128 + 128] + Varint(left / 128)) == (b + [left % 128 + 128]) + Varint(left / 128);
      b := b + [left % 128 + 128];
      left := left / 128;
    }
    b := b + [left];
  }

  /** PutVarint32: the same bytes, by cases. */
  method EncodeVarint32(v: Word) returns (b: Bytes)
    ensures b == Varint(v)
  {
    var v7: nat := v / 128;
    var v14, v21, v28 := v7 / 128, v7 / 0x4000, v7 / 0x20_0000;
    assert v14 == v7 / 128 && v21 == v14 / 128 && v28 == v21 / 128;
    assert v >= 128 ==> Varint(v) == [v % 128 + 128] + Varint(v7);
    assert v7 >= 128 ==> Varint(v7) == [v7 % 128 + 128] + Varint(v14);
    assert v14 >= 128 ==> Varint(v14) == [v14 % 128 + 128] + Varint(v21);
    assert v21 >= 128 ==> Varint(v21) == [v21 % 128 + 128] + [v28];
    if v < 0x80 {
      b := [v];
    } else if v < 0x4000 {
      b := [v % 128 + 128, v7];
    } else if v < 0x20_0000 {
      b := [v % 128 + 128, v7 % 128 + 128, v14];
    } else if v < 0x1000_0000 {
      b := [v % 128 + 128, v7 % 128 + 128, v14 % 128 + 128, v21];
    } else {
      b := [v % 128 + 128, v7 % 128 + 128, v14 % 128 + 128, v21 % 128 + 128, v28];
    }
  }

  function Times(scale: nat, v: nat): nat {
    scale * v
  }

  /** What a decoding loop has so far, put together with what it still has to read. */
  function Carried(r: Parsed<nat>, sum: nat, scale: nat): Parsed<nat> {
    match r
    case Fail => Fail
    case Got(v, rest) => Got(sum + Times(scale, v), rest)
  }

  lemma CarryOn(b: Bytes, max: nat, sum: nat, scale: nat)
    requires max > 0 && b != []
    ensures b[0] < 128 ==> Carried(GetVarint(b, max), sum, scale) == Got(sum + Times(scale, b[0]), b[1..])
    ensures b[0] >= 128 ==>
      Carried(GetVarint(b, max), sum, scale)
      == Carried(GetVarint(b[1..], max - 1), sum + Times(scale, b[0] as int - 128), 128 * scale)
  {
    if b[0] >= 128 {
      match GetVarint(b[1..], max - 1)
      case Fail =>
      case Got(v, rest) =>
        var low: nat := b[0];
        assert scale * (low - 128 + 128 * v) == scale * (low - 128) + scale * (128 * v)
          == scale * (low - 128) + (128 * scale) * v;
    }
  }

  /** GetVarint64Ptr. Or-ing in a byte is adding it: the bits below it are all that is there yet. */
  method GetVarint64Ptr(b: Bytes) returns (r: Parsed<Long>)
    ensures r == Get64(b)
  {
    hide Times, GetVarint, Wrap64;
    var result: nat, shift: nat, scale: nat, left := 0, 0, 1, b;
    ghost var sum: nat := 0;
    WrapAdd(0, 0);
    CarryNothing(GetVarint(b, 10));
    while shift <= 63 && left != []
      invariant shift % 7 == 0 && shift <= 70 && result == Wrap64(sum)
      invariant GetVarint(b, 10) == Carried(GetVarint(left, 10 - shift / 7), sum, scale)
      decreases 70 - shift
    {
      CarryOn(left, 10 - shift / 7, sum, scale);
      var byte: nat := left[0];
      left := left[1..];
      var part := Times(scale, if byte >= 128 then byte - 128 else byte);
      WrapAdd(sum, part);
      result := Wrap64(result + part);
      if byte < 128 {
        return Got(result, left);
      }
      sum, shift, scale := sum + part, shift + 7, 128 * scale;
    }
    GetNothing(left, 10 - shift / 7);
    return Fail;
  }

  /** GetVarint32Ptr with its fast path for one byte. */
  method GetVarint32Ptr(b: Bytes) returns (r: Parsed<Word>)
    ensures r == Get32(b)
  {
    if b != [] && b[0] < 128 {
      return Got(b[0], b[1..]);
    }
    r := GetVarint32PtrFallback(b);
  }

  method GetVarint32PtrFallback(b: Bytes) returns (r: Parsed<Word>)
    ensures r == Get32(b)
  {
    hide Times, GetVarint;
    var result: nat, shift: nat, scale: nat, left := 0, 0, 1, b;
    ghost var sum: nat := 0;
    CarryNothing(GetVarint(b, 5));
    while shift <= 28 && left != []
      invariant shift % 7 == 0 && shift <= 35 && result == sum % 0x1_0000_0000
      invariant GetVarint(b, 5) == Carried(GetVarint(left, 5 - shift / 7), sum, scale)
      decreases 35 - shift
    {
      CarryOn(left, 5 - shift / 7, sum, scale);
      var byte: nat := left[0];
      left := left[1..];
      var part := Times(scale, if byte >= 128 then byte - 128 else byte);
      result := (result + part) % 0x1_0000_0000;
      if byte < 128 {
        return Got(result, left);
      }
      sum, shift, scale := sum + part, shift + 7, 128 * scale;
    }
    GetNothing(left, 5 - shift / 7);
    return Fail;
  }

  lemma CarryNothing(r: Parsed<nat>)
    ensures Carried(r, 0, 1) == r
  {
  }

  lemma GetNothing(b: Bytes, max: nat)
    requires b == [] || max == 0
    ensures GetVarint(b, max) == Fail
  {
  }

  // ----- length-prefixed strings -----

  /** PutLengthPrefixedSlice; the length is cut to 32 bits. */
  function Prefixed(s: Bytes): (b: Bytes) {
    Varint(|s| % 0x1_0000_0000) + s
  }

  function GetSlice(b: Bytes): (r: Parsed<Bytes>)
    ensures r.Got? ==> |r.rest| < |b|
  {
    match Get32(b)
    case Fail => Fail
    case Got(n, rest) => if |rest| >= n then Got(rest[..n], rest[n..]) else Fail
  }

  lemma SliceRoundTrip(s: Bytes, rest: Bytes)
    requires |s| < 0x1_0000_0000
    ensures GetSlice(Prefixed(s) + rest) == Got(s, rest)
  {
    hide Get32, Varint;
    Get32RoundTrip(|s|, s + rest);
    assert Prefixed(s) + rest == Varint(|s|) + (s + rest);
  }

  // ----- checksums -----

  /** One bit of the CRC-32C polynomial division, low bit first. */
  function CrcBits(c: bv32, n: nat): bv32
    decreases n
  {
    if n == 0 then c else CrcBits(if c & 1 == 1 then (c >> 1) ^ 0x82f6_3b78 else c >> 1, n - 1)
  }

  function CrcFrom(c: bv32, data: Bytes): bv32
    decreases |data|
  {
    if data == [] then c else CrcFrom(CrcBits(c ^ (data[0] as bv32), 8), data[1..])
  }

  /** crc32c::Value. */
  function Crc(data: Bytes): Word {
    (CrcFrom(0xffff_ffff, data) ^ 0xffff_ffff) as int
  }

  const MASK_DELTA: nat := 0xa282_ead8

  /** crc32c::Mask: rotate right by 15 bits and add a constant. */
  function Mask(c: Word): Word {
    (c / 0x8000 + c % 0x8000 * 0x2_0000 + MASK_DELTA) % 0x1_0000_0000
  }

  function Unmask(m: Word): Word {
    var rot := (m - MASK_DELTA) % 0x1_0000_0000;
    rot / 0x2_0000 + rot % 0x2_0000 * 0x8000
  }

  lemma UnmaskMask(c: Word)
    ensures Unmask(Mask(c)) == c
  {
    var sum := c / 0x8000 + c % 0x8000 * 0x2_0000;
    assert (Mask(c) - MASK_DELTA) % 0x1_0000_0000 == sum;
    assert sum / 0x2_0000 == c % 0x8000 && sum % 0x2_0000 == c / 0x8000;
  }

  lemma MaskUnmask(m: Word)
    ensures Mask(Unmask(m)) == m
  {
    var rot := (m - MASK_DELTA) % 0x1_0000_0000;
    assert Unmask(m) / 0x8000 == rot % 0x2_0000 && Unmask(m) % 0x8000 == rot / 0x2_0000;
  }
}
