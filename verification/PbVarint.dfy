/**
  The variable-length integers of nanopb (pb_encode.c, pb_decode.c): sections "Base 128 Varints"
  and "Signed Integers" of the Protocol Buffers "Encoding" specification. `Coding.Varint` is the
  format; this module has nanopb's own loops over it.
 */
module PbVarint {
  import opened Coding

  /** pb_encode_varint: fill a ten-byte buffer, then clear the top bit of the last byte. */
  method EncodeVarint(value: Long) returns (b: Bytes)
    ensures b == Varint(value)
  {
    if value <= 0x7f {
      return [value];
    }
    hide Varint;
    var buffer := new Byte[10];
    var v: nat, i := value, 0;
    LongLength(value);
    assert buffer[..0] == [];
    while v != 0
      invariant i <= 10 && (i == 0 ==> v == value)
      invariant v != 0 ==> buffer[..i] + Varint(v) == Varint(value)
      invariant v == 0 ==> i > 0 && Final(buffer[..i]) == Varint(value)
    {
      ghost var before := buffer[..i];
      ByteWritten(before, v);
      buffer[i] := v % 128 + 128;
      assert buffer[..i + 1] == before + [v % 128 + 128];
      v := v / 128;
      i := i + 1;
    }
    ghost var written := buffer[..i];
    buffer[i - 1] := buffer[i - 1] % 128;
    assert buffer[..i] == Final(written);
    b := buffer[..i];
  }

  lemma ByteWritten(before: Bytes, v: nat)
    requires v != 0
    ensures v < 128 ==> Final(before + [v % 128 + 128]) == before + Varint(v)
    ensures v >= 128 ==> (before + [v % 128 + 128]) + Varint(v / 128) == before + Varint(v)
  {
  }

  /** What the loop has written, with the top bit of the last byte cleared. */
  function Final(b: Bytes): Bytes
    requires b != []
  {
    b[..|b| - 1] + [b[|b| - 1] % 128]
  }

  // ----- the 32-bit decoder -----

  function Pow2(n: nat): (p: nat)
    ensures p >= 1
  {
    if n == 0 then 1 else 2 * Pow2(n - 1)
  }

  function Shifted(low: nat, bitpos: nat): nat {
    low * Pow2(bitpos)
  }

  /** pb_decode_varint32 behind the first byte: `bitpos` bits have been read. Higher bits must be
      zeros, or the sign extension of a negative number. */
  function Var32From(b: Bytes, result: Word, bitpos: nat): (r: Parsed<Word>)
    ensures r.Got? ==> |r.rest| < |b|
    decreases |b|
  {
    if b == [] then Fail
    else
      var byte: nat := b[0];
      var low := byte % 128;
      if bitpos >= 32 && low != 0 && (result < 0x8000_0000 || byte != (if bitpos < 63 then 0xff else 0x01)) then
        Fail
      else
        var next: Word := if bitpos >= 32 then result else (result + Shifted(low, bitpos)) % 0x1_0000_0000;
        if byte >= 128 then Var32From(b[1..], next, bitpos + 7)
        else if bitpos == 28 && low >= 16 then Fail
        else Got(next, b[1..])
  }

  function Var32(b: Bytes): (r: Parsed<Word>)
    ensures r.Got? ==> |r.rest| < |b|
  {
    if b == [] then Fail
    else if b[0] < 128 then Got(b[0], b[1..])
    else Var32From(b[1..], b[0] % 128, 7)
  }

  /** One more byte below bit 32. */
  lemma Var32Step(b: Bytes, result: Word, bitpos: nat, low: nat, rest: Bytes)
    requires bitpos < 32 && low < 128 && result + Shifted(low, bitpos) < 0x1_0000_0000
    ensures b == [low + 128] + rest
      ==> Var32From(b, result, bitpos) == Var32From(rest, result + Shifted(low, bitpos), bitpos + 7)
    ensures b == [low] + rest && (bitpos == 28 ==> low < 16)
      ==> Var32From(b, result, bitpos) == Got(result + Shifted(low, bitpos), rest)
  {
    hide Shifted;
    var sum := result + Shifted(low, bitpos);
    assert sum % 0x1_0000_0000 == sum;
    if b == [low + 128] + rest {
      assert b[1..] == rest;
    } else if b == [low] + rest {
      assert b[1..] == rest;
    }
  }

  lemma Powers()
    ensures Pow2(7) == 0x80 && Pow2(14) == 0x4000 && Pow2(21) == 0x20_0000 && Pow2(28) == 0x1000_0000
  {
    assert Pow2(4) == 16 && Pow2(8) == 256 && Pow2(12) == 0x1000 && Pow2(16) == 0x1_0000 && Pow2(20) == 0x10_0000
      && Pow2(24) == 0x100_0000;
  }

  lemma VarintStep(v: nat, rest: Bytes)
    ensures v >= 128 ==> Varint(v) + rest == [v % 128 + 128] + (Varint(v / 128) + rest)
    ensures v < 128 ==> Varint(v) + rest == [v] + rest
  {
  }

  lemma {:induction false} Var32Tail(v: nat, result: Word, bitpos: nat, rest: Bytes)
    requires bitpos == 7 || bitpos == 14 || bitpos == 21 || bitpos == 28
    requires v * Pow2(bitpos) + result < 0x1_0000_0000
    ensures Var32From(Varint(v) + rest, result, bitpos) == Got(v * Pow2(bitpos) + result, rest)
    decreases v
  {
    hide Var32From, Varint, Pow2;
    Powers();
    VarintStep(v, rest);
    Var32Step(Varint(v) + rest, result, bitpos, v % 128, if v < 128 then rest else Varint(v / 128) + rest);
    if v >= 128 {
      Var32Tail(v / 128, result + v % 128 * Pow2(bitpos), bitpos + 7, rest);
    }
  }

  /** On what pb_encode_varint writes for a 32-bit value, the two decoders agree. */
  lemma Var32RoundTrip(v: Word, rest: Bytes)
    ensures Var32(Varint(v) + rest) == Got(v, rest)
  {
    hide Var32From, Varint;
    VarintStep(v, rest);
    Powers();
    if v >= 128 {
      Var32Tail(v / 128, v % 128, 7, rest);
    }
  }

  /** A negative 32-bit number is encoded as a negative 64-bit one, in ten bytes; the 32-bit decoder
      accepts it and returns its low 32 bits. */
  lemma Var32Negative(k: nat, rest: Bytes)
    requires 1 <= k <= 0x8000_0000
    ensures Var32(Varint(0x1_0000_0000_0000_0000 - k) + rest) == Got(0x1_0000_0000 - k, rest)
  {
    hide Var32From, Varint, Pow2;
    var v := 0x1_0000_0000_0000_0000 - k;
    Powers();
    VarintStep(v, rest);
    NegativeTail(v / 128, v % 128, 7, rest);
  }

  lemma {:induction false} NegativeTail(v: nat, result: Word, bitpos: nat, rest: Bytes)
    requires bitpos == 7 || bitpos == 14 || bitpos == 21 || bitpos == 28
    requires result < Pow2(bitpos) && 0xffff_ffff_8000_0000 <= v * Pow2(bitpos) + result < 0x1_0000_0000_0000_0000
    ensures Var32From(Varint(v) + rest, result, bitpos) == Got((v * Pow2(bitpos) + result) % 0x1_0000_0000, rest)
    decreases 28 - bitpos
  {
    hide Var32From, Varint, Pow2;
    Powers();
    if bitpos == 28 {
      SignBits(v, result, rest);
    } else {
      VarintStep(v, rest);
      Var32Step(Varint(v) + rest, result, bitpos, v % 128, Varint(v / 128) + rest);
      Regroup(v / 128, v % 128, result, Pow2(bitpos));
      NegativeTail(v / 128, result + v % 128 * Pow2(bitpos), bitpos + 7, rest);
    }
  }

  /** Seven more bits move from the remaining value to the result. */
  lemma Regroup(q: nat, d: nat, result: nat, p: nat)
    requires d < 128 && result < p
    ensures q * (128 * p) + (result + d * p) == (q * 128 + d) * p + result
    ensures result + d * p < 128 * p
  {
    assert (q * 128 + d) * p == q * 128 * p + d * p;
    assert q * 128 * p == q * (128 * p);
    assert d * p <= 127 * p;
  }

  /** The fifth byte holds the last four bits of the value, and ones; the others are all ones. */
  lemma SignBits(v4: nat, r4: Word, rest: Bytes)
    requires v4 / 128 == 0x1fff_ffff && v4 % 128 >= 0x78 && r4 < 0x1000_0000
    ensures Var32From(Varint(v4) + rest, r4, 28) == Got((r4 + v4 % 128 * 0x1000_0000) % 0x1_0000_0000, rest)
  {
    Powers();
    VarintStep(v4, rest);
    var result: Word := (r4 + v4 % 128 * 0x1000_0000) % 0x1_0000_0000;
    assert result >= 0x8000_0000;
    assert Varint(0x1fff_ffff) == [0xff, 0xff, 0xff, 0xff, 0x01];
    var b := [0xff, 0xff, 0xff, 0xff, 0x01] + rest;
    assert (Varint(v4) + rest)[1..] == b;
    SignTail(result, rest);
  }

  lemma SignByte(b: Bytes, result: Word, bitpos: nat)
    requires 32 <= bitpos < 63 && result >= 0x8000_0000
    ensures Var32From([0xff] + b, result, bitpos) == Var32From(b, result, bitpos + 7)
  {
    assert ([0xff] + b)[1..] == b;
  }

  lemma SignTail(result: Word, rest: Bytes)
    requires result >= 0x8000_0000
    ensures Var32From([0xff, 0xff, 0xff, 0xff, 0x01] + rest, result, 35) == Got(result, rest)
  {
    var one: Bytes := [0x01];
    assert (one + rest)[1..] == rest;
    assert Var32From(one + rest, result, 63) == Got(result, rest);
    hide Var32From;
    SignByte(one + rest, result, 56);
    SignByte([0xff] + (one + rest), result, 49);
    SignByte([0xff] + ([0xff] + (one + rest)), result, 42);
    SignByte([0xff] + ([0xff] + ([0xff] + (one + rest))), result, 35);
    assert [0xff, 0xff, 0xff, 0xff, 0x01] + rest == [0xff] + ([0xff] + ([0xff] + ([0xff] + (one + rest))));
  }

  // ----- zigzag -----

  type SignedLong = v: int | -0x8000_0000_0000_0000 <= v < 0x8000_0000_0000_0000

  /** pb_encode_svarint: complement of the doubled value for negative numbers. */
  function Zigzag(v: SignedLong): Long {
    if v < 0 then 0xffff_ffff_ffff_ffff - 2 * (v + 0x1_0000_0000_0000_0000) % 0x1_0000_0000_0000_0000 else 2 * v
  }

  /** pb_decode_svarint. */
  function Unzigzag(u: Long): SignedLong {
    if u % 2 == 1 then -1 - u / 2 else u / 2
  }

  lemma ZigzagRoundTrip(v: SignedLong)
    ensures Unzigzag(Zigzag(v)) == v
  {
  }

  lemma UnzigzagRoundTrip(u: Long)
    ensures Zigzag(Unzigzag(u)) == u
  {
  }
}
