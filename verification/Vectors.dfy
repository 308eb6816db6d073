/**
  The formats said byte by byte: what documents of the formats give, independent of the functions that write and read
  them. Protobuf: sections "Base 128 Varints", "Signed Integers", "Length-Delimited Records", "Submessages" and
  "Packed Repeated Fields" of the Protocol Buffers "Encoding" specification. Checksums: RFC 3720, section 12.1.
 */
module Vectors {
  import opened Coding
  import opened LogFormat
  import W = WriteBatches
  import E = VersionEdits
  import V = PbVarint
  import opened PbMessage

  // ----- CRC-32C -----

  lemma CrcStep(c: bv32, b: Byte, byte: bv32, rest: Bytes)
    requires b as bv32 == byte
    ensures CrcFrom(c, [b] + rest) == CrcFrom(CrcBits(c ^ byte, 8), rest)
  {
    hide CrcBits;
    var data := [b] + rest;
    assert data[1..] == rest && data[0] == b;
  }

  lemma CrcEnd(c: bv32)
    ensures CrcFrom(c, []) == c
  {
  }

  /** Two bytes, `x` and `y`. */
  lemma CrcTwo(c: bv32, d: bv32, e: bv32, b: Byte, x: bv32, b': Byte, y: bv32, rest: Bytes)
    requires b as bv32 == x && b' as bv32 == y && CrcBits(c ^ x, 8) == d && CrcBits(d ^ y, 8) == e
    ensures CrcFrom(c, [b] + ([b'] + rest)) == CrcFrom(e, rest)
  {
    hide CrcBits, CrcFrom;
    CrcStep(c, b, x, [b'] + rest);
    CrcStep(d, b', y, rest);
  }

  lemma DigitSteps()
    ensures CrcBits(0xffff_ffff ^ 0x31, 8) == 0x6f0a_661c
    ensures CrcBits(0x6f0a_661c ^ 0x32, 8) == 0x8caa_3b9f
    ensures CrcBits(0x8caa_3b9f ^ 0x33, 8) == 0xef84_d04d
    ensures CrcBits(0xef84_d04d ^ 0x34, 8) == 0x09c5_0b11
    ensures CrcBits(0x09c5_0b11 ^ 0x35, 8) == 0xe72e_dcca
    ensures CrcBits(0xe72e_dcca ^ 0x36, 8) == 0xbeca_8e79
    ensures CrcBits(0xbeca_8e79 ^ 0x37, 8) == 0xedbd_6815
    ensures CrcBits(0xedbd_6815 ^ 0x38, 8) == 0x9f78_7f65
    ensures CrcBits(0x9f78_7f65 ^ 0x39, 8) == 0x1cf9_6d7c
  {
  }

  lemma LastDigits()
    ensures CrcFrom(0x09c5_0b11, [0x35, 0x36, 0x37, 0x38, 0x39]) == 0x1cf9_6d7c
  {
    hide CrcBits, CrcFrom;
    DigitSteps();
    CrcTwo(0x09c5_0b11, 0xe72e_dcca, 0xbeca_8e79, 0x35, 0x35, 0x36, 0x36, [0x37, 0x38, 0x39]);
    assert [0x35] + ([0x36] + [0x37, 0x38, 0x39]) == [0x35, 0x36, 0x37, 0x38, 0x39];
    CrcTwo(0xbeca_8e79, 0xedbd_6815, 0x9f78_7f65, 0x37, 0x37, 0x38, 0x38, [0x39]);
    assert [0x37] + ([0x38] + [0x39]) == [0x37, 0x38, 0x39];
    CrcStep(0x9f78_7f65, 0x39, 0x39, []);
    assert [0x39] + [] == [0x39];
    CrcEnd(0x1cf9_6d7c);
  }

  /** The check value of CRC-32C: the checksum of the nine digits. */
  lemma CrcOfDigits()
    ensures Crc([0x31, 0x32, 0x33, 0x34, 0x35, 0x36, 0x37, 0x38, 0x39]) == 0xe306_9283
  {
    hide CrcBits, CrcFrom;
    DigitSteps();
    LastDigits();
    CrcTwo(0xffff_ffff, 0x6f0a_661c, 0x8caa_3b9f, 0x31, 0x31, 0x32, 0x32, [0x33, 0x34, 0x35, 0x36, 0x37, 0x38, 0x39]);
    assert [0x31] + ([0x32] + [0x33, 0x34, 0x35, 0x36, 0x37, 0x38, 0x39])
        == [0x31, 0x32, 0x33, 0x34, 0x35, 0x36, 0x37, 0x38, 0x39];
    CrcTwo(0x8caa_3b9f, 0xef84_d04d, 0x09c5_0b11, 0x33, 0x33, 0x34, 0x34, [0x35, 0x36, 0x37, 0x38, 0x39]);
    assert [0x33] + ([0x34] + [0x35, 0x36, 0x37, 0x38, 0x39]) == [0x33, 0x34, 0x35, 0x36, 0x37, 0x38, 0x39];
  }

  // ----- numbers -----

  /** The low byte comes first. */
  lemma LittleEndian(w: Word, v: Long)
    ensures var b: seq<int> := Fixed32(w); w == b[0] + 0x100 * b[1] + 0x1_0000 * b[2] + 0x100_0000 * b[3]
    ensures Fixed64(v) == Fixed32(v % 0x1_0000_0000) + Fixed32(v / 0x1_0000_0000)
  {
    Fixed32RoundTrip(w);
  }

  /** Seven bits a byte, low bits first, the top bit set on all but the last. */
  lemma VarintByBytes(v: nat)
    ensures v < 128 ==> Varint(v) == [v]
    ensures 128 <= v < 0x4000 ==> Varint(v) == [v % 128 + 128, v / 128]
    ensures 0x4000 <= v < 0x20_0000 ==> Varint(v) == [v % 128 + 128, v / 128 % 128 + 128, v / 0x4000]
    ensures Varint(150) == [0x96, 0x01]
  {
    if 0x4000 <= v < 0x20_0000 {
      assert v / 128 / 128 == v / 0x4000;
      assert Varint(v / 128) == [v / 128 % 128 + 128] + Varint(v / 0x4000);
    }
  }

  /** Positive numbers become even, negative ones odd. */
  lemma ZigzagByFormula(n: V.SignedLong)
    ensures V.Zigzag(n) == if n >= 0 then 2 * n else -2 * n - 1
  {
  }

  // ----- the log -----

  /** The header of a physical record: masked checksum of type and payload, length, type. */
  lemma PhysicalByBytes(kind: Byte, payload: Bytes)
    requires |payload| < 0x1_0000
    ensures var b: seq<int> := Physical(kind, payload);
      |b| == 7 + |payload| && b[4] + 0x100 * b[5] == |payload| && b[6] == kind && b[7..] == payload
    ensures Physical(kind, payload)[..4] == Fixed32(Mask(Crc([kind] + payload)))
  {
    hide Crc, Mask, Fixed32;
  }

  lemma FragmentPlaces(off: nat, n: nat)
    requires off % 32768 + 7 <= 32768
    ensures var room := 32768 - off % 32768 - 7;
      Pad(off) == [] && Take(off, n) == (if n <= room then n else room) && After(off, n) == off + 7 + Take(off, n)
  {
    assert Start(off) == off;
  }

  /** A record that fits what is left of its block is one physical record; a longer one fills it up. */
  lemma FragmentByBytes(off: nat, data: Bytes, begin: bool)
    requires off % 32768 + 7 <= 32768
    ensures var room := 32768 - off % 32768 - 7;
      && (|data| <= room ==> Frags(off, data, begin) == Physical(if begin then 1 else 4, data))
      && (|data| > room ==>
            Frags(off, data, begin) == Physical(if begin then 2 else 3, data[..room])
                                       + Frags(off + 7 + room, data[room..], false))
  {
    hide Physical, Start, Avail, Take, After, Pad, Frags;
    FragmentPlaces(off, |data|);
    FragsSplit(off, data, begin);
    if |data| <= 32768 - off % 32768 - 7 {
      assert data[..|data|] == data;
    }
  }

  lemma TrailerPlaces(off: nat)
    requires off % 32768 + 7 > 32768
    ensures var next := off + (32768 - off % 32768);
      Start(off) == next == Start(next) && Avail(next) == 32761 == Avail(off)
  {
    var next := off + (32768 - off % 32768);
    assert next % 32768 == 0;
  }

  lemma TrailerSizes(off: nat, data: Bytes)
    requires off % 32768 + 7 > 32768
    ensures var next := off + (32768 - off % 32768);
      && Take(off, |data|) == Take(next, |data|) && After(off, |data|) == After(next, |data|)
      && Pad(off) == seq(next - off, _ => 0) && Pad(next) == []
  {
    TrailerPlaces(off);
    hide Start, Avail;
  }

  /** Fewer than seven bytes at the end of a block are zeros, and the record begins in the next block. */
  lemma TrailerByBytes(off: nat, data: Bytes, begin: bool)
    requires off % 32768 + 7 > 32768
    ensures var left := 32768 - off % 32768;
      Frags(off, data, begin) == seq(left, _ => 0) + Frags(off + left, data, begin)
  {
    hide Physical, Start, Avail, KindOf, Take, After, Pad, Frags;
    var next := off + (32768 - off % 32768);
    TrailerSizes(off, data);
    assert Frag(off, data, begin) == Pad(off) + Frag(next, data, begin);
    FragsSplit(off, data, begin);
    FragsSplit(next, data, begin);
  }

  lemma SecondRecord(b: Bytes)
    requires |b| == 97270
    ensures Frags(1007, b, true)
      == Physical(2, b[..31754]) + (Physical(3, b[31754..64515]) + Physical(4, b[64515..]))
  {
    hide Frags, Physical;
    var b1 := b[31754..];
    FragmentByBytes(1007, b, true);
    FragmentByBytes(32768, b1, false);
    assert b1[..32761] == b[31754..64515] && b1[32761..] == b[64515..];
    FragmentByBytes(65536, b[64515..], false);
  }

  lemma ThirdRecord(c: Bytes)
    requires |c| == 8000
    ensures Frags(98298, c, true) == [0, 0, 0, 0, 0, 0] + Physical(1, c)
  {
    hide Frags, Physical;
    TrailerByBytes(98298, c, true);
    FragmentByBytes(98304, c, true);
    assert seq(6, _ => 0) == [0, 0, 0, 0, 0, 0];
  }

  lemma ImageOfThree(a: Bytes, b: Bytes, c: Bytes, x: Bytes, y: Bytes, z: Bytes)
    requires x == Frags(0, a, true) && y == Frags(|x|, b, true) && z == Frags(|x| + |y|, c, true)
    ensures Image(0, [a, b, c]) == x + (y + z)
  {
    hide Frags;
    assert [a, b, c][1..] == [b, c] && [b, c][1..] == [c];
    assert Image(|x| + |y|, [c]) == z + [];
    assert Image(|x|, [b, c]) == y + Image(|x| + |y|, [c]);
  }

  /** Three records of 1000, 97270 and 8000 bytes: the second fills the first block and the next, and leaves six bytes
      of the third, so that the third record begins in the fourth block. */
  lemma ThreeRecords(a: Bytes, b: Bytes, c: Bytes)
    requires |a| == 1000 && |b| == 97270 && |c| == 8000
    ensures Image(0, [a, b, c])
      == Physical(1, a)
         + ((Physical(2, b[..31754]) + (Physical(3, b[31754..64515]) + Physical(4, b[64515..])))
            + ([0, 0, 0, 0, 0, 0] + Physical(1, c)))
  {
    hide Frags, Physical, Image;
    FragmentByBytes(0, a, true);
    SecondRecord(b);
    ThirdRecord(c);
    ImageOfThree(a, b, c, Frags(0, a, true), Frags(1007, b, true), Frags(98298, c, true));
  }

  // ----- write batches and version edits -----

  lemma ShortString(s: Bytes)
    requires |s| < 128
    ensures Prefixed(s) == [|s|] + s
  {
  }

  /** A one for a put, a zero for a deletion, and the strings behind their lengths. */
  lemma UpdateByBytes(k: Bytes, v: Bytes)
    requires |k| < 128 && |v| < 128
    ensures W.UpdateBytes(W.Put(k, v)) == [1, |k|] + k + [|v|] + v
    ensures W.UpdateBytes(W.Delete(k)) == [0, |k|] + k
  {
    ShortString(k);
    ShortString(v);
    hide Prefixed;
  }

  /** Sequence number in eight bytes, count in four. */
  lemma BatchByBytes(sn: Long, count: Word)
    ensures W.Header(sn, count)[..8] == Fixed64(sn) && W.Header(sn, count)[8..] == Fixed32(count)
  {
    hide Fixed64, Fixed32;
  }

  lemma SmallNumber(n: nat)
    requires n < 128
    ensures Varint(n) == [n]
  {
  }

  /** The tags are written to disk, and the eighth is not used any more. */
  lemma CountersByBytes(n: Byte)
    requires n < 128
    ensures E.FieldBytes(E.Number(E.LogNumber, n)) == [2, n]
    ensures E.FieldBytes(E.Number(E.NextFileNumber, n)) == [3, n]
    ensures E.FieldBytes(E.Number(E.LastSequence, n)) == [4, n]
    ensures E.FieldBytes(E.Number(E.PrevLogNumber, n)) == [9, n]
  {
    hide Varint;
    SmallNumber(n);
    SmallNumber(2);
    SmallNumber(3);
    SmallNumber(4);
    SmallNumber(9);
  }

  lemma EditByBytes(name: Bytes, n: Byte, level: Byte)
    requires |name| < 128 && n < 128 && level < 128
    ensures E.FieldBytes(E.Comparator(name)) == [1, |name|] + name
    ensures E.FieldBytes(E.CompactPointer(level, name)) == [5, level, |name|] + name
    ensures E.FieldBytes(E.DeletedFile(level, n)) == [6, level, n]
  {
    hide Prefixed, Varint;
    ShortString(name);
    SmallNumber(n);
    SmallNumber(level);
    SmallNumber(1);
    SmallNumber(5);
    SmallNumber(6);
    assert [1] + ([|name|] + name) == [1, |name|] + name;
    assert [5] + ([level] + ([|name|] + name)) == [5, level, |name|] + name;
  }

  /** A new file: level, number, size, smallest and largest key. */
  lemma NewFileByBytes(level: Byte, file: E.File)
    requires level < 128
    requires file.number < 128 && file.size < 128 && |file.smallest| < 128 && |file.largest| < 128
    ensures E.FieldBytes(E.NewFile(level, file)) ==
      [7, level, file.number, file.size] + ([|file.smallest|] + file.smallest + ([|file.largest|] + file.largest))
  {
    hide Prefixed, Varint;
    ShortString(file.smallest);
    ShortString(file.largest);
    SmallNumber(7);
    SmallNumber(level);
    SmallNumber(file.number);
    SmallNumber(file.size);
  }

  // ----- protobuf messages -----

  function Required(tag: nat, lt: LType): FieldD {
    FieldD(tag, lt, HType.Required, Num(0), Layout(0, 0, 0, false))
  }

  function Array(tag: nat, lt: LType): FieldD {
    FieldD(tag, lt, Repeated(10, false), Num(0), Layout(0, 0, 0, false))
  }

  /** One item behind its tag: five bits of number, three of wire type. */
  lemma ItemByBytes(f: FieldD, v: Value)
    requires f.ht.Required? && 1 <= f.tag < 16
    ensures EncField(f, [v]) == [f.tag * 8 + WireType(f.lt)] + EncValue(f.lt, v)
  {
    hide Varint, EncValue;
    SmallNumber(f.tag * 8 + WireType(f.lt));
    assert EncTagged(f, [v][1..]) == [];
  }

  lemma OneField(f: FieldD, slot: seq<Value>)
    ensures EncMsg([f], [slot]) == EncField(f, slot)
  {
    hide EncField;
    assert EncFrom([f], [slot], 1) == [];
  }

  lemma NumbersByBytes(n: Byte)
    requires n < 64
    ensures EncValue(Unsigned(8), Num(n)) == EncValue(Signed(8), Num(n)) == EncValue(Bool, Num(n)) == [n]
    ensures EncValue(Zig(8), Num(n)) == [2 * n] && EncValue(Zig(8), Num(-1 - n)) == [2 * n + 1]
    ensures EncValue(Fix32, Num(n)) == [n, 0, 0, 0]
    ensures EncValue(Fix64, Num(n)) == [n, 0, 0, 0, 0, 0, 0, 0]
  {
    SmallNumber(n);
    SmallNumber(2 * n);
    SmallNumber(2 * n + 1);
    hide Varint;
    assert Low64(n) == n && Low64(-1 - n) == 0xffff_ffff_ffff_ffff - n;
    assert Fixed32(n) == [n, 0, 0, 0] && Fixed32(0) == [0, 0, 0, 0];
  }

  lemma BlobByBytes(lt: LType, b: Bytes)
    requires !lt.Submessage? && |b| < 128
    ensures EncValue(lt, Blob(b)) == [|b|] + b
  {
    SmallNumber(|b|);
    hide Varint;
  }

  /** The wire types: 0 for a varint, 1 for eight bytes, 2 for a length and as many bytes, 5 for four bytes. */
  lemma WireTypesByBytes(tag: nat, n: Byte, b: Bytes)
    requires 1 <= tag < 16 && n < 64 && |b| < 128
    ensures EncField(Required(tag, Unsigned(8)), [Num(n)]) == [tag * 8, n]
    ensures EncField(Required(tag, Signed(8)), [Num(n)]) == [tag * 8, n]
    ensures EncField(Required(tag, Zig(8)), [Num(n)]) == [tag * 8, 2 * n]
    ensures EncField(Required(tag, Bool), [Num(n)]) == [tag * 8, n]
    ensures EncField(Required(tag, Fix64), [Num(n)]) == [tag * 8 + 1, n, 0, 0, 0, 0, 0, 0, 0]
    ensures EncField(Required(tag, BytesOf(127)), [Blob(b)]) == [tag * 8 + 2, |b|] + b
    ensures EncField(Required(tag, StringOf(128)), [Blob(b)]) == [tag * 8 + 2, |b|] + b
    ensures EncField(Required(tag, FixedBytes(|b|)), [Blob(b)]) == [tag * 8 + 2, |b|] + b
    ensures EncField(Required(tag, Fix32), [Num(n)]) == [tag * 8 + 5, n, 0, 0, 0]
  {
    hide EncField, EncValue;
    NumbersByBytes(n);
    forall lt: LType, v: Value ensures EncField(Required(tag, lt), [v]) == [tag * 8 + WireType(lt)] + EncValue(lt, v) {
      ItemByBytes(Required(tag, lt), v);
    }
    BlobByBytes(BytesOf(127), b);
    BlobByBytes(StringOf(128), b);
    BlobByBytes(FixedBytes(|b|), b);
  }

  const NUMBER := Required(1, Signed(4))

  /** The first example of the specification: field 1 holds 150. */
  lemma NumberExample()
    ensures EncMsg([NUMBER], [[Num(150)]]) == [0x08, 0x96, 0x01]
  {
    hide EncMsg, EncField;
    OneField(NUMBER, [Num(150)]);
    ItemByBytes(NUMBER, Num(150));
    VarintByBytes(150);
  }

  /** Field 2 holds "testing". */
  lemma StringExample()
    ensures var b := [0x74, 0x65, 0x73, 0x74, 0x69, 0x6e, 0x67];
      EncMsg([Required(2, StringOf(20))], [[Blob(b)]]) == [0x12, 0x07] + b
  {
    hide EncMsg, EncField, EncValue;
    var b := [0x74, 0x65, 0x73, 0x74, 0x69, 0x6e, 0x67];
    OneField(Required(2, StringOf(20)), [Blob(b)]);
    ItemByBytes(Required(2, StringOf(20)), Blob(b));
    BlobByBytes(StringOf(20), b);
  }

  /** Field 3 holds the message of the first example. */
  lemma SubmessageExample()
    ensures var f, m := Required(3, Submessage([NUMBER])), Msg([[Num(150)]]);
      EncMsg([f], [[m]]) == [0x1a, 0x03, 0x08, 0x96, 0x01]
  {
    hide EncField, EncFrom;
    var f, m := Required(3, Submessage([NUMBER])), Msg([[Num(150)]]);
    OneField(f, [m]);
    ItemByBytes(f, m);
    NumberExample();
    SmallNumber(3);
    assert EncValue(f.lt, m) == [0x03] + [0x08, 0x96, 0x01];
  }

  lemma PackedItemsExample()
    ensures EncItems(Unsigned(4), [Num(3), Num(270), Num(86942)]) == [0x03, 0x8e, 0x02, 0x9e, 0xa7, 0x05]
  {
    var lt, vs := Unsigned(4), [Num(3), Num(270), Num(86942)];
    VarintByBytes(3);
    VarintByBytes(270);
    VarintByBytes(86942);
    hide Varint;
    assert vs[1..] == [Num(270), Num(86942)] && vs[1..][1..] == [Num(86942)] && vs[1..][1..][1..] == [];
    assert EncItems(lt, [Num(86942)]) == [0x9e, 0xa7, 0x05];
    assert EncItems(lt, [Num(270), Num(86942)]) == [0x8e, 0x02] + [0x9e, 0xa7, 0x05];
    assert EncItems(lt, vs) == [0x03] + ([0x8e, 0x02] + [0x9e, 0xa7, 0x05]);
  }

  /** Field 4 holds the packed numbers 3, 270 and 86942. */
  lemma PackedExample()
    ensures EncMsg([Array(4, Unsigned(4))], [[Num(3), Num(270), Num(86942)]])
         == [0x22, 0x06] + [0x03, 0x8e, 0x02, 0x9e, 0xa7, 0x05]
  {
    hide Varint, EncMsg, EncItems;
    PackedItemsExample();
    OneField(Array(4, Unsigned(4)), [Num(3), Num(270), Num(86942)]);
    SmallNumber(34);
    SmallNumber(6);
  }
}
