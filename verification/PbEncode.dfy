/**
  nanopb's encoder (pb_encode.c) over a stream that either writes to a buffer or only counts.
 */
module PbEncode {
  import opened Coding
  import V = PbVarint
  import opened PbMessage

  /** The struct has one item in every singular slot, and values of the right kind. */
  predicate Shaped(desc: seq<FieldD>, m: Slots)
    decreases desc
  {
    |m| == |desc| && forall i :: 0 <= i < |desc| ==> ShapedSlot(desc[i], m[i])
  }

  predicate ShapedSlot(f: FieldD, slot: seq<Value>)
    decreases f
  {
    && (f.ht.Required? || f.ht.Singular? ==> |slot| == 1)
    && (f.ht.Optional? || f.ht.Oneof? ==> |slot| <= 1)
    && forall k :: 0 <= k < |slot| ==> ShapedValue(f.lt, slot[k])
  }

  predicate ShapedValue(lt: LType, v: Value)
    decreases lt
  {
    && (lt.Submessage? <==> v.Msg?) && (Packable(lt) <==> v.Num?)
    && (lt.Submessage? ==> Shaped(lt.fields, v.slots))
  }

  /** Counts and sizes are within the bounds the encoder checks. */
  predicate Encodable(desc: seq<FieldD>, m: Slots)
    requires |m| == |desc|
    decreases desc
  {
    forall i :: 0 <= i < |desc| ==> EncodableSlot(desc[i], m[i])
  }

  predicate EncodableSlot(f: FieldD, slot: seq<Value>)
    decreases f
  {
    if f.ht.Singular? && slot != [] && IsZero(f.lt, slot[0]) then true
    else (f.ht.Repeated? ==> |slot| <= f.ht.max) && forall k :: 0 <= k < |slot| ==> EncodableValue(f.lt, slot[k])
  }

  predicate EncodableValue(lt: LType, v: Value)
    decreases lt
  {
    && (lt.BytesOf? && v.Blob? ==> |v.b| <= lt.max)
    && (lt.Submessage? && v.Msg? && |v.slots| == |lt.fields| ==> Encodable(lt.fields, v.slots))
  }

  class OStream {
    const sizing: bool
    const maxSize: nat
    var out: Bytes
    var bytesWritten: nat

    constructor (sizing: bool, out: Bytes, maxSize: nat)
      ensures this.sizing == sizing && this.maxSize == maxSize && this.out == out && bytesWritten == 0
    {
      this.sizing, this.maxSize, this.out := sizing, maxSize, out;
      bytesWritten := 0;
    }

    predicate Fits(n: nat)
      reads this
    {
      sizing || bytesWritten + n <= maxSize
    }

    /** pb_write. */
    method Write(b: Bytes) returns (ok: bool)
      requires Fits(0)
      modifies this
      ensures ok == old(Fits(|b|))
      ensures Fits(0) && (ok ==> Emitted(old(out), old(bytesWritten), b))
    {
      if |b| > 0 && !sizing {
        if bytesWritten + |b| > maxSize {
          return false;
        }
        out := out + b;
      }
      bytesWritten := bytesWritten + |b|;
      ok := true;
    }

    /** pb_write with no data, on a stream that only counts. */
    method Count(n: nat)
      requires sizing
      modifies this
      ensures out == old(out) && bytesWritten == old(bytesWritten) + n
    {
      bytesWritten := bytesWritten + n;
    }

    /** These bytes have been counted, and written if the stream writes. */
    ghost predicate Emitted(before: Bytes, count: nat, b: Bytes)
      reads this
    {
      bytesWritten == count + |b| && out == if sizing then before else before + b
    }
  }

  // ----- values -----

  method EncodeString(s: OStream, b: Bytes) returns (ok: bool)
    requires s.Fits(0)
    modifies s
    ensures ok == old(s.Fits(|Varint(|b|) + b|))
    ensures s.Fits(0) && (ok ==> s.Emitted(old(s.out), old(s.bytesWritten), Varint(|b|) + b))
  {
    hide Varint;
    ok := s.Write(Varint(|b|));
    if ok {
      ok := s.Write(b);
    }
  }

  /** The encoders of everything but submessages. */
  method EncodeScalar(s: OStream, lt: LType, v: Value) returns (ok: bool)
    requires s.Fits(0) && !lt.Submessage? && !v.Msg?
    modifies s
    ensures ok == (EncodableValue(lt, v) && old(s.Fits(|EncScalar(lt, v)|)))
    ensures s.Fits(0) && (ok ==> s.Emitted(old(s.out), old(s.bytesWritten), EncScalar(lt, v)))
  {
    hide Varint, Fixed32, Fixed64, Low64, V.Zigzag, Signed64;
    match v
    case Num(n) =>
      if lt.Fix32? {
        ok := s.Write(Fixed32(n % 0x1_0000_0000));
      } else if lt.Fix64? {
        ok := s.Write(Fixed64(Low64(n)));
      } else {
        var b := V.EncodeVarint(if lt.Zig? then V.Zigzag(Signed64(Low64(n))) else Low64(n));
        ok := s.Write(b);
      }
    case Blob(b) =>
      if lt.BytesOf? && |b| > lt.max {
        return false;
      }
      ok := EncodeString(s, b);
  }

  method EncodeTag(s: OStream, tag: nat, wireType: nat) returns (ok: bool)
    requires s.Fits(0)
    modifies s
    ensures ok == old(s.Fits(|TagBytes(tag, wireType)|))
    ensures s.Fits(0) && (ok ==> s.Emitted(old(s.out), old(s.bytesWritten), TagBytes(tag, wireType)))
  {
    hide Varint;
    ok := s.Write(Varint(tag * 8 + wireType));
  }

  // ----- messages -----

  method EncodeValue(s: OStream, lt: LType, v: Value) returns (ok: bool)
    requires s.Fits(0) && ShapedValue(lt, v)
    modifies s
    ensures ok == (EncodableValue(lt, v) && old(s.Fits(|EncValue(lt, v)|)))
    ensures s.Fits(0) && (ok ==> s.Emitted(old(s.out), old(s.bytesWritten), EncValue(lt, v)))
    decreases lt, 0
  {
    hide EncScalar, Encodable, EncMsg;
    if lt.Submessage? {
      ok := EncodeSubmessage(s, lt.fields, v.slots);
    } else {
      ok := EncodeScalar(s, lt, v);
    }
  }

  /** The size is found with a counting stream first; what is then written has that size, so the
      check of the source for "submsg size changed" never fails. */
  method EncodeSubmessage(s: OStream, fields: seq<FieldD>, m: Slots) returns (ok: bool)
    requires s.Fits(0) && Shaped(fields, m)
    modifies s
    ensures var e := EncFrom(fields, m, 0);
      && ok == (Encodable(fields, m) && old(s.Fits(|Varint(|e|) + e|)))
      && s.Fits(0) && (ok ==> s.Emitted(old(s.out), old(s.bytesWritten), Varint(|e|) + e))
    decreases fields, 2
  {
    hide Shaped, Encodable, EncFrom, Varint;
    var size;
    ok, size := GetEncodedSize(fields, m);
    if !ok {
      return false;
    }
    ok := s.Write(Varint(size));
    if !ok {
      return false;
    }
    if s.sizing {
      s.Count(size);
      return true;
    }
    if s.bytesWritten + size > s.maxSize {
      return false;
    }
    var substream := new OStream(false, s.out, size);
    ok := Encode(substream, fields, m);
    s.bytesWritten := s.bytesWritten + substream.bytesWritten;
    s.out := substream.out;
    if substream.bytesWritten != size {
      assert false;
    }
  }

  /** pb_get_encoded_size: encoding to a counting stream gives the number of bytes written. */
  method GetEncodedSize(desc: seq<FieldD>, m: Slots) returns (ok: bool, size: nat)
    requires Shaped(desc, m)
    ensures ok == Encodable(desc, m) && (ok ==> size == |EncFrom(desc, m, 0)|)
    decreases desc, 1
  {
    hide Shaped, Encodable, EncFrom;
    var counting := new OStream(true, [], 0);
    ok := Encode(counting, desc, m);
    size := counting.bytesWritten;
  }

  /** pb_encode. */
  method Encode(s: OStream, desc: seq<FieldD>, m: Slots) returns (ok: bool)
    requires s.Fits(0) && Shaped(desc, m)
    modifies s
    ensures ok == (Encodable(desc, m) && old(s.Fits(|EncFrom(desc, m, 0)|)))
    ensures s.Fits(0) && (ok ==> s.Emitted(old(s.out), old(s.bytesWritten), EncFrom(desc, m, 0)))
    decreases desc, 0
  {
    hide EncField, EncodableSlot, ShapedSlot;
    ghost var done: Bytes := [];
    for i := 0 to |desc|
      invariant s.Fits(0) && s.Emitted(old(s.out), old(s.bytesWritten), done)
      invariant done + EncFrom(desc, m, i) == EncFrom(desc, m, 0)
      invariant forall j :: 0 <= j < i ==> EncodableSlot(desc[j], m[j])
    {
      ok := EncodeField(s, desc[i], m[i]);
      if !ok {
        return false;
      }
      done := done + EncField(desc[i], m[i]);
    }
    ok := true;
  }

  /** encode_basic_field. */
  method EncodeField(s: OStream, f: FieldD, slot: seq<Value>) returns (ok: bool)
    requires s.Fits(0) && ShapedSlot(f, slot)
    modifies s
    ensures ok == (EncodableSlot(f, slot) && old(s.Fits(|EncField(f, slot)|)))
    ensures s.Fits(0) && (ok ==> s.Emitted(old(s.out), old(s.bytesWritten), EncField(f, slot)))
    decreases f, 3
  {
    if f.ht.Repeated? {
      ok := EncodeArray(s, f, slot);
    } else if f.ht.Singular? && IsZero(f.lt, slot[0]) {
      ok := true;
    } else {
      ok := EncodeTagged(s, f, slot);
    }
  }

  lemma {:induction false} FixedItems(lt: LType, vs: seq<Value>)
    requires (lt.Fix32? || lt.Fix64?) && forall v :: v in vs ==> v.Num?
    ensures |EncItems(lt, vs)| == (if lt.Fix32? then 4 else 8) * |vs|
    decreases |vs|
  {
    if vs != [] {
      FixedItems(lt, vs[1..]);
    }
  }

  /** encode_array: one block if the type can be packed, whose size is known or counted first. */
  method EncodeArray(s: OStream, f: FieldD, slot: seq<Value>) returns (ok: bool)
    requires s.Fits(0) && ShapedSlot(f, slot) && f.ht.Repeated?
    modifies s
    ensures ok == (EncodableSlot(f, slot) && old(s.Fits(|EncField(f, slot)|)))
    ensures s.Fits(0) && (ok ==> s.Emitted(old(s.out), old(s.bytesWritten), EncField(f, slot)))
    decreases f, 2
  {
    if slot == [] {
      return true;
    }
    if |slot| > f.ht.max {
      return false;
    }
    if Packable(f.lt) {
      ok := EncodePacked(s, f, slot);
    } else {
      ok := EncodeTagged(s, f, slot);
    }
  }

  method EncodePacked(s: OStream, f: FieldD, slot: seq<Value>) returns (ok: bool)
    requires s.Fits(0) && ShapedSlot(f, slot) && f.ht.Repeated? && Packable(f.lt) && slot != []
    modifies s
    ensures ok == old(s.Fits(|EncField(f, slot)|))
    ensures s.Fits(0) && (ok ==> s.Emitted(old(s.out), old(s.bytesWritten), EncField(f, slot)))
    decreases f, 0
  {
    hide Varint, EncItems, TagBytes;
    ghost var items := EncItems(f.lt, slot);
    assert EncField(f, slot) == TagBytes(f.tag, 2) + Varint(|items|) + items;
    ok := EncodeTag(s, f.tag, 2);
    if !ok {
      return false;
    }
    var size := PackedSize(f.lt, slot);
    ok := s.Write(Varint(size));
    if !ok {
      return false;
    }
    if s.sizing {
      s.Count(size);
      return true;
    }
    ok := EncodeItems(s, f.lt, slot);
  }

  /** The size of a packed array: counted, unless its items have a fixed width. */
  method PackedSize(lt: LType, vs: seq<Value>) returns (size: nat)
    requires Packable(lt) && forall v :: v in vs ==> ShapedValue(lt, v)
    ensures size == |EncItems(lt, vs)|
  {
    hide EncItems;
    if lt.Fix32? || lt.Fix64? {
      FixedItems(lt, vs);
      return (if lt.Fix32? then 4 else 8) * |vs|;
    }
    var counting := new OStream(true, [], 0);
    var ok := EncodeItems(counting, lt, vs);
    size := counting.bytesWritten;
  }

  method EncodeItems(s: OStream, lt: LType, vs: seq<Value>) returns (ok: bool)
    requires s.Fits(0) && Packable(lt) && forall v :: v in vs ==> ShapedValue(lt, v)
    modifies s
    ensures ok == old(s.Fits(|EncItems(lt, vs)|))
    ensures s.Fits(0) && (ok ==> s.Emitted(old(s.out), old(s.bytesWritten), EncItems(lt, vs)))
    decreases lt, 1
  {
    hide EncScalar, EncItems;
    ghost var done: Bytes := [];
    assert vs[0..] == vs;
    for i := 0 to |vs|
      invariant s.Fits(0) && s.Emitted(old(s.out), old(s.bytesWritten), done)
      invariant done + EncItems(lt, vs[i..]) == EncItems(lt, vs)
    {
      ItemsStep(lt, vs, i, done);
      assert ShapedValue(lt, vs[i]);
      ok := EncodeScalar(s, lt, vs[i]);
      if !ok {
        return false;
      }
      done := done + EncScalar(lt, vs[i]);
    }
    ItemsEnd(lt, vs, done);
    ok := true;
  }

  lemma ItemsStep(lt: LType, vs: seq<Value>, i: nat, done: Bytes)
    requires i < |vs| && Packable(lt)
    ensures done + EncItems(lt, vs[i..]) == (done + EncScalar(lt, vs[i])) + EncItems(lt, vs[i + 1..])
  {
    hide EncScalar;
    assert vs[i..][1..] == vs[i + 1..];
  }

  lemma ItemsEnd(lt: LType, vs: seq<Value>, done: Bytes)
    ensures done + EncItems(lt, vs[|vs|..]) == done
  {
  }

  /** The bytes of one item behind its tag. */
  function Item(f: FieldD, v: Value): Bytes {
    TagBytes(f.tag, WireType(f.lt)) + EncValue(f.lt, v)
  }

  method EncodeItem(s: OStream, f: FieldD, v: Value) returns (ok: bool)
    requires s.Fits(0) && ShapedValue(f.lt, v)
    modifies s
    ensures ok == (EncodableValue(f.lt, v) && old(s.Fits(|Item(f, v)|)))
    ensures s.Fits(0) && (ok ==> s.Emitted(old(s.out), old(s.bytesWritten), Item(f, v)))
    decreases f, 0
  {
    hide EncValue, TagBytes, EncodableValue, ShapedValue, WireType;
    ok := EncodeTag(s, f.tag, WireType(f.lt));
    if ok {
      ok := EncodeValue(s, f.lt, v);
    }
  }

  method EncodeTagged(s: OStream, f: FieldD, vs: seq<Value>) returns (ok: bool)
    requires s.Fits(0) && forall v :: v in vs ==> ShapedValue(f.lt, v)
    modifies s
    ensures ok == ((forall k :: 0 <= k < |vs| ==> EncodableValue(f.lt, vs[k])) && old(s.Fits(|EncTagged(f, vs)|)))
    ensures s.Fits(0) && (ok ==> s.Emitted(old(s.out), old(s.bytesWritten), EncTagged(f, vs)))
    decreases f, 1
  {
    hide EncTagged, EncodableValue, ShapedValue, Item;
    ghost var done: Bytes := [];
    assert vs[0..] == vs;
    for i := 0 to |vs|
      invariant s.Fits(0) && s.Emitted(old(s.out), old(s.bytesWritten), done)
      invariant done + EncTagged(f, vs[i..]) == EncTagged(f, vs)
      invariant forall k :: 0 <= k < i ==> EncodableValue(f.lt, vs[k])
    {
      TaggedStep(f, vs, i, done);
      ok := EncodeItem(s, f, vs[i]);
      if !ok {
        return false;
      }
      done := done + Item(f, vs[i]);
    }
    TaggedEnd(f, vs, done);
    ok := true;
  }

  lemma TaggedStep(f: FieldD, vs: seq<Value>, i: nat, done: Bytes)
    requires i < |vs|
    ensures done + EncTagged(f, vs[i..]) == (done + Item(f, vs[i])) + EncTagged(f, vs[i + 1..])
  {
    hide EncValue, TagBytes;
    assert vs[i..][1..] == vs[i + 1..];
  }

  lemma TaggedEnd(f: FieldD, vs: seq<Value>, done: Bytes)
    ensures done + EncTagged(f, vs[|vs|..]) == done
  {
  }

  /** A message within the bounds of its storage can be encoded. */
  lemma {:induction false} MessageOkEncodes(desc: seq<FieldD>, m: Slots)
    requires DescOk(desc) && MessageOk(desc, m)
    ensures Shaped(desc, m) && Encodable(desc, m)
    decreases desc
  {
    forall i | 0 <= i < |desc| ensures ShapedSlot(desc[i], m[i]) && EncodableSlot(desc[i], m[i]) {
      SlotOkEncodes(desc[i], m[i]);
    }
  }

  lemma {:induction false} SlotOkEncodes(f: FieldD, slot: seq<Value>)
    requires FieldOk(f) && SlotOk(f, slot)
    ensures ShapedSlot(f, slot) && EncodableSlot(f, slot)
    decreases f
  {
    hide ShapedValue, EncodableValue, ValueOk, IsZero;
    forall k | 0 <= k < |slot| ensures ShapedValue(f.lt, slot[k]) && EncodableValue(f.lt, slot[k]) {
      ValueOkEncodes(f.lt, slot[k]);
    }
  }

  lemma {:induction false} ValueOkEncodes(lt: LType, v: Value)
    requires LTypeOk(lt) && ValueOk(lt, v)
    ensures ShapedValue(lt, v) && EncodableValue(lt, v)
    decreases lt
  {
    if lt.Submessage? {
      MessageOkEncodes(lt.fields, v.slots);
    }
  }

  /** A message of the C struct: all that its types enforce. Counts of arrays and sizes of bytes are left to whoever
      fills it in. */
  predicate Typed(desc: seq<FieldD>, m: Slots)
    decreases desc
  {
    && |m| == |desc| && (forall i :: 0 <= i < |desc| ==> TypedSlot(desc[i], m[i]))
    && forall i, j ::
         0 <= i < |desc| && 0 <= j < |desc| && i != j && SameUnion(desc[i], desc[j]) && m[i] != [] ==> m[j] == []
  }

  predicate TypedSlot(f: FieldD, slot: seq<Value>)
    decreases f
  {
    && (forall k :: 0 <= k < |slot| ==> TypedValue(f.lt, slot[k]))
    && match f.ht
       case Required => |slot| == 1
       case Singular => |slot| == 1
       case Optional => |slot| <= 1
       case Oneof(_) => |slot| <= 1
       case Repeated(max, fixedCount) => fixedCount ==> |slot| == max
  }

  predicate TypedValue(lt: LType, v: Value)
    decreases lt
  {
    match lt
    case BytesOf(_) => v.Blob?
    case Submessage(fields) => v.Msg? && Typed(fields, v.slots)
    case _ => ValueOk(lt, v)
  }

  /** The encoder accepts exactly the messages whose counts and sizes are within their bounds, at every depth. */
  lemma {:induction false} EncodableExactly(desc: seq<FieldD>, m: Slots)
    requires Typed(desc, m)
    ensures Encodable(desc, m) <==> MessageOk(desc, m)
    decreases desc
  {
    forall i | 0 <= i < |desc| ensures EncodableSlot(desc[i], m[i]) <==> SlotOk(desc[i], m[i]) {
      SlotEncodableExactly(desc[i], m[i]);
    }
  }

  lemma {:induction false} SlotEncodableExactly(f: FieldD, slot: seq<Value>)
    requires TypedSlot(f, slot)
    ensures EncodableSlot(f, slot) <==> SlotOk(f, slot)
    decreases f
  {
    hide IsZero;
    forall k | 0 <= k < |slot| ensures EncodableValue(f.lt, slot[k]) <==> ValueOk(f.lt, slot[k]) {
      ValueEncodableExactly(f.lt, slot[k]);
    }
    if f.ht.Singular? && IsZero(f.lt, slot[0]) {
      ZeroIsOk(f.lt, slot[0]);
    }
  }

  lemma {:induction false} ValueEncodableExactly(lt: LType, v: Value)
    requires TypedValue(lt, v)
    ensures EncodableValue(lt, v) <==> ValueOk(lt, v)
    decreases lt
  {
    if lt.Submessage? {
      EncodableExactly(lt.fields, v.slots);
    }
  }

  /** What is zero is within all bounds. */
  lemma {:induction false} ZeroIsOk(lt: LType, v: Value)
    requires TypedValue(lt, v) && IsZero(lt, v)
    ensures ValueOk(lt, v)
    decreases lt
  {
    if lt.Submessage? {
      forall i | 0 <= i < |lt.fields| ensures SlotOk(lt.fields[i], v.slots[i]) {
        assert ZeroSlot(lt.fields[i], v.slots[i]) && TypedSlot(lt.fields[i], v.slots[i]);
        ZeroSlotIsOk(lt.fields[i], v.slots[i]);
      }
    }
  }

  lemma {:induction false} ZeroSlotIsOk(f: FieldD, slot: seq<Value>)
    requires TypedSlot(f, slot) && ZeroSlot(f, slot)
    ensures SlotOk(f, slot)
    decreases f
  {
    if f.ht.Singular? {
      ZeroIsOk(f.lt, slot[0]);
    }
  }

  /** pb_encode into a buffer: it succeeds if and only if the message is within the bounds of its storage and its bytes
      are no more than the buffer has room for. */
  method EncodeBuffer(desc: seq<FieldD>, m: Slots, room: nat) returns (ok: bool, b: Bytes)
    requires DescOk(desc) && Typed(desc, m)
    ensures ok <==> MessageOk(desc, m) && |EncMsg(desc, m)| <= room
    ensures ok ==> b == EncMsg(desc, m)
  {
    TypedIsShaped(desc, m);
    EncodableExactly(desc, m);
    hide DescOk, Typed, MessageOk, Shaped, Encodable, EncFrom;
    var s := new OStream(false, [], room);
    ok := Encode(s, desc, m);
    b := s.out;
  }

  lemma {:induction false} TypedIsShaped(desc: seq<FieldD>, m: Slots)
    requires DescOk(desc) && Typed(desc, m)
    ensures Shaped(desc, m)
    decreases desc
  {
    forall i | 0 <= i < |desc| ensures ShapedSlot(desc[i], m[i]) {
      TypedSlotIsShaped(desc[i], m[i]);
    }
  }

  lemma {:induction false} TypedSlotIsShaped(f: FieldD, slot: seq<Value>)
    requires FieldOk(f) && TypedSlot(f, slot)
    ensures ShapedSlot(f, slot)
    decreases f
  {
    forall k | 0 <= k < |slot| ensures ShapedValue(f.lt, slot[k]) {
      TypedValueIsShaped(f.lt, slot[k]);
    }
  }

  lemma {:induction false} TypedValueIsShaped(lt: LType, v: Value)
    requires LTypeOk(lt) && TypedValue(lt, v)
    ensures ShapedValue(lt, v)
    decreases lt
  {
    if lt.Submessage? {
      TypedIsShaped(lt.fields, v.slots);
    }
  }
}
