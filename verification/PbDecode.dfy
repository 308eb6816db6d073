/**
  nanopb's decoder (pb_decode.c) over a stream that is cut into substreams.
 */
module PbDecode {
  import opened Coding
  import opened PbVarint
  import opened PbMessage
  import opened PbIter
  import opened PbRequired
  import F = Format

  /** A stream over a buffer: where it is, and how many bytes it may still give out. */
  class IStream {
    const buf: Bytes
    var pos: nat
    var left: nat

    ghost predicate Valid()
      reads this
    {
      pos + left <= |buf|
    }

    ghost function Rest(): Bytes
      reads this
      requires Valid()
    {
      buf[pos..pos + left]
    }

    constructor (buf: Bytes, pos: nat, left: nat)
      requires pos + left <= |buf|
      ensures this.buf == buf && this.pos == pos && this.left == left
      ensures Valid() && Rest() == buf[pos..pos + left]
    {
      this.buf, this.pos, this.left := buf, pos, left;
    }

    /** pb_read. */
    method Read(count: nat) returns (ok: bool, b: Bytes)
      requires Valid()
      modifies this
      ensures Valid() && pos + left == old(pos + left)
      ensures ok == GetBytes(count, old(Rest())).Got?
      ensures ok ==> b == GetBytes(count, old(Rest())).value && Rest() == GetBytes(count, old(Rest())).rest
    {
      if left < count {
        return false, [];
      }
      b := buf[pos..pos + count];
      pos := pos + count;
      left := left - count;
      ok := true;
    }

    /** pb_readbyte. */
    method ReadByte() returns (ok: bool, byte: Byte)
      requires Valid()
      modifies this
      ensures Valid() && pos + left == old(pos + left)
      ensures ok == (old(Rest()) != [])
      ensures ok ==> byte == old(Rest())[0] && Rest() == old(Rest())[1..] && left < old(left)
    {
      if left == 0 {
        return false, 0;
      }
      byte := buf[pos];
      pos := pos + 1;
      left := left - 1;
      ok := true;
    }
  }

  // ----- varints -----

  /** pb_decode_varint32. */
  method DecodeVarint32(s: IStream) returns (ok: bool, v: Word)
    requires s.Valid()
    modifies s
    ensures s.Valid() && s.pos + s.left == old(s.pos + s.left)
    ensures ok == Var32(old(s.Rest())).Got?
    ensures ok ==> v == Var32(old(s.Rest())).value && s.Rest() == Var32(old(s.Rest())).rest
  {
    hide Shifted;
    var byte;
    ok, byte := s.ReadByte();
    if !ok {
      return false, 0;
    }
    if byte < 128 {
      return true, byte;
    }
    var result: Word, bitpos: nat := byte % 128, 7;
    ghost var all := Var32(old(s.Rest()));
    while true
      invariant s.Valid() && s.pos + s.left == old(s.pos + s.left)
      invariant all == Var32From(s.Rest(), result, bitpos)
      decreases s.left
    {
      ok, byte := s.ReadByte();
      if !ok {
        return false, 0;
      }
      if bitpos >= 32 {
        var signExtension := if bitpos < 63 then 0xff else 0x01;
        if byte % 128 != 0 && (result < 0x8000_0000 || byte != signExtension) {
          return false, 0;
        }
      } else {
        result := (result + Shifted(byte % 128, bitpos)) % 0x1_0000_0000;
      }
      bitpos := bitpos + 7;
      if byte < 128 {
        break;
      }
    }
    if bitpos == 35 && byte % 128 >= 16 {
      return false, 0;
    }
    return true, result;
  }

  /** pb_decode_varint. */
  method DecodeVarint(s: IStream) returns (ok: bool, v: Long)
    requires s.Valid()
    modifies s
    ensures s.Valid() && s.pos + s.left == old(s.pos + s.left)
    ensures ok == Get64(old(s.Rest())).Got?
    ensures ok ==> v == Get64(old(s.Rest())).value && s.Rest() == Get64(old(s.Rest())).rest
  {
    hide Times, GetVarint, Wrap64;
    var result: Long, bitpos: nat, scale: nat := 0, 0, 1;
    ghost var all, sum: nat := GetVarint(old(s.Rest()), 10), 0;
    CarryNothing(all);
    WrapAdd(0, 0);
    while true
      invariant s.Valid() && s.pos + s.left == old(s.pos + s.left)
      invariant bitpos % 7 == 0 && bitpos <= 70 && result == Wrap64(sum)
      invariant all == Carried(GetVarint(s.Rest(), 10 - bitpos / 7), sum, scale)
      decreases s.left
    {
      if bitpos >= 64 {
        GetNothing(s.Rest(), 0);
        return false, 0;
      }
      ghost var b := s.Rest();
      var byte;
      ok, byte := s.ReadByte();
      if !ok {
        GetNothing(b, 10 - bitpos / 7);
        return false, 0;
      }
      CarryOn(b, 10 - bitpos / 7, sum, scale);
      var part := Times(scale, byte % 128);
      WrapAdd(sum, part);
      result := Wrap64(result + part);
      sum, bitpos, scale := sum + part, bitpos + 7, 128 * scale;
      if byte < 128 {
        return true, result;
      }
    }
  }

  method SkipVarint32(s: IStream) returns (ok: bool)
    requires s.Valid()
    modifies s
    ensures s.Valid() && s.pos + s.left == old(s.pos + s.left)
    ensures ok == SkipVarint(old(s.Rest())).Got?
    ensures ok ==> s.Rest() == SkipVarint(old(s.Rest())).rest
  {
    ghost var all := SkipVarint(old(s.Rest()));
    while true
      invariant s.Valid() && s.pos + s.left == old(s.pos + s.left) && all == SkipVarint(s.Rest())
      decreases s.left
    {
      var byte;
      ok, byte := s.ReadByte();
      if !ok {
        return false;
      }
      if byte < 128 {
        return true;
      }
    }
  }

  /** pb_skip_field. */
  method SkipField(s: IStream, wireType: nat) returns (ok: bool)
    requires s.Valid()
    modifies s
    ensures s.Valid() && s.pos + s.left == old(s.pos + s.left)
    ensures ok == Skip(wireType, old(s.Rest())).Got?
    ensures ok ==> s.Rest() == Skip(wireType, old(s.Rest())).rest
  {
    hide Var32, SkipVarint;
    var skipped;
    if wireType == 0 {
      ok := SkipVarint32(s);
    } else if wireType == 1 {
      ok, skipped := s.Read(8);
    } else if wireType == 2 {
      var length;
      ok, length := DecodeVarint32(s);
      if ok {
        ok, skipped := s.Read(length);
      }
    } else if wireType == 5 {
      ok, skipped := s.Read(4);
    } else {
      ok := false;
    }
  }

  // ----- substreams -----

  /** pb_make_string_substream: the length is taken off the stream at once, its position only moves
      when the substream is closed. */
  method MakeSubstream(s: IStream) returns (ok: bool, sub: IStream)
    requires s.Valid()
    modifies s
    ensures ok == (Var32(old(s.Rest())).Got? && Var32(old(s.Rest())).value <= |Var32(old(s.Rest())).rest|)
    ensures fresh(sub) && sub.Valid() && sub.buf == s.buf
    ensures ok ==> var n, rest := Var32(old(s.Rest())).value, Var32(old(s.Rest())).rest;
      && sub.Rest() == rest[..n]
      && sub.pos + sub.left + s.left <= |s.buf| && s.buf[sub.pos + sub.left..sub.pos + sub.left + s.left] == rest[n..]
      && sub.pos + sub.left + s.left == old(s.pos + s.left)
    ensures s.Valid() && s.pos + s.left <= old(s.pos + s.left)
  {
    hide Var32;
    var size;
    ok, size := DecodeVarint32(s);
    sub := new IStream(s.buf, s.pos, 0);
    if !ok || s.left < size {
      return false, sub;
    }
    sub := new IStream(s.buf, s.pos, size);
    s.left := s.left - size;
  }

  /** pb_close_string_substream: what the message did not use is skipped. */
  method CloseSubstream(s: IStream, sub: IStream)
    requires sub.Valid() && s != sub && sub.buf == s.buf && sub.pos + sub.left + s.left <= |s.buf|
    modifies s, sub
    ensures s.Valid() && s.pos == old(sub.pos + sub.left) && s.left == old(s.left)
    ensures s.Rest() == s.buf[old(sub.pos + sub.left)..old(sub.pos + sub.left + s.left)]
  {
    if sub.left != 0 {
      var _, _ := sub.Read(sub.left);
    }
    s.pos := sub.pos;
  }

  // ----- values -----

  /** The decoders of everything but submessages. */
  method DecodeScalar(s: IStream, lt: LType) returns (ok: bool, v: Value)
    requires s.Valid() && !lt.Submessage?
    modifies s
    ensures s.Valid() && s.pos + s.left == old(s.pos + s.left)
    ensures ok == DecScalar(lt, old(s.Rest())).Got?
    ensures ok ==> v == DecScalar(lt, old(s.Rest())).value && s.Rest() == DecScalar(lt, old(s.Rest())).rest
  {
    hide Var32, Get64, Cast, Half, Signed64, Unzigzag, UpToNul, DecodeFixed32, DecodeFixed64;
    v := Num(0);
    if lt.Bool? {
      var u;
      ok, u := DecodeVarint32(s);
      v := Num(if u != 0 then 1 else 0);
    } else if lt.Signed? || lt.Unsigned? || lt.Zig? {
      ok, v := DecodeInteger(s, lt);
    } else if lt.Fix32? {
      var b;
      ok, b := s.Read(4);
      if ok {
        FixedPrefix(old(s.Rest()));
        v := Num(DecodeFixed32(b));
      }
    } else if lt.Fix64? {
      var b;
      ok, b := s.Read(8);
      if ok {
        FixedPrefix(old(s.Rest()));
        v := Num(DecodeFixed64(b));
      }
    } else {
      ok, v := DecodeBlob(s, lt);
    }
  }

  lemma FixedPrefix(b: Bytes)
    ensures |b| >= 4 ==> DecodeFixed32(b[..4]) == DecodeFixed32(b)
    ensures |b| >= 8 ==> DecodeFixed64(b[..8]) == DecodeFixed64(b)
  {
    hide DecodeFixed32;
    if |b| >= 4 {
      DecodePrefix(b, 4);
    }
    if |b| >= 8 {
      DecodePrefix(b, 8);
      DecodePrefix(b[4..], 4);
      assert b[..8][4..] == b[4..][..4];
    }
  }

  /** pb_dec_varint, pb_dec_uvarint and pb_dec_svarint: what does not fit the field is refused. */
  method DecodeInteger(s: IStream, lt: LType) returns (ok: bool, v: Value)
    requires s.Valid() && (lt.Signed? || lt.Unsigned? || lt.Zig?)
    modifies s
    ensures s.Valid() && s.pos + s.left == old(s.pos + s.left)
    ensures ok == DecScalar(lt, old(s.Rest())).Got?
    ensures ok ==> v == DecScalar(lt, old(s.Rest())).value && s.Rest() == DecScalar(lt, old(s.Rest())).rest
  {
    hide Get64, Cast, Half, Signed64, Unzigzag;
    var value;
    ok, value := DecodeVarint(s);
    if !ok {
      return false, Num(0);
    }
    if lt.Unsigned? {
      if value >= 2 * Half(lt.size) {
        return false, Num(0);
      }
      return true, Num(value);
    }
    var svalue := if lt.Zig? then Unzigzag(value) else if lt.size == 8 then Signed64(value) else Cast(4, value);
    var clamped := Cast(lt.size, svalue);
    if clamped != svalue {
      return false, Num(0);
    }
    return true, Num(svalue);
  }

  /** pb_dec_bytes, pb_dec_string and pb_dec_fixed_length_bytes. */
  method DecodeBlob(s: IStream, lt: LType) returns (ok: bool, v: Value)
    requires s.Valid() && (lt.BytesOf? || lt.StringOf? || lt.FixedBytes?)
    modifies s
    ensures s.Valid() && s.pos + s.left == old(s.pos + s.left)
    ensures ok == DecScalar(lt, old(s.Rest())).Got?
    ensures ok ==> v == DecScalar(lt, old(s.Rest())).value && s.Rest() == DecScalar(lt, old(s.Rest())).rest
  {
    hide Var32, UpToNul;
    var size, b;
    ok, size := DecodeVarint32(s);
    if !ok {
      return false, Num(0);
    }
    if lt.BytesOf? && size > lt.max {
      return false, Num(0);
    }
    if lt.StringOf? && size + 1 > lt.room {
      return false, Num(0);
    }
    if lt.FixedBytes? {
      if size == 0 {
        return true, Blob(seq(lt.len, _ => 0));
      }
      if size != lt.len {
        return false, Num(0);
      }
    }
    ok, b := s.Read(size);
    v := Blob(if lt.StringOf? then UpToNul(b) else b);
  }

  // ----- messages -----

  method DecodeValue(s: IStream, lt: LType, init: Value) returns (ok: bool, v: Value)
    requires s.Valid() && LTypeOk(lt)
    modifies s
    ensures s.Valid() && s.pos + s.left <= old(s.pos + s.left)
    ensures var r := DecValue(lt, init, old(s.Rest()));
      ok == r.Got? && (ok ==> v == r.value && s.Rest() == r.rest && s.pos + s.left == old(s.pos + s.left))
    decreases lt
  {
    hide Var32, DecMsg, DescOk;
    if lt.Submessage? {
      if !init.Msg? {
        return false, init;  // not a struct of this type
      }
      ok, v := DecodeSubmessage(s, lt.fields, init.slots);
    } else {
      hide DecScalar;
      ok, v := DecodeScalar(s, lt);
    }
  }

  /** pb_dec_submessage: the message is read from its own substream. */
  method DecodeSubmessage(s: IStream, fields: seq<FieldD>, init: Slots) returns (ok: bool, v: Value)
    requires s.Valid() && DescOk(fields)
    modifies s
    ensures s.Valid() && s.pos + s.left <= old(s.pos + s.left)
    ensures var r := DecValue(Submessage(fields), Msg(init), old(s.Rest()));
      ok == r.Got? && (ok ==> v == r.value && s.Rest() == r.rest && s.pos + s.left == old(s.pos + s.left))
    decreases fields, 2
  {
    hide Var32, DecMsg, DescOk;
    v := Num(0);
    var sub, slots;
    ok, sub := MakeSubstream(s);
    if !ok {
      return;
    }
    ok, slots := DecodeNoInit(sub, fields, init);
    CloseSubstream(s, sub);
    v := Msg(slots);
  }

  /** The loop over a packed array. */
  method DecodePackedItems(s: IStream, lt: LType, slot: seq<Value>, max: nat) returns (ok: bool, items: seq<Value>)
    requires s.Valid() && Packable(lt)
    modifies s
    ensures s.Valid() && s.pos + s.left == old(s.pos + s.left)
    ensures var r := DecPacked(lt, slot, max, old(s.Rest()));
      ok == r.Got? && (ok ==> items == r.value && s.Rest() == r.rest)
  {
    hide DecScalar;
    items := slot;
    ghost var all := DecPacked(lt, slot, max, old(s.Rest()));
    while s.left > 0 && |items| < max
      invariant s.Valid() && s.pos + s.left == old(s.pos + s.left)
      invariant all == DecPacked(lt, items, max, s.Rest())
      decreases s.left
    {
      var v;
      ghost var b := s.Rest();
      ok, v := DecodeScalar(s, lt);
      if !ok {
        return false, [];
      }
      assert |s.Rest()| < |b|;
      items := items + [v];
    }
    ok := true;
  }

  method DecodePacked(s: IStream, f: FieldD, slot: seq<Value>) returns (ok: bool, filled: seq<Value>)
    requires s.Valid() && f.ht.Repeated? && Packable(f.lt)
    modifies s
    ensures s.Valid() && s.pos + s.left <= old(s.pos + s.left)
    ensures var r := DecField(f, 2, slot, old(s.Rest()));
      ok == r.Got? && (ok ==> filled == r.value && s.Rest() == r.rest && s.pos + s.left == old(s.pos + s.left))
  {
    hide Var32, DecPacked;
    filled := [];
    var sub;
    ok, sub := MakeSubstream(s);
    if !ok {
      return;
    }
    ok, filled := DecodePackedItems(sub, f.lt, slot, f.ht.max);
    if sub.left != 0 {
      return false, [];
    }
    CloseSubstream(s, sub);
  }

  /** decode_static_field. */
  method DecodeField(s: IStream, f: FieldD, wireType: nat, slot: seq<Value>) returns (ok: bool, filled: seq<Value>)
    requires s.Valid() && FieldOk(f)
    modifies s
    ensures s.Valid() && s.pos + s.left <= old(s.pos + s.left)
    ensures var r := DecField(f, wireType, slot, old(s.Rest()));
      ok == r.Got? && (ok ==> filled == r.value && s.Rest() == r.rest && s.pos + s.left == old(s.pos + s.left))
    decreases f
  {
    hide Var32, DecValue, DecPacked, Default, LTypeOk;
    filled := [];
    if f.ht.Repeated? {
      if wireType == 2 && Packable(f.lt) {
        ok, filled := DecodePacked(s, f, slot);
      } else {
        if |slot| >= f.ht.max {
          return false, [];
        }
        var v;
        ok, v := DecodeValue(s, f.lt, Default(f));
        filled := slot + [v];
      }
    } else {
      var v;
      ok, v := DecodeValue(s, f.lt, Content(f, slot));
      filled := [v];
    }
  }

  /** With unique tags it does not matter where the iterator stands. */
  lemma FoundIsFind(desc: seq<FieldD>, pos: nat, tag: nat, found: nat)
    requires UniqueTags(desc) && pos < |desc| && FoundFrom(desc, pos, tag, found)
    ensures Find(desc, tag, 0) == found
  {
  }

  lemma NotFoundIsFind(desc: seq<FieldD>, tag: nat)
    requires forall k :: 0 <= k < |desc| ==> desc[k].tag != tag
    ensures Find(desc, tag, 0) == |desc|
  {
  }

  /** The number of required fields, found by stepping to the end of the descriptor. */
  method CountRequired(iter: FieldIter) returns (n: nat)
    requires iter.Valid()
    modifies iter
    ensures n == RequiredCount(iter.desc) <= MAX_REQUIRED
  {
    var lastRequired := false;
    if iter.desc != [] {
      while true
        invariant iter.Valid() && iter.pos < |iter.desc|
        decreases |iter.desc| - iter.pos
      {
        n, lastRequired := iter.requiredIndex, iter.desc[iter.pos].ht.Required?;
        var more := iter.Next();
        if !more {
          break;
        }
      }
    } else {
      n := 0;
    }
    if lastRequired {
      n := n + 1;
    }
    if n > MAX_REQUIRED {
      n := MAX_REQUIRED;
    }
  }

  /** What the loop does with a key. */
  lemma KeyStep(desc: seq<FieldD>, st: Progress, b: Bytes)
    requires |st.slots| == |desc| && b != []
    ensures Var32(b).Fail? ==> DecLoop(desc, st, b) == F.None
    ensures Var32(b).Got? ==>
      var key, rest := Var32(b).value, Var32(b).rest;
      var i := Find(desc, key / 8, 0);
      && (key == 0 ==> DecLoop(desc, st, b) == F.Some(st))
      && (key != 0 && i < |desc| ==> DecLoop(desc, st, b) == DecKnown(desc, st, i, key % 8, rest))
      && (key != 0 && i == |desc| ==>
            var skipped := if desc == [] && key / 8 == 0 then Dropped(Var32(rest)) else Skip(key % 8, rest);
            DecLoop(desc, st, b) == if skipped.Got? then DecLoop(desc, st, skipped.rest) else F.None)
  {
    hide Var32, DecKnown, Skip;
  }

  function Dropped(r: Parsed<Word>): Parsed<()> {
    if r.Got? then Got((), r.rest) else Fail
  }

  /** The turn of the loop for a field the iterator has found. */
  method ReadKnown(s: IStream, iter: FieldIter, fieldsSeen: FieldsSeen, was: Slots, filled: F.Option<nat>,
    wireType: nat,
                   ghost noted: set<nat>)
    returns (ok: bool, slots: Slots, filling: F.Option<nat>, ghost seen: set<nat>)
    requires s.Valid() && iter.Valid() && iter.pos < |iter.desc| == |was| && DescOk(iter.desc)
    requires fieldsSeen.Notes(noted) && forall k :: k in noted ==> k < RequiredCount(iter.desc)
    modifies s, fieldsSeen.words
    ensures s.Valid() && s.pos + s.left <= old(s.pos + s.left) && |slots| == |was|
    ensures fieldsSeen.Notes(seen) && forall k :: k in seen ==> k < RequiredCount(iter.desc)
    ensures var r := DecKnown(iter.desc, Progress(was, noted, filled), iter.pos, wireType, old(s.Rest()));
      if ok then r == DecLoop(iter.desc, Progress(slots, seen, filling), s.Rest())
        && s.pos + s.left == old(s.pos + s.left) && s.left < old(s.left)
      else r == F.None
    decreases iter.desc, 0
  {
    hide DecLoop, DecField, Filled, WordOf, RequiredIndex, FieldOk;
    var desc, i := iter.desc, iter.pos;
    slots, filling, seen := was, filled, noted;
    RequiredStep(desc, i);
    if desc[i].ht.Repeated? && desc[i].ht.fixedCount && filling != F.Some(i) {
      if !Filled(desc, Progress(was, {}, filled)) {
        FilledSame(desc, was, noted, filled);
        return false, slots, filling, seen;
      }
      FilledSame(desc, was, noted, filled);
      filling := F.Some(i);
      slots := slots[i := []];
    }
    if desc[i].ht.Required? && iter.requiredIndex < MAX_REQUIRED {
      fieldsSeen.Note(iter.requiredIndex, seen);
      seen := seen + {iter.requiredIndex};
    }
    var slot;
    ok, slot := DecodeField(s, desc[i], wireType, slots[i]);
    if ok {
      slots := Store(desc, slots, i, slot);
    }
  }

  lemma FilledSame(desc: seq<FieldD>, slots: Slots, seen: set<nat>, filling: F.Option<nat>)
    ensures Filled(desc, Progress(slots, seen, filling)) == Filled(desc, Progress(slots, {}, filling))
  {
  }

  lemma RequiredStep(desc: seq<FieldD>, i: nat)
    requires i < |desc| && DescOk(desc)
    ensures desc[i].ht.Required? && RequiredIndex(desc, i) < MAX_REQUIRED
      ==> RequiredIndex(desc, i) < RequiredCount(desc)
    ensures FieldOk(desc[i])
  {
    RequiredGrows(desc, i + 1, |desc|);
  }

  /** pb_decode_noinit: whatever comes in the stream, the struct is what `DecMsg` says. The required
      fields are counted by the iterator and noted in the bitmap. */
  method DecodeNoInit(s: IStream, desc: seq<FieldD>, start: Slots) returns (ok: bool, slots: Slots)
    requires s.Valid() && DescOk(desc)
    modifies s
    ensures s.Valid() && s.pos + s.left <= old(s.pos + s.left)
    ensures ok == DecMsg(desc, start, old(s.Rest())).Some?
    ensures ok ==> s.pos + s.left == old(s.pos + s.left) && slots == DecMsg(desc, start, old(s.Rest())).value
    decreases desc, 1
  {
    hide DecLoop, DecKnown, Skip, Var32, FoundFrom, Filled, RequiredCount, WordOf, DescOk, Find;
    slots := start;
    if |start| != |desc| {
      return false, start;  // not a struct of this type
    }
    var iter := new FieldIter(desc);
    var fieldsSeen := new FieldsSeen();
    var filling: F.Option<nat> := F.None;
    ghost var seen: set<nat> := {};
    ghost var all := DecLoop(desc, Progress(start, {}, F.None), old(s.Rest()));
    ghost var ended := false;
    while s.left > 0
      invariant s.Valid() && s.pos + s.left == old(s.pos + s.left)
      invariant iter.Valid() && iter.desc == desc && fieldsSeen.Notes(seen) && |slots| == |desc|
      invariant fresh(iter) && fresh(fieldsSeen) && fresh(fieldsSeen.words)
      invariant forall k :: k in seen ==> k < RequiredCount(desc)
      invariant all == DecLoop(desc, Progress(slots, seen, filling), s.Rest())
      decreases s.left
    {
      KeyStep(desc, Progress(slots, seen, filling), s.Rest());
      var key;
      ok, key := DecodeVarint32(s);
      if !ok {
        return;
      }
      if key == 0 {
        ended := true;
        break;
      }
      var found := FindField(iter, key / 8);
      if found && desc != [] {
        ok, slots, filling, seen := ReadKnown(s, iter, fieldsSeen, slots, filling, key % 8, seen);
      } else if found {
        var u;
        ok, u := DecodeVarint32(s);
      } else {
        ok := SkipField(s, key % 8);
      }
      if !ok {
        return;
      }
    }
    if !ended {
      assert s.Rest() == [];
      LoopEnd(desc, Progress(slots, seen, filling));
    }
    FilledSame(desc, slots, seen, filling);
    if !Filled(desc, Progress(slots, {}, filling)) {
      return false, start;
    }
    var count := CountRequired(iter);
    ok := fieldsSeen.AllSeen(count, seen);
  }

  lemma LoopEnd(desc: seq<FieldD>, st: Progress)
    requires |st.slots| == |desc|
    ensures DecLoop(desc, st, []) == F.Some(st)
  {
  }

  method FindField(iter: FieldIter, tag: nat) returns (found: bool)
    requires iter.Valid() && DescOk(iter.desc)
    modifies iter
    ensures iter.Valid()
    ensures iter.desc != []
      ==> found == (Find(iter.desc, tag, 0) < |iter.desc|) && (found ==> iter.pos == Find(iter.desc, tag, 0))
    ensures iter.desc == [] ==> found == (tag == 0)
  {
    ghost var pos := iter.pos;
    found := iter.Find(tag);
    if iter.desc != [] {
      if found {
        FoundIsFind(iter.desc, pos, tag, iter.pos);
      } else {
        NotFoundIsFind(iter.desc, tag);
      }
    }
  }

  /** pb_decode on a buffer. */
  method DecodeBuffer(desc: seq<FieldD>, b: Bytes) returns (ok: bool, slots: Slots)
    requires DescOk(desc)
    ensures ok == Decode(desc, b).Some? && (ok ==> slots == Decode(desc, b).value)
  {
    hide DecMsg, DescOk;
    var stream := new IStream(b, 0, |b|);
    assert b[0..|b|] == b;
    ok, slots := DecodeNoInit(stream, desc, Defaults(desc));
  }
}
