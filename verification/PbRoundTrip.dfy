/**
  Decoding what nanopb's encoder wrote.
 */
module PbRoundTrip {
  import opened Coding
  import opened PbVarint
  import opened PbMessage
  import F = Format

  // ----- scalars -----

  lemma {:induction false} NoNul(b: Bytes)
    requires 0 !in b
    ensures UpToNul(b) == b
  {
    if b != [] {
      NoNul(b[1..]);
    }
  }

  lemma LowBits(n: int, size: nat)
    requires size == 1 || size == 2 || size == 4 || size == 8
    requires -(Half(size) as int) <= n < Half(size)
    ensures Cast(size, n) == n && Signed64(Low64(n)) == n && (size != 8 ==> Cast(4, Low64(n)) == n)
  {
    var u := if n >= 0 then n else n + 0x1_0000_0000_0000_0000;
    assert Low64(n) == u;
    hide Low64;
    assert n % 0x1_0000_0000 == u % 0x1_0000_0000;
    if size != 8 {
      assert -0x8000_0000 <= n < 0x8000_0000;
      assert Cast(4, u) == n;
      hide Cast;
      SmallCast(n, size);
    }
  }

  lemma SmallCast(n: int, size: nat)
    requires size == 1 || size == 2 || size == 4
    requires -(Half(size) as int) <= n < Half(size)
    ensures Cast(size, n) == n
  {
  }

  lemma StringRoundTrip(b: Bytes, rest: Bytes)
    requires |b| < 0x1_0000_0000
    ensures var e := (Varint(|b|) + b) + rest;
      && Var32(e) == Got(|b|, b + rest) && (|b| <= |b + rest| ==> GetBytes(|b|, b + rest) == Got(b, rest))
  {
    hide Var32, Varint;
    Var32RoundTrip(|b|, b + rest);
    assert (Varint(|b|) + b) + rest == Varint(|b|) + (b + rest);
  }

  lemma NumberRoundTrip(lt: LType, n: int, rest: Bytes)
    requires LTypeOk(lt) && ValueOk(lt, Num(n)) && !lt.Submessage?
    ensures DecScalar(lt, EncScalar(lt, Num(n)) + rest) == Got(Num(n), rest)
  {
    hide Var32, Get64, Varint, Fixed32, Fixed64, DecodeFixed32, DecodeFixed64, Cast, Low64, Signed64, Zigzag, Unzigzag,
      UpToNul;
    match lt
    case Bool =>
      SmallLow64(n);
      Var32RoundTrip(n, rest);
    case Signed(size) =>
      LowBits(n, size);
      Get64RoundTrip(Low64(n), rest);
    case Unsigned(size) =>
      SmallLow64(n);
      Get64RoundTrip(Low64(n), rest);
    case Zig(size) =>
      LowBits(n, size);
      ZigzagRoundTrip(n);
      Get64RoundTrip(Zigzag(n), rest);
    case Fix32 =>
      Fixed32RoundTrip(n);
      DecodePrefix(Fixed32(n) + rest, 4);
      assert (Fixed32(n) + rest)[..4] == Fixed32(n) && (Fixed32(n) + rest)[4..] == rest;
    case Fix64 =>
      SmallLow64(n);
      Fixed64RoundTrip(n, rest);
      assert (Fixed64(n) + rest)[8..] == rest;
    case _ =>
  }

  lemma SmallLow64(n: int)
    requires 0 <= n < 0x1_0000_0000_0000_0000
    ensures Low64(n) == n
  {
  }

  lemma BlobRoundTrip(lt: LType, b: Bytes, rest: Bytes)
    requires ValueOk(lt, Blob(b)) && !lt.Submessage? && |b| < 0x1_0000_0000
    ensures DecScalar(lt, EncScalar(lt, Blob(b)) + rest) == Got(Blob(b), rest)
  {
    hide Var32, Varint, UpToNul, GetBytes;
    StringRoundTrip(b, rest);
    if lt.StringOf? {
      NoNul(b);
    } else if lt.FixedBytes? && lt.len == 0 {
      assert b == seq(lt.len, _ => 0) && b + rest == rest;
    }
  }

  lemma ScalarRoundTrip(lt: LType, v: Value, rest: Bytes)
    requires LTypeOk(lt) && ValueOk(lt, v) && !lt.Submessage? && |EncScalar(lt, v)| < 0x1_0000_0000
    ensures DecScalar(lt, EncScalar(lt, v) + rest) == Got(v, rest)
  {
    hide DecScalar;
    match v
    case Num(n) => NumberRoundTrip(lt, n, rest);
    case Blob(b) => BlobRoundTrip(lt, b, rest);
    case Msg(_) =>
  }

  // ----- what comes back -----

  /** An implicit field that is zero is not written, so it comes back with its default. */
  function NormalSlot(f: FieldD, slot: seq<Value>): (r: seq<Value>)
    decreases f
  {
    if f.ht.Singular? && slot != [] && IsZero(f.lt, slot[0]) then [Default(f)] else NormalItems(f.lt, slot)
  }

  function NormalItems(lt: LType, vs: seq<Value>): (r: seq<Value>)
    ensures |r| == |vs|
    decreases lt, 1
  {
    seq(|vs|, k requires 0 <= k < |vs| => NormalValue(lt, vs[k]))
  }

  function NormalValue(lt: LType, v: Value): Value
    decreases lt, 0
  {
    if lt.Submessage? && v.Msg? && |v.slots| == |lt.fields| then Msg(Normal(lt.fields, v.slots)) else v
  }

  function Normal(desc: seq<FieldD>, slots: Slots): (r: Slots)
    requires |slots| == |desc|
    ensures |r| == |desc|
    decreases desc
  {
    seq(|desc|, i requires 0 <= i < |desc| => NormalSlot(desc[i], slots[i]))
  }

  // ----- the decoder's state along the way -----

  /** The repeated field of fixed count that was filled last, among the first `i` fields. */
  function LastFilled(desc: seq<FieldD>, m: Slots, i: nat): (r: F.Option<nat>)
    requires i <= |desc| == |m|
    ensures r.Some? ==> r.value < i && desc[r.value].ht.Repeated? && desc[r.value].ht.fixedCount && m[r.value] != []
  {
    if i == 0 then F.None
    else if desc[i - 1].ht.Repeated? && desc[i - 1].ht.fixedCount && m[i - 1] != [] then F.Some(i - 1)
    else LastFilled(desc, m, i - 1)
  }

  function UpTo(n: nat): set<nat> {
    if n == 0 then {} else UpTo(n - 1) + {n - 1}
  }

  lemma {:induction false} InUpTo(n: nat, k: nat)
    ensures k in UpTo(n) <==> k < n
  {
    if n > 0 {
      InUpTo(n - 1, k);
    }
  }

  function SeenUpTo(desc: seq<FieldD>, i: nat): set<nat>
    requires i <= |desc|
  {
    UpTo(if RequiredIndex(desc, i) < MAX_REQUIRED then RequiredIndex(desc, i) else MAX_REQUIRED)
  }

  /** All fields before field `i` have been read, and `k` items of that field. */
  function Halfway(desc: seq<FieldD>, m: Slots, i: nat, k: nat): (st: Progress)
    requires i < |desc| == |m| && k <= |m[i]|
    ensures |st.slots| == |desc|
  {
    var slot := if k == 0 then InitSlot(desc[i]) else NormalItems(desc[i].lt, m[i][..k]);
    Progress(
      seq(|desc|, j requires 0 <= j < |desc| => if j < i then NormalSlot(desc[j], m[j]) else if j == i then slot
        else InitSlot(desc[j])),
      if k == 0 then SeenUpTo(desc, i) else SeenUpTo(desc, i + 1),
      if k > 0 && desc[i].ht.Repeated? && desc[i].ht.fixedCount then F.Some(i) else LastFilled(desc, m, i))
  }

  function Reached(desc: seq<FieldD>, m: Slots, i: nat): (st: Progress)
    requires i <= |desc| == |m|
    ensures |st.slots| == |desc|
  {
    Progress(seq(|desc|, j requires 0 <= j < |desc| => if j < i then NormalSlot(desc[j], m[j]) else InitSlot(desc[j])),
             SeenUpTo(desc, i), LastFilled(desc, m, i))
  }

  lemma FindsField(desc: seq<FieldD>, i: nat)
    requires UniqueTags(desc) && i < |desc|
    ensures Find(desc, desc[i].tag, 0) == i
  {
  }

  /** A key that the encoder wrote leads the decoder to its field. */
  lemma KeyRead(desc: seq<FieldD>, st: Progress, i: nat, wireType: nat, b: Bytes)
    requires UniqueTags(desc) && i < |desc| == |st.slots| && 1 <= desc[i].tag < 0x2000_0000 && wireType < 8
    ensures DecLoop(desc, st, TagBytes(desc[i].tag, wireType) + b) == DecKnown(desc, st, i, wireType, b)
  {
    hide DecKnown, Varint, Var32, Skip;
    var key := desc[i].tag * 8 + wireType;
    Var32RoundTrip(key, b);
    FindsField(desc, i);
    assert key / 8 == desc[i].tag && key % 8 == wireType;
  }

  // ----- one field -----

  /** Coming to field `i`, or still in it, nothing is in the way, and its storage is as expected. */
  lemma OpenedHalfway(desc: seq<FieldD>, m: Slots, i: nat, k: nat)
    requires MessageOk(desc, m) && i < |desc| && k < |m[i]|
    ensures var st := Halfway(desc, m, i, k); var open := Opened(desc, st, i);
      && (open.filling != st.filling ==> Filled(desc, st)) && open.slots == st.slots && open.seen == st.seen
      && open.filling == Halfway(desc, m, i, k + 1).filling
  {
    hide NormalItems, IsZero, Default;
    var st := Halfway(desc, m, i, k);
    if st.filling.Some? {
      assert SlotOk(desc[st.filling.value], m[st.filling.value]);
    }
  }

  /** Reading one more item of field `i`. */
  lemma FieldRead(desc: seq<FieldD>, m: Slots, i: nat, k: nat, b: Bytes, rest: Bytes)
    requires MessageOk(desc, m) && i < |desc| && k < |m[i]|
    requires DecValue(desc[i].lt, Default(desc[i]), b) == Got(NormalValue(desc[i].lt, m[i][k]), rest)
    ensures DecField(desc[i], WireType(desc[i].lt), Halfway(desc, m, i, k).slots[i], b)
      == Got(NormalItems(desc[i].lt, m[i][..k + 1]), rest)
  {
    hide DecValue, NormalValue, Default, IsZero, LastFilled, SeenUpTo;
    var f := desc[i];
    assert SlotOk(f, m[i]);
    assert NormalItems(f.lt, m[i][..k + 1])
        == (if k == 0 then [] else NormalItems(f.lt, m[i][..k])) + [NormalValue(f.lt, m[i][k])];
    var slot := Halfway(desc, m, i, k).slots[i];
    assert slot == if k == 0 then InitSlot(f) else NormalItems(f.lt, m[i][..k]);
    if f.ht.Repeated? {
      assert |slot| == k < f.ht.max;
      assert !(WireType(f.lt) == 2 && Packable(f.lt));
      assert DecField(f, WireType(f.lt), slot, b) == Got(slot + [NormalValue(f.lt, m[i][k])], rest);
    } else {
      assert k == 0;
      assert Content(f, slot) == Default(f);
      assert DecField(f, WireType(f.lt), slot, b) == Got([NormalValue(f.lt, m[i][k])], rest);
      assert NormalItems(f.lt, m[i][..k + 1]) == [NormalValue(f.lt, m[i][k])];
    }
  }

  /** Storing it takes nothing away from another field. */
  lemma StoredHalfway(desc: seq<FieldD>, m: Slots, i: nat, k: nat)
    requires MessageOk(desc, m) && i < |desc| && k < |m[i]|
    ensures Store(desc, Halfway(desc, m, i, k).slots, i, NormalItems(desc[i].lt, m[i][..k + 1]))
      == Halfway(desc, m, i, k + 1).slots
  {
    hide NormalSlot, NormalItems, InitSlot, LastFilled, SeenUpTo, SlotOk, SameUnion;
    var st, next := Halfway(desc, m, i, k), Halfway(desc, m, i, k + 1);
    forall j | 0 <= j < |desc| && j != i
      ensures st.slots[j] == next.slots[j] && (SameUnion(desc[i], desc[j]) ==> st.slots[j] == [])
    {
      if SameUnion(desc[i], desc[j]) {
        OtherMember(desc, m, i, j);
      }
    }
    hide MessageOk;
  }

  lemma NotedHalfway(desc: seq<FieldD>, m: Slots, i: nat, k: nat)
    requires MessageOk(desc, m) && i < |desc| && k < |m[i]|
    ensures Noted(desc, Halfway(desc, m, i, k).seen, i) == Halfway(desc, m, i, k + 1).seen
  {
    hide NormalSlot, NormalItems, InitSlot, LastFilled, SeenUpTo, Noted, ValueOk;
    assert SlotOk(desc[i], m[i]);
    NextSeen(desc, i);
  }

  lemma NextSeen(desc: seq<FieldD>, i: nat)
    requires i < |desc|
    ensures Noted(desc, SeenUpTo(desc, i), i) == SeenUpTo(desc, i + 1)
    ensures !desc[i].ht.Required? ==> Noted(desc, SeenUpTo(desc, i + 1), i) == SeenUpTo(desc, i + 1)
  {
    var n := RequiredIndex(desc, i);
    assert RequiredIndex(desc, i + 1) == n + if desc[i].ht.Required? then 1 else 0;
    hide RequiredIndex;
  }

  lemma OtherMember(desc: seq<FieldD>, m: Slots, i: nat, j: nat)
    requires MessageOk(desc, m) && i < |desc| && j < |desc| && i != j && m[i] != [] && SameUnion(desc[i], desc[j])
    ensures NormalSlot(desc[j], m[j]) == [] && InitSlot(desc[j]) == []
  {
    hide IsZero, NormalValue, Default, SlotOk;
    assert m[j] == [];
  }

  lemma ItemRead(desc: seq<FieldD>, m: Slots, i: nat, k: nat, b: Bytes, rest: Bytes)
    requires MessageOk(desc, m) && i < |desc| && k < |m[i]|
    requires DecValue(desc[i].lt, Default(desc[i]), b) == Got(NormalValue(desc[i].lt, m[i][k]), rest)
    ensures DecKnown(desc, Halfway(desc, m, i, k), i, WireType(desc[i].lt), b)
         == DecLoop(desc, Halfway(desc, m, i, k + 1), rest)
  {
    hide DecLoop, DecField, DecValue, NormalValue, NormalItems, Default, MessageOk, Opened, Filled, Store, Noted,
      Halfway;
    OpenedHalfway(desc, m, i, k);
    FieldRead(desc, m, i, k, b, rest);
    StoredHalfway(desc, m, i, k);
    NotedHalfway(desc, m, i, k);
  }

  lemma HalfwayStart(desc: seq<FieldD>, m: Slots, i: nat)
    requires i < |desc| == |m|
    ensures Halfway(desc, m, i, 0) == Reached(desc, m, i)
  {
    hide NormalSlot, InitSlot, LastFilled, SeenUpTo;
  }

  lemma HalfwayEnd(desc: seq<FieldD>, m: Slots, i: nat)
    requires i < |desc| == |m| && m[i] != [] && !(desc[i].ht.Singular? && IsZero(desc[i].lt, m[i][0]))
    ensures Halfway(desc, m, i, |m[i]|) == Reached(desc, m, i + 1)
  {
    hide InitSlot, SeenUpTo, NormalItems;
    assert m[i][..|m[i]|] == m[i];
  }

  lemma NothingWritten(desc: seq<FieldD>, m: Slots, i: nat)
    requires MessageOk(desc, m) && i < |desc|
    requires m[i] == [] || (desc[i].ht.Singular? && IsZero(desc[i].lt, m[i][0]))
    ensures Reached(desc, m, i) == Reached(desc, m, i + 1)
  {
    hide Default, IsZero, NormalValue, UpTo;
    assert SlotOk(desc[i], m[i]);
    assert NormalSlot(desc[i], m[i]) == InitSlot(desc[i]);
    hide NormalSlot, InitSlot, SlotOk;
  }

  // ----- packed arrays -----

  lemma {:induction false} PackedItems(lt: LType, slot: seq<Value>, vs: seq<Value>, max: nat)
    requires LTypeOk(lt) && Packable(lt) && (forall v :: v in vs ==> ValueOk(lt, v))
    requires |slot| + |vs| <= max && |EncItems(lt, vs)| < 0x1_0000_0000
    ensures DecPacked(lt, slot, max, EncItems(lt, vs)) == Got(slot + vs, [])
    decreases |vs|
  {
    hide EncScalar, DecScalar, ValueOk, LTypeOk;
    if vs == [] {
      assert slot + vs == slot;
    } else {
      var rest := EncItems(lt, vs[1..]);
      ScalarRoundTrip(lt, vs[0], rest);
      PackedItems(lt, slot + [vs[0]], vs[1..], max);
      assert (slot + [vs[0]]) + vs[1..] == slot + vs;
    }
  }

  lemma ScalarsNormal(lt: LType, vs: seq<Value>)
    requires Packable(lt)
    ensures NormalItems(lt, vs) == vs
  {
  }

  lemma PackedField(f: FieldD, vs: seq<Value>, rest: Bytes)
    requires FieldOk(f) && SlotOk(f, vs) && f.ht.Repeated? && Packable(f.lt) && |EncItems(f.lt, vs)| < 0x1_0000_0000
    ensures var items := EncItems(f.lt, vs); DecField(f, 2, [], Varint(|items|) + (items + rest)) == Got(vs, rest)
  {
    hide Var32, Varint, EncItems, DecPacked, ValueOk, LTypeOk;
    var items := EncItems(f.lt, vs);
    Var32RoundTrip(|items|, items + rest);
    PackedItems(f.lt, [], vs, f.ht.max);
    assert (items + rest)[..|items|] == items && (items + rest)[|items|..] == rest && [] + vs == vs;
  }

  lemma PackedRead(desc: seq<FieldD>, m: Slots, i: nat, rest: Bytes)
    requires DescOk(desc) && MessageOk(desc, m) && i < |desc| && m[i] != []
    requires desc[i].ht.Repeated? && Packable(desc[i].lt) && |EncField(desc[i], m[i])| < 0x1_0000_0000
    ensures DecLoop(desc, Reached(desc, m, i), EncField(desc[i], m[i]) + rest)
      == DecLoop(desc, Reached(desc, m, i + 1), rest)
  {
    var f := desc[i];
    assert FieldOk(f) && SlotOk(f, m[i]);
    var items := EncItems(f.lt, m[i]);
    hide DescOk, MessageOk, DecLoop, DecField, EncItems, Varint, SlotOk, Default, Reached, Halfway, Filled, Store,
      Noted;
    var body := Varint(|items|) + (items + rest);
    assert EncField(f, m[i]) + rest == TagBytes(f.tag, 2) + body;
    hide EncField, TagBytes;
    KeyRead(desc, Reached(desc, m, i), i, 2, body);
    PackedField(f, m[i], rest);
    OpenedHalfway(desc, m, i, 0);
    HalfwayStart(desc, m, i);
    PackedStored(desc, m, i);
  }

  lemma PackedStored(desc: seq<FieldD>, m: Slots, i: nat)
    requires MessageOk(desc, m) && i < |desc| && m[i] != [] && desc[i].ht.Repeated? && Packable(desc[i].lt)
    ensures Store(desc, Reached(desc, m, i).slots, i, m[i]) == Reached(desc, m, i + 1).slots
    ensures Reached(desc, m, i).slots[i] == []
    ensures Noted(desc, Reached(desc, m, i).seen, i) == Reached(desc, m, i + 1).seen
    ensures Halfway(desc, m, i, 1).filling == Reached(desc, m, i + 1).filling
  {
    assert |m| == |desc|;
    hide MessageOk, Default, IsZero, NormalItems, UpTo;
    ScalarsNormal(desc[i].lt, m[i]);
  }

  // ----- messages -----

  lemma {:induction false} ValueRead(lt: LType, v: Value, init: Value, rest: Bytes)
    requires LTypeOk(lt) && ValueOk(lt, v) && |EncValue(lt, v)| < 0x1_0000_0000
    requires lt.Submessage? ==> init == Msg(Defaults(lt.fields))
    ensures DecValue(lt, init, EncValue(lt, v) + rest) == Got(NormalValue(lt, v), rest)
    decreases lt, 0
  {
    if lt.Submessage? {
      var e := EncMsg(lt.fields, v.slots);
      MessageRead(lt.fields, v.slots);
      hide DecMsg, EncFrom, Var32, Varint, Defaults, Normal, DescOk, MessageOk;
      Var32RoundTrip(|e|, e + rest);
      assert EncValue(lt, v) + rest == Varint(|e|) + (e + rest);
      assert (e + rest)[..|e|] == e && (e + rest)[|e|..] == rest;
    } else {
      ScalarRoundTrip(lt, v, rest);
      hide DecScalar, EncScalar;
    }
  }

  lemma {:induction false} TaggedRead(desc: seq<FieldD>, m: Slots, i: nat, k: nat, rest: Bytes)
    requires DescOk(desc) && MessageOk(desc, m) && i < |desc| && k <= |m[i]|
    requires |EncTagged(desc[i], m[i][k..])| < 0x1_0000_0000
    ensures DecLoop(desc, Halfway(desc, m, i, k), EncTagged(desc[i], m[i][k..]) + rest)
         == DecLoop(desc, Halfway(desc, m, i, |m[i]|), rest)
    decreases desc[i], |m[i]| - k
  {
    var f, items := desc[i], m[i][k..];
    if k < |m[i]| {
      assert FieldOk(f) && SlotOk(f, m[i]);
      hide DescOk, MessageOk, DecLoop, DecKnown, Halfway, EncValue, TagBytes, NormalValue, DecValue;
      assert items[1..] == m[i][k + 1..] && items[0] == m[i][k];
      var tail := EncTagged(f, m[i][k + 1..]) + rest;
      var body := EncValue(f.lt, m[i][k]) + tail;
      assert EncTagged(f, items) + rest == TagBytes(f.tag, WireType(f.lt)) + body;
      hide EncTagged;
      KeyRead(desc, Halfway(desc, m, i, k), i, WireType(f.lt), body);
      ValueRead(f.lt, m[i][k], Default(f), tail);
      ItemRead(desc, m, i, k, body, tail);
      TaggedRead(desc, m, i, k + 1, rest);
    } else {
      assert EncTagged(f, items) + rest == rest;
    }
  }

  /** Reading the bytes of field `i`, whatever stands behind them. */
  lemma {:induction false} WholeFieldRead(desc: seq<FieldD>, m: Slots, i: nat, rest: Bytes)
    requires DescOk(desc) && MessageOk(desc, m) && i < |desc| && |EncField(desc[i], m[i])| < 0x1_0000_0000
    ensures DecLoop(desc, Reached(desc, m, i), EncField(desc[i], m[i]) + rest)
         == DecLoop(desc, Reached(desc, m, i + 1), rest)
    decreases desc, 1
  {
    var f := desc[i];
    hide DescOk, MessageOk, DecLoop, Reached, Halfway, EncItems, IsZero;
    if m[i] == [] || (f.ht.Singular? && IsZero(f.lt, m[i][0])) {
      NothingWritten(desc, m, i);
      assert EncField(f, m[i]) + rest == rest;
    } else if f.ht.Repeated? && Packable(f.lt) {
      PackedRead(desc, m, i, rest);
    } else {
      assert m[i][0..] == m[i];
      HalfwayStart(desc, m, i);
      HalfwayEnd(desc, m, i);
      TaggedRead(desc, m, i, 0, rest);
    }
  }

  lemma {:induction false} FieldsRead(desc: seq<FieldD>, m: Slots, i: nat)
    requires DescOk(desc) && MessageOk(desc, m) && i <= |desc| && |EncFrom(desc, m, i)| < 0x1_0000_0000
    ensures DecLoop(desc, Reached(desc, m, i), EncFrom(desc, m, i)) == F.Some(Reached(desc, m, |desc|))
    decreases desc, 2 + |desc| - i
  {
    if i < |desc| {
      assert EncFrom(desc, m, i) == EncField(desc[i], m[i]) + EncFrom(desc, m, i + 1);
      FieldsRead(desc, m, i + 1);
      hide DescOk, MessageOk, DecLoop, EncFrom, EncField, Reached;
      WholeFieldRead(desc, m, i, EncFrom(desc, m, i + 1));
    }
  }

  /** Decoding into a struct set to defaults what pb_encode wrote gives back the message, except
      that implicit fields that are zero come back as their defaults. */
  lemma {:induction false} MessageRead(desc: seq<FieldD>, m: Slots)
    requires DescOk(desc) && MessageOk(desc, m) && |EncMsg(desc, m)| < 0x1_0000_0000
    ensures Decode(desc, EncMsg(desc, m)) == F.Some(Normal(desc, m))
    decreases desc, |desc| + 3
  {
    FieldsRead(desc, m, 0);
    hide DecLoop, EncFrom, DescOk;
    ReachedStart(desc, m);
    ReachedEnd(desc, m);
  }

  lemma ReachedStart(desc: seq<FieldD>, m: Slots)
    requires |desc| == |m|
    ensures Reached(desc, m, 0) == Progress(Defaults(desc), {}, F.None)
  {
    hide NormalSlot, InitSlot;
  }

  lemma ReachedEnd(desc: seq<FieldD>, m: Slots)
    requires MessageOk(desc, m)
    ensures var st := Reached(desc, m, |desc|);
      st.slots == Normal(desc, m) && Filled(desc, st) && AllSeen(desc, st.seen)
  {
    hide NormalItems, IsZero, Default, InitSlot;
    var st := Reached(desc, m, |desc|);
    if st.filling.Some? {
      assert SlotOk(desc[st.filling.value], m[st.filling.value]);
    }
    forall k | 0 <= k < RequiredCount(desc) ensures k in st.seen {
      InUpTo(RequiredCount(desc), k);
    }
  }

  // ----- when it is the message itself that comes back -----

  /** No implicit field, at any depth, is zero while its default is something else. */
  predicate Plain(desc: seq<FieldD>, m: Slots)
    requires |m| == |desc|
    decreases desc
  {
    forall i :: 0 <= i < |desc| ==> PlainSlot(desc[i], m[i])
  }

  predicate PlainSlot(f: FieldD, slot: seq<Value>)
    decreases f
  {
    if f.ht.Singular? && slot != [] && IsZero(f.lt, slot[0]) then slot == [Default(f)]
    else forall k :: 0 <= k < |slot| ==> PlainValue(f.lt, slot[k])
  }

  predicate PlainValue(lt: LType, v: Value)
    decreases lt
  {
    lt.Submessage? && v.Msg? && |v.slots| == |lt.fields| ==> Plain(lt.fields, v.slots)
  }

  lemma {:induction false} PlainIsNormal(desc: seq<FieldD>, m: Slots)
    requires |m| == |desc|
    ensures Normal(desc, m) == m <==> Plain(desc, m)
    decreases desc
  {
    hide IsZero, NormalSlot, PlainSlot;
    forall i | 0 <= i < |desc| ensures NormalSlot(desc[i], m[i]) == m[i] <==> PlainSlot(desc[i], m[i]) {
      PlainSlotIsNormal(desc[i], m[i]);
    }
    assert Normal(desc, m) == m <==> forall i :: 0 <= i < |desc| ==> NormalSlot(desc[i], m[i]) == m[i];
  }

  lemma {:induction false} PlainSlotIsNormal(f: FieldD, slot: seq<Value>)
    ensures NormalSlot(f, slot) == slot <==> PlainSlot(f, slot)
    decreases f
  {
    hide IsZero, NormalValue, PlainValue, Default;
    forall k | 0 <= k < |slot| ensures NormalValue(f.lt, slot[k]) == slot[k] <==> PlainValue(f.lt, slot[k]) {
      PlainValueIsNormal(f.lt, slot[k]);
    }
    assert NormalItems(f.lt, slot) == slot <==> forall k :: 0 <= k < |slot| ==> NormalValue(f.lt, slot[k]) == slot[k];
  }

  lemma {:induction false} PlainValueIsNormal(lt: LType, v: Value)
    ensures NormalValue(lt, v) == v <==> PlainValue(lt, v)
    decreases lt
  {
    if lt.Submessage? && v.Msg? && |v.slots| == |lt.fields| {
      PlainIsNormal(lt.fields, v.slots);
      hide Normal, Plain;
    }
  }

  /** Decoding inverts encoding on exactly the messages without such a field. */
  lemma MessageRoundTrip(desc: seq<FieldD>, m: Slots)
    requires DescOk(desc) && MessageOk(desc, m) && |EncMsg(desc, m)| < 0x1_0000_0000
    ensures Decode(desc, EncMsg(desc, m)) == F.Some(m) <==> Plain(desc, m)
  {
    MessageRead(desc, m);
    PlainIsNormal(desc, m);
    hide Decode, EncMsg, Plain, Normal, DescOk;
  }

  /** The descriptors the generator makes for proto3: implicit fields start out as zero. */
  predicate ZeroDefaults(desc: seq<FieldD>)
    decreases desc
  {
    forall i :: 0 <= i < |desc| ==> ZeroDefault(desc[i])
  }

  predicate ZeroDefault(f: FieldD)
    decreases f
  {
    match f.lt
    case Submessage(fields) => ZeroDefaults(fields)
    case FixedBytes(len) => f.ht.Singular? ==> f.default.Blob? && |f.default.b| == len
    case BytesOf(_) => f.ht.Singular? ==> f.default == Blob([])
    case StringOf(_) => f.ht.Singular? ==> f.default == Blob([])
    case _ => f.ht.Singular? ==> f.default == Num(0)
  }

  lemma {:induction false} ZeroIsDefault(desc: seq<FieldD>, m: Slots)
    requires MessageOk(desc, m) && AllZero(desc, m) && ZeroDefaults(desc)
    ensures m == Defaults(desc)
    decreases desc
  {
    forall i | 0 <= i < |desc| ensures m[i] == InitSlot(desc[i]) {
      assert SlotOk(desc[i], m[i]) && ZeroSlot(desc[i], m[i]) && ZeroDefault(desc[i]);
      if desc[i].ht.Singular? {
        ZeroValueIsDefault(desc[i], m[i][0]);
      }
    }
  }

  lemma {:induction false} ZeroValueIsDefault(f: FieldD, v: Value)
    requires f.ht.Singular? && ValueOk(f.lt, v) && IsZero(f.lt, v) && ZeroDefault(f)
    ensures v == Default(f)
    decreases f
  {
    if f.lt.Submessage? {
      ZeroIsDefault(f.lt.fields, v.slots);
    }
  }

  lemma {:induction false} ZeroDefaultsPlain(desc: seq<FieldD>, m: Slots)
    requires MessageOk(desc, m) && ZeroDefaults(desc)
    ensures Plain(desc, m)
    decreases desc
  {
    forall i | 0 <= i < |desc| ensures PlainSlot(desc[i], m[i]) {
      assert SlotOk(desc[i], m[i]) && ZeroDefault(desc[i]);
      ZeroDefaultPlain(desc[i], m[i]);
    }
  }

  lemma {:induction false} ZeroDefaultPlain(f: FieldD, slot: seq<Value>)
    requires SlotOk(f, slot) && ZeroDefault(f)
    ensures PlainSlot(f, slot)
    decreases f
  {
    if f.ht.Singular? && IsZero(f.lt, slot[0]) {
      ZeroValueIsDefault(f, slot[0]);
    } else if f.lt.Submessage? {
      forall k | 0 <= k < |slot| ensures PlainValue(f.lt, slot[k]) {
        ZeroDefaultsPlain(f.lt.fields, slot[k].slots);
      }
    }
  }

  /** For such descriptors every message comes back. */
  lemma ZeroDefaultsRoundTrip(desc: seq<FieldD>, m: Slots)
    requires DescOk(desc) && MessageOk(desc, m) && |EncMsg(desc, m)| < 0x1_0000_0000 && ZeroDefaults(desc)
    ensures Decode(desc, EncMsg(desc, m)) == F.Some(m)
  {
    MessageRoundTrip(desc, m);
    ZeroDefaultsPlain(desc, m);
  }
}
