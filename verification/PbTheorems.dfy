/**
  What users of nanopb rely on, said about bytes and messages alone: which implicit fields are left out, that a
  decoded message is within the bounds of its storage with at most one member of each oneof, and that fields
  the descriptor does not know are passed over.
 */
module PbTheorems {
  import opened Coding
  import opened PbVarint
  import opened PbMessage
  import opened PbRoundTrip
  import F = Format

  // ----- implicit presence -----

  /** A field that takes no part in a message: absent, an empty array, or an implicit field that is zero, empty or a
      message of which nothing takes part. Required fields and arrays of fixed length always do. */
  predicate LeftOut(f: FieldD, slot: seq<Value>)
    decreases f
  {
    match f.ht
    case Required => false
    case Optional => slot == []
    case Oneof(_) => slot == []
    case Repeated(_, fixedCount) => slot == [] && !fixedCount
    case Singular => slot != [] && ValueLeftOut(f.lt, slot[0])
  }

  predicate ValueLeftOut(lt: LType, v: Value)
    decreases lt
  {
    match lt
    case Submessage(fields) =>
      v.Msg? && |v.slots| == |fields| && forall i :: 0 <= i < |fields| ==> LeftOut(fields[i], v.slots[i])
    case FixedBytes(len) => len == 0
    case BytesOf(_) => v == Blob([])
    case StringOf(_) => v == Blob([])
    case _ => v == Num(0)
  }

  lemma {:induction false} ZeroIsLeftOut(lt: LType, v: Value)
    requires ValueOk(lt, v)
    ensures IsZero(lt, v) <==> ValueLeftOut(lt, v)
    decreases lt
  {
    if lt.Submessage? {
      assert MessageOk(lt.fields, v.slots);
      forall i | 0 <= i < |lt.fields|
        ensures ZeroSlot(lt.fields[i], v.slots[i]) <==> LeftOut(lt.fields[i], v.slots[i])
      {
        assert SlotOk(lt.fields[i], v.slots[i]);
        var f, slot := lt.fields[i], v.slots[i];
        if f.ht.Singular? {
          ZeroIsLeftOut(f.lt, slot[0]);
        }
      }
    }
  }

  lemma TagIsWritten(tag: nat, wireType: nat, b: Bytes)
    ensures TagBytes(tag, wireType) + b != []
  {
    hide Varint;
    assert |Varint(tag * 8 + wireType)| >= 1;
  }

  /** An implicit field is left out of the bytes if and only if it is a number that is zero, an empty string, bytes of
      no length, or a message whose fields are all left out in the same sense. */
  lemma ImplicitLeftOut(f: FieldD, v: Value)
    requires f.ht.Singular? && ValueOk(f.lt, v)
    ensures EncField(f, [v]) == [] <==>
      match f.lt
      case Submessage(fields) =>
        |v.slots| == |fields| && forall i :: 0 <= i < |fields| ==> LeftOut(fields[i], v.slots[i])
      case FixedBytes(len) => len == 0
      case BytesOf(_) => |v.b| == 0
      case StringOf(_) => |v.b| == 0
      case _ => v.n == 0
  {
    hide IsZero, LeftOut, TagBytes, EncValue;
    ZeroIsLeftOut(f.lt, v);
    TagIsWritten(f.tag, WireType(f.lt), EncValue(f.lt, v) + EncTagged(f, [v][1..]));
  }

  /** No array of fixed length has length zero. */
  predicate ArraysHaveRoom(desc: seq<FieldD>)
    decreases desc
  {
    forall i :: 0 <= i < |desc| ==> HasRoom(desc[i])
  }

  predicate HasRoom(f: FieldD)
    decreases f
  {
    && (f.ht.Repeated? && f.ht.fixedCount ==> f.ht.max > 0)
    && (f.lt.Submessage? ==> ArraysHaveRoom(f.lt.fields))
  }

  lemma FieldUnwritten(f: FieldD, slot: seq<Value>)
    requires SlotOk(f, slot) && HasRoom(f)
    ensures EncField(f, slot) == [] <==> LeftOut(f, slot)
  {
    hide TagBytes, EncValue, EncItems, ValueOk, ValueLeftOut, IsZero;
    if slot != [] {
      if f.ht.Singular? {
        ZeroIsLeftOut(f.lt, slot[0]);
      }
      TagIsWritten(f.tag, WireType(f.lt), EncValue(f.lt, slot[0]) + EncTagged(f, slot[1..]));
      var items := EncItems(f.lt, slot);
      TagIsWritten(f.tag, 2, Varint(|items|) + items);
      assert TagBytes(f.tag, 2) + Varint(|items|) + items == TagBytes(f.tag, 2) + (Varint(|items|) + items);
    }
  }

  lemma {:induction false} FieldsUnwritten(desc: seq<FieldD>, m: Slots, i: nat)
    requires MessageOk(desc, m) && ArraysHaveRoom(desc) && i <= |desc|
    ensures EncFrom(desc, m, i) == [] <==> forall j :: i <= j < |desc| ==> LeftOut(desc[j], m[j])
    decreases |desc| - i
  {
    if i < |desc| {
      assert SlotOk(desc[i], m[i]) && HasRoom(desc[i]);
      hide EncField, LeftOut, MessageOk, ArraysHaveRoom;
      FieldUnwritten(desc[i], m[i]);
      FieldsUnwritten(desc, m, i + 1);
    }
  }

  /** So an implicit submessage is left out if and only if there is nothing in it to write. */
  lemma EmptySubmessageLeftOut(f: FieldD, m: Slots)
    requires f.ht.Singular? && f.lt.Submessage? && MessageOk(f.lt.fields, m) && ArraysHaveRoom(f.lt.fields)
    ensures EncField(f, [Msg(m)]) == [] <==> EncMsg(f.lt.fields, m) == []
  {
    assert ValueOk(f.lt, Msg(m)) && |m| == |f.lt.fields|;
    hide EncField, LeftOut, MessageOk, ArraysHaveRoom, EncFrom;
    ImplicitLeftOut(f, Msg(m));
    FieldsUnwritten(f.lt.fields, m, 0);
  }

  // ----- what decoding can leave in a message -----

  /** The defaults of fields without a has-flag are values of their types, at every depth. */
  predicate GoodDefaults(desc: seq<FieldD>)
    decreases desc
  {
    forall i :: 0 <= i < |desc| ==> GoodDefault(desc[i])
  }

  predicate GoodDefault(f: FieldD)
    decreases f
  {
    if f.lt.Submessage? then GoodDefaults(f.lt.fields)
    else f.ht.Required? || f.ht.Singular? ==> ValueOk(f.lt, f.default)
  }

  /** Within the bounds of the static storage. An array of fixed length that was never met is empty. */
  predicate Bounded(lt: LType, v: Value)
    decreases lt
  {
    if lt.Submessage? then v.Msg? && Within(lt.fields, v.slots) else ValueOk(lt, v)
  }

  predicate SlotBounded(f: FieldD, slot: seq<Value>)
    decreases f
  {
    && (forall k :: 0 <= k < |slot| ==> Bounded(f.lt, slot[k]))
    && match f.ht
       case Required => |slot| == 1
       case Singular => |slot| == 1
       case Optional => |slot| <= 1
       case Oneof(_) => |slot| <= 1
       case Repeated(max, fixedCount) => |slot| <= max
  }

  /** At most one member of each union is set. */
  predicate Exclusive(desc: seq<FieldD>, m: Slots)
    requires |m| == |desc|
  {
    forall i, j | 0 <= i < |desc| && 0 <= j < |desc| && i != j ::
      desc[i].ht.Oneof? && desc[j].ht == desc[i].ht && m[i] != [] ==> m[j] == []
  }

  predicate Within(desc: seq<FieldD>, m: Slots)
    decreases desc
  {
    && |m| == |desc| && Exclusive(desc, m)
    && forall i :: 0 <= i < |desc| ==> SlotBounded(desc[i], m[i]) && (FixedCount(desc[i]) ==> Full(desc[i], m[i]))
  }

  predicate FixedCount(f: FieldD) { f.ht.Repeated? && f.ht.fixedCount }

  predicate Full(f: FieldD, slot: seq<Value>) { f.ht.Repeated? ==> slot == [] || |slot| == f.ht.max }

  /** Along the way the array of fixed length being filled need not be full. */
  ghost predicate Going(desc: seq<FieldD>, st: Progress) {
    && |st.slots| == |desc| && Exclusive(desc, st.slots)
    && (forall i :: 0 <= i < |desc| ==> SlotBounded(desc[i], st.slots[i]))
    && (forall i: nat :: i < |desc| && FixedCount(desc[i]) && st.filling != F.Some(i) ==> Full(desc[i], st.slots[i]))
  }

  lemma {:induction false} DefaultsWithin(desc: seq<FieldD>)
    requires GoodDefaults(desc)
    ensures Within(desc, Defaults(desc))
    decreases desc
  {
    forall i | 0 <= i < |desc| ensures SlotBounded(desc[i], InitSlot(desc[i])) && Full(desc[i], InitSlot(desc[i])) {
      DefaultBounded(desc[i]);
    }
  }

  lemma {:induction false} DefaultBounded(f: FieldD)
    requires GoodDefault(f)
    ensures f.lt.Submessage? || f.ht.Required? || f.ht.Singular? ==> Bounded(f.lt, Default(f))
    decreases f
  {
    if f.lt.Submessage? {
      DefaultsWithin(f.lt.fields);
    }
  }

  lemma {:induction false} NoNulLeft(b: Bytes)
    ensures |UpToNul(b)| <= |b| && 0 !in UpToNul(b)
  {
    if b != [] {
      NoNulLeft(b[1..]);
    }
  }

  lemma CastBounds(size: nat, n: int)
    ensures -(Half(size) as int) <= Cast(size, n) < Half(size)
  {
  }

  lemma ScalarBounded(lt: LType, b: Bytes)
    requires !lt.Submessage?
    ensures DecScalar(lt, b).Got? ==> ValueOk(lt, DecScalar(lt, b).value)
  {
    hide Var32, Get64, UpToNul, DecodeFixed32, DecodeFixed64, Cast, Half;
    match lt
    case StringOf(room) => {
      forall s: Bytes ensures |UpToNul(s)| <= |s| && 0 !in UpToNul(s) { NoNulLeft(s); }
    }
    case Signed(size) => {
      forall n: int ensures -(Half(size) as int) <= Cast(size, n) < Half(size) { CastBounds(size, n); }
    }
    case Zig(size) => {
      forall n: int ensures -(Half(size) as int) <= Cast(size, n) < Half(size) { CastBounds(size, n); }
    }
    case _ =>
  }

  lemma {:induction false} ValueDecoded(lt: LType, init: Value, b: Bytes)
    requires lt.Submessage? ==> GoodDefaults(lt.fields) && Bounded(lt, init)
    ensures DecValue(lt, init, b).Got? ==> Bounded(lt, DecValue(lt, init, b).value)
    decreases |b|, 0
  {
    hide DecMsg, DecScalar, Var32, GoodDefaults, Within, ValueOk;
    if lt.Submessage? {
      match Var32(b)
      case Fail =>
      case Got(n, rest) => {
        if n <= |rest| {
          MessageDecoded(lt.fields, init.slots, rest[..n]);
        }
      }
    } else {
      ScalarBounded(lt, b);
    }
  }

  lemma {:induction false} PackedDecoded(f: FieldD, slot: seq<Value>, b: Bytes)
    requires f.ht.Repeated? && Packable(f.lt) && SlotBounded(f, slot)
    ensures var r := DecPacked(f.lt, slot, f.ht.max, b); r.Got? ==> SlotBounded(f, r.value)
    decreases |b|, 1
  {
    hide DecValue, Bounded;
    if b != [] && |slot| < f.ht.max {
      match DecValue(f.lt, Num(0), b)
      case Fail =>
      case Got(v, rest) => {
        ValueDecoded(f.lt, Num(0), b);
        PackedDecoded(f, slot + [v], rest);
      }
    }
  }

  lemma {:induction false} FieldDecoded(f: FieldD, wireType: nat, slot: seq<Value>, b: Bytes)
    requires GoodDefault(f) && SlotBounded(f, slot)
    ensures var r := DecField(f, wireType, slot, b); r.Got? ==> SlotBounded(f, r.value)
    decreases |b|, 2
  {
    hide DecValue, DecPacked, Bounded, Var32, GoodDefaults, Default;
    DefaultBounded(f);
    if f.ht.Repeated? && wireType == 2 && Packable(f.lt) {
      match Var32(b)
      case Fail =>
      case Got(n, rest) => {
        if n <= |rest| {
          PackedDecoded(f, slot, rest[..n]);
        }
      }
    } else {
      ValueDecoded(f.lt, if f.ht.Repeated? then Default(f) else Content(f, slot), b);
    }
  }

  lemma OpenedGoing(desc: seq<FieldD>, st: Progress, i: nat)
    requires Going(desc, st) && i < |desc|
    ensures var open := Opened(desc, st, i);
      && |open.slots| == |desc| && Exclusive(desc, open.slots)
      && (forall j :: 0 <= j < |desc| ==> SlotBounded(desc[j], open.slots[j]))
      && (FixedCount(desc[i]) ==> open.filling == F.Some(i))
      && (open.filling == st.filling || open.filling == F.Some(i))
      && (forall j :: 0 <= j < |desc| && j != i ==> open.slots[j] == st.slots[j])
  {
    hide Bounded;
  }

  lemma StoredGoing(desc: seq<FieldD>, st: Progress, open: Progress, i: nat, slot: seq<Value>, seen: set<nat>)
    requires Going(desc, st) && i < |desc| && open == Opened(desc, st, i) && SlotBounded(desc[i], slot)
    requires open.filling == st.filling || Filled(desc, st)
    ensures Going(desc, Progress(Store(desc, open.slots, i, slot), seen, open.filling))
  {
    OpenedGoing(desc, st, i);
    hide Bounded, Opened;
    var slots := Store(desc, open.slots, i, slot);
    forall j | 0 <= j < |desc| ensures SlotBounded(desc[j], slots[j]) {
      assert SlotBounded(desc[j], open.slots[j]);
    }
    hide SlotBounded;
  }

  lemma TurnDecoded(desc: seq<FieldD>, st: Progress, i: nat, wireType: nat, b: Bytes)
    requires GoodDefaults(desc) && Going(desc, st) && i < |desc|
    ensures Turn(desc, st, i, wireType, b).Got? ==> Going(desc, Turn(desc, st, i, wireType, b).value)
    decreases |b|, 3
  {
    hide DecField, GoodDefaults, GoodDefault, SlotBounded, Noted;
    assert GoodDefault(desc[i]) by { DefaultOf(desc, i); }
    var open := Opened(desc, st, i);
    OpenedGoing(desc, st, i);
    FieldDecoded(desc[i], wireType, open.slots[i], b);
    match DecField(desc[i], wireType, open.slots[i], b)
    case Fail =>
    case Got(slot, rest) => {
      if open.filling == st.filling || Filled(desc, st) {
        StoredGoing(desc, st, open, i, slot, Noted(desc, st.seen, i));
      }
    }
  }

  lemma DefaultOf(desc: seq<FieldD>, i: nat)
    requires GoodDefaults(desc) && i < |desc|
    ensures GoodDefault(desc[i])
  {
  }

  lemma {:induction false} LoopDecoded(desc: seq<FieldD>, st: Progress, b: Bytes)
    requires GoodDefaults(desc) && |st.slots| == |desc| && Going(desc, st)
    ensures DecLoop(desc, st, b).Some? ==> Going(desc, DecLoop(desc, st, b).value)
    decreases |b|, 3
  {
    hide Turn, Going, GoodDefaults, Var32, Skip;
    match Var32(b)
    case Fail =>
    case Got(key, rest) => {
      var i := Find(desc, key / 8, 0);
      if b == [] || key == 0 {
      } else if i < |desc| {
        TurnDecoded(desc, st, i, key % 8, rest);
        match Turn(desc, st, i, key % 8, rest)
        case Fail =>
        case Got(next, left) => LoopDecoded(desc, next, left);
      } else if desc == [] && key / 8 == 0 {
        match Var32(rest)
        case Fail =>
        case Got(_, left) => LoopDecoded(desc, st, left);
      } else {
        match Skip(key % 8, rest)
        case Fail =>
        case Got(_, left) => LoopDecoded(desc, st, left);
      }
    }
  }

  /** Whatever the bytes, what decoding accepts stays within bounds if what was there did. */
  lemma {:induction false} MessageDecoded(desc: seq<FieldD>, init: Slots, b: Bytes)
    requires GoodDefaults(desc) && Within(desc, init)
    ensures DecMsg(desc, init, b).Some? ==> Within(desc, DecMsg(desc, init, b).value)
    decreases |b|, 5
  {
    hide DecLoop, GoodDefaults, SlotBounded, AllSeen;
    var st := Progress(init, {}, F.None);
    LoopDecoded(desc, st, b);
  }

  /** No array of fixed length, at any depth. */
  predicate NoFixedArrays(desc: seq<FieldD>)
    decreases desc
  {
    forall i :: 0 <= i < |desc| ==> NoFixedArray(desc[i])
  }

  predicate NoFixedArray(f: FieldD)
    decreases f
  {
    !FixedCount(f) && (f.lt.Submessage? ==> NoFixedArrays(f.lt.fields))
  }

  lemma {:induction false} WithinIsOk(desc: seq<FieldD>, m: Slots)
    requires Within(desc, m) && NoFixedArrays(desc)
    ensures MessageOk(desc, m)
    decreases desc
  {
    forall i | 0 <= i < |desc| ensures SlotOk(desc[i], m[i]) {
      SlotBoundedIsOk(desc[i], m[i]);
    }
  }

  lemma {:induction false} SlotBoundedIsOk(f: FieldD, slot: seq<Value>)
    requires SlotBounded(f, slot) && NoFixedArray(f)
    ensures SlotOk(f, slot)
    decreases f
  {
    forall k | 0 <= k < |slot| ensures ValueOk(f.lt, slot[k]) {
      BoundedIsOk(f.lt, slot[k]);
    }
  }

  lemma {:induction false} BoundedIsOk(lt: LType, v: Value)
    requires Bounded(lt, v) && (lt.Submessage? ==> NoFixedArrays(lt.fields))
    ensures ValueOk(lt, v)
    decreases lt
  {
    if lt.Submessage? {
      WithinIsOk(lt.fields, v.slots);
    }
  }

  /** Whatever the bytes are, a message that pb_decode accepts is within the bounds of its storage, at every depth:
      numbers within their C types, strings terminated within their room, arrays within their counts, those of fixed
      length full or never met, and at most one member of each union. */
  lemma DecodedIsOk(desc: seq<FieldD>, b: Bytes)
    requires GoodDefaults(desc) && Decode(desc, b).Some?
    ensures Within(desc, Decode(desc, b).value)
    ensures NoFixedArrays(desc) ==> MessageOk(desc, Decode(desc, b).value)
  {
    hide DecMsg, GoodDefaults, Within, NoFixedArrays, MessageOk, Defaults;
    DefaultsWithin(desc);
    MessageDecoded(desc, Defaults(desc), b);
    if NoFixedArrays(desc) {
      WithinIsOk(desc, Decode(desc, b).value);
    }
  }

  // ----- the last member of a oneof -----

  /** Reading a field replaces what it held, clears the other members of its union, and touches nothing else. */
  lemma TurnReplaces(desc: seq<FieldD>, st: Progress, i: nat, wireType: nat, b: Bytes)
    requires i < |desc| == |st.slots| && Turn(desc, st, i, wireType, b).Got?
    ensures var slots := Turn(desc, st, i, wireType, b).value.slots;
      && (!desc[i].ht.Repeated? ==> |slots[i]| == 1)
      && forall j :: 0 <= j < |desc| && j != i ==>
           slots[j] == if desc[i].ht.Oneof? && desc[j].ht == desc[i].ht then [] else st.slots[j]
  {
    hide DecValue, DecPacked, Noted, Filled;
  }

  /** Of a number, a string or bytes, the last one counts. */
  lemma LastScalarCounts(desc: seq<FieldD>, st: Progress, i: nat, wireType: nat, b: Bytes)
    requires i < |desc| == |st.slots| && Turn(desc, st, i, wireType, b).Got?
    requires !desc[i].ht.Repeated? && !desc[i].lt.Submessage?
    ensures DecScalar(desc[i].lt, b).Got?
    ensures Turn(desc, st, i, wireType, b).value.slots[i] == [DecScalar(desc[i].lt, b).value]
  {
    hide DecScalar, Noted, Filled;
    var f, slot := desc[i], st.slots[i];
    assert DecValue(f.lt, Content(f, slot), b) == DecScalar(f.lt, b);
    assert DecField(f, wireType, slot, b) == match DecScalar(f.lt, b) case Fail => Fail case Got(v, r) => Got([v], r);
  }

  /** A submessage that comes again is read into the one that is there. */
  lemma SubmessagesMerge(desc: seq<FieldD>, st: Progress, i: nat, wireType: nat, m: Slots, payload: Bytes, rest: Bytes)
    requires i < |desc| == |st.slots| && !desc[i].ht.Repeated? && desc[i].lt.Submessage? && st.slots[i] == [Msg(m)]
    requires |payload| < 0x1_0000_0000
    ensures var r := Turn(desc, st, i, wireType, Varint(|payload|) + payload + rest);
      match DecMsg(desc[i].lt.fields, m, payload)
      case None => r.Fail?
      case Some(more) => r.Got? && r.rest == rest && r.value.slots[i] == [Msg(more)]
  {
    hide Var32, Varint, DecMsg, DecScalar, Noted, Filled;
    Var32RoundTrip(|payload|, payload + rest);
    var f, b := desc[i], Varint(|payload|) + payload + rest;
    assert b == Varint(|payload|) + (payload + rest);
    assert (payload + rest)[..|payload|] == payload && (payload + rest)[|payload|..] == rest;
    var merged := DecMsg(f.lt.fields, m, payload);
    assert DecValue(f.lt, Msg(m), b) == match merged case None => Fail case Some(more) => Got(Msg(more), rest);
    assert DecField(f, wireType, [Msg(m)], b) == match merged case None => Fail case Some(x) => Got([Msg(x)], rest);
  }

  /** An array grows at its end. */
  lemma ArraysGrow(desc: seq<FieldD>, st: Progress, i: nat, wireType: nat, b: Bytes)
    requires i < |desc| == |st.slots| && Turn(desc, st, i, wireType, b).Got? && desc[i].ht.Repeated?
    requires !desc[i].ht.fixedCount || st.filling == F.Some(i)
    ensures st.slots[i] <= Turn(desc, st, i, wireType, b).value.slots[i]
  {
    hide DecValue, DecPacked, Noted, Filled, Var32;
    match Var32(b)
    case Fail =>
    case Got(n, rest) =>
      if n <= |rest| {
        PackedGrows(desc[i].lt, st.slots[i], desc[i].ht.max, rest[..n]);
      }
  }

  lemma {:induction false} PackedGrows(lt: LType, slot: seq<Value>, max: nat, b: Bytes)
    ensures var r := DecPacked(lt, slot, max, b); r.Got? ==> slot <= r.value
    decreases |b|
  {
    hide DecValue;
    if b != [] && |slot| < max {
      match DecValue(lt, Num(0), b)
      case Fail =>
      case Got(v, rest) => PackedGrows(lt, slot + [v], max, rest);
    }
  }

  /** An array of fixed length is filled afresh when it comes again behind another one. */
  lemma FixedArrayStartsAfresh(desc: seq<FieldD>, st: Progress, i: nat, wireType: nat, b: Bytes)
    requires i < |desc| == |st.slots| && FixedCount(desc[i]) && st.filling != F.Some(i)
    ensures Turn(desc, st, i, wireType, b) == Turn(desc, st.(slots := st.slots[i := []]), i, wireType, b)
  {
    hide DecField, Noted;
    var cleared := st.(slots := st.slots[i := []]);
    assert cleared.slots[i := []] == cleared.slots;
  }

  predicate Fields(desc: seq<FieldD>, met: seq<nat>) {
    forall l :: 0 <= l < |met| ==> met[l] < |desc|
  }

  /** The fields met on the way through the bytes, in order. */
  function Met(desc: seq<FieldD>, st: Progress, b: Bytes): (met: seq<nat>)
    requires |st.slots| == |desc|
    ensures Fields(desc, met)
    decreases |b|
  {
    match Var32(b)
    case Fail => []
    case Got(key, rest) =>
      var i := Find(desc, key / 8, 0);
      if key == 0 || desc == [] then []
      else if i < |desc| then
        match Turn(desc, st, i, key % 8, rest)
        case Fail => []
        case Got(next, left) => [i] + Met(desc, next, left)
      else
        match Skip(key % 8, rest)
        case Fail => []
        case Got(_, left) => Met(desc, st, left)
  }

  /** From place `k` on, no member of the union of field `i` is met. */
  predicate UnionUnmet(desc: seq<FieldD>, met: seq<nat>, k: nat, i: nat)
    requires i < |desc| && Fields(desc, met)
  {
    forall l: nat :: k <= l < |met| ==> desc[met[l]].ht != desc[i].ht
  }

  /** Field `i` is the last member of its union that is met. */
  predicate MetLast(desc: seq<FieldD>, met: seq<nat>, i: nat)
    requires i < |desc| && Fields(desc, met)
  {
    exists k: nat :: k < |met| && met[k] == i && UnionUnmet(desc, met, k + 1, i)
  }

  lemma UnmetCons(desc: seq<FieldD>, n: nat, met: seq<nat>, k: nat, i: nat)
    requires i < |desc| && n < |desc| && Fields(desc, met) && k <= |met|
    ensures UnionUnmet(desc, [n] + met, k + 1, i) <==> UnionUnmet(desc, met, k, i)
    ensures UnionUnmet(desc, [n] + met, 0, i) <==> UnionUnmet(desc, met, 0, i) && desc[n].ht != desc[i].ht
  {
    var more := [n] + met;
    forall l: nat | l < |met| ensures more[l + 1] == met[l] {
    }
    forall l: nat | 0 < l < |more| ensures more[l] == met[l - 1] {
    }
    if UnionUnmet(desc, more, k + 1, i) {
      forall l: nat | k <= l < |met| ensures desc[met[l]].ht != desc[i].ht {
        assert more[l + 1] == met[l];
      }
    }
    if UnionUnmet(desc, more, 0, i) {
      assert more[0] == n;
      forall l: nat | l < |met| ensures desc[met[l]].ht != desc[i].ht {
        assert more[l + 1] == met[l];
      }
    }
  }

  lemma LastCons(desc: seq<FieldD>, n: nat, met: seq<nat>, i: nat)
    requires i < |desc| && n < |desc| && Fields(desc, met)
    ensures MetLast(desc, [n] + met, i) <==> MetLast(desc, met, i) || (n == i && UnionUnmet(desc, met, 0, i))
  {
    hide UnionUnmet;
    var more := [n] + met;
    forall k: nat | k <= |met| ensures UnionUnmet(desc, more, k + 1, i) <==> UnionUnmet(desc, met, k, i) {
      UnmetCons(desc, n, met, k, i);
    }
    if MetLast(desc, met, i) {
      var k: nat :| k < |met| && met[k] == i && UnionUnmet(desc, met, k + 1, i);
      assert more[k + 1] == i && UnionUnmet(desc, more, k + 2, i);
    }
    if MetLast(desc, more, i) {
      var k: nat :| k < |more| && more[k] == i && UnionUnmet(desc, more, k + 1, i);
      if k > 0 {
        assert met[k - 1] == i && UnionUnmet(desc, met, k, i);
      }
    }
    if n == i && UnionUnmet(desc, met, 0, i) {
      assert more[0] == i && UnionUnmet(desc, more, 1, i);
    }
  }

  lemma {:induction false} LoopHoldsLast(desc: seq<FieldD>, st: Progress, b: Bytes, i: nat)
    requires |st.slots| == |desc| && i < |desc| && desc[i].ht.Oneof? && DecLoop(desc, st, b).Some?
    ensures var met := Met(desc, st, b);
      DecLoop(desc, st, b).value.slots[i] != [] <==>
        MetLast(desc, met, i) || (UnionUnmet(desc, met, 0, i) && st.slots[i] != [])
    decreases |b|
  {
    hide Turn, Var32, Skip, UnionUnmet, MetLast;
    NothingMet(desc, i);
    match Var32(b)
    case Fail =>
    case Got(key, rest) => {
      var n := Find(desc, key / 8, 0);
      if key != 0 && n < |desc| {
        match Turn(desc, st, n, key % 8, rest)
        case Fail =>
        case Got(next, left) => {
          LoopHoldsLast(desc, next, left, i);
          TurnReplaces(desc, st, n, key % 8, rest);
          LastCons(desc, n, Met(desc, next, left), i);
          UnmetCons(desc, n, Met(desc, next, left), 0, i);
        }
      } else if key != 0 {
        match Skip(key % 8, rest)
        case Fail =>
        case Got(_, left) => LoopHoldsLast(desc, st, left, i);
      }
    }
  }

  lemma NothingMet(desc: seq<FieldD>, i: nat)
    requires i < |desc|
    ensures UnionUnmet(desc, [], 0, i) && !MetLast(desc, [], i)
  {
  }

  /** Whatever the bytes are: a member of a oneof is set if and only if it is the last member of its union that the
      bytes hold. */
  lemma OneofHoldsLast(desc: seq<FieldD>, b: Bytes, i: nat)
    requires i < |desc| && desc[i].ht.Oneof? && Decode(desc, b).Some?
    ensures Decode(desc, b).value[i] != [] <==> MetLast(desc, Met(desc, Progress(Defaults(desc), {}, F.None), b), i)
  {
    hide DecLoop, Met, MetLast, UnionUnmet;
    LoopHoldsLast(desc, Progress(Defaults(desc), {}, F.None), b, i);
  }

  // ----- fields the descriptor does not know -----

  predicate Unknown(desc: seq<FieldD>, tag: nat) {
    forall i :: 0 <= i < |desc| ==> desc[i].tag != tag
  }

  lemma {:induction false} VarintSkipped(v: nat, rest: Bytes)
    ensures SkipVarint(Varint(v) + rest) == Got((), rest)
    decreases v
  {
    VarintStep(v, rest);
    hide Varint;
    if v >= 128 {
      VarintSkipped(v / 128, rest);
      assert ([v % 128 + 128] + (Varint(v / 128) + rest))[1..] == Varint(v / 128) + rest;
    } else {
      assert ([v] + rest)[1..] == rest;
    }
  }

  lemma LengthSkipped(b: Bytes, rest: Bytes)
    requires |b| < 0x1_0000_0000
    ensures Skip(2, Varint(|b|) + b + rest) == Got((), rest)
  {
    hide Var32, Varint;
    Var32RoundTrip(|b|, b + rest);
    assert Varint(|b|) + b + rest == Varint(|b|) + (b + rest) && (b + rest)[|b|..] == rest;
  }

  lemma FixedSkipped(b: Bytes, rest: Bytes)
    ensures |b| == 4 ==> Skip(5, b + rest) == Got((), rest)
    ensures |b| == 8 ==> Skip(1, b + rest) == Got((), rest)
  {
    assert (b + rest)[|b|..] == rest;
  }

  lemma ValueSkipped(lt: LType, v: Value, rest: Bytes)
    requires ValueOk(lt, v) && |EncValue(lt, v)| < 0x1_0000_0000
    ensures Skip(WireType(lt), EncValue(lt, v) + rest) == Got((), rest)
  {
    hide Varint, Skip, EncFrom, MessageOk, Fixed32, Fixed64, Zigzag, Signed64, Low64;
    match v
    case Num(n) =>
      if lt.Fix32? || lt.Fix64? {
        FixedSkipped(EncValue(lt, v), rest);
      } else {
        NumberSkipped(lt, n, rest);
      }
    case Blob(b) => LengthSkipped(b, rest);
    case Msg(slots) => LengthSkipped(EncMsg(lt.fields, slots), rest);
  }

  lemma NumberSkipped(lt: LType, n: int, rest: Bytes)
    requires Packable(lt) && !lt.Fix32? && !lt.Fix64?
    ensures Skip(0, EncScalar(lt, Num(n)) + rest) == Got((), rest)
  {
    hide Varint, SkipVarint, Zigzag, Signed64, Low64;
    VarintSkipped(if lt.Zig? then Zigzag(Signed64(Low64(n))) else Low64(n), rest);
  }

  /** The tag of an unknown field makes the decoder skip what stands behind it. */
  lemma UnknownKey(desc: seq<FieldD>, st: Progress, tag: nat, wireType: nat, b: Bytes, rest: Bytes)
    requires |st.slots| == |desc| && Unknown(desc, tag) && 1 <= tag < 0x2000_0000 && wireType < 8
    requires Skip(wireType, b) == Got((), rest)
    ensures DecLoop(desc, st, TagBytes(tag, wireType) + b) == DecLoop(desc, st, rest)
  {
    hide DecKnown, Varint, Var32, Skip;
    var key := tag * 8 + wireType;
    Var32RoundTrip(key, b);
    assert key / 8 == tag && key % 8 == wireType;
    assert Find(desc, tag, 0) == |desc|;
  }

  lemma {:induction false} ItemsSkipped(desc: seq<FieldD>, st: Progress, f: FieldD, vs: seq<Value>, rest: Bytes)
    requires |st.slots| == |desc| && Unknown(desc, f.tag) && 1 <= f.tag < 0x2000_0000
    requires (forall v :: v in vs ==> ValueOk(f.lt, v)) && |EncTagged(f, vs)| < 0x1_0000_0000
    ensures DecLoop(desc, st, EncTagged(f, vs) + rest) == DecLoop(desc, st, rest)
    decreases |vs|
  {
    if vs == [] {
      assert EncTagged(f, vs) + rest == rest;
    } else {
      var tail := EncTagged(f, vs[1..]) + rest;
      var body := EncValue(f.lt, vs[0]) + tail;
      assert EncTagged(f, vs) + rest == TagBytes(f.tag, WireType(f.lt)) + body;
      hide EncTagged, EncValue, TagBytes, DecLoop, Skip, ValueOk, Unknown;
      ValueSkipped(f.lt, vs[0], tail);
      UnknownKey(desc, st, f.tag, WireType(f.lt), body, tail);
      ItemsSkipped(desc, st, f, vs[1..], rest);
    }
  }

  /** A field that the descriptor does not have, as an encoder that knows it writes it, changes nothing wherever it
      stands: newer senders can talk to older receivers. */
  lemma UnknownFieldIgnored(desc: seq<FieldD>, st: Progress, f: FieldD, slot: seq<Value>, rest: Bytes)
    requires |st.slots| == |desc| && Unknown(desc, f.tag) && 1 <= f.tag < 0x2000_0000
    requires SlotOk(f, slot) && |EncField(f, slot)| < 0x1_0000_0000
    ensures DecLoop(desc, st, EncField(f, slot) + rest) == DecLoop(desc, st, rest)
  {
    hide DecLoop, EncItems, EncTagged, Skip, IsZero, ValueOk, Unknown, Varint, TagBytes;
    if EncField(f, slot) == [] {
      assert EncField(f, slot) + rest == rest;
    } else if f.ht.Repeated? && slot != [] && Packable(f.lt) {
      var items := EncItems(f.lt, slot);
      var body := Varint(|items|) + items + rest;
      assert EncField(f, slot) + rest == TagBytes(f.tag, 2) + body;
      LengthSkipped(items, rest);
      UnknownKey(desc, st, f.tag, 2, body, rest);
    } else {
      ItemsSkipped(desc, st, f, slot, rest);
    }
  }

  // ----- newer senders, older receivers -----

  /** The older descriptor has some of the fields of the newer one, in the same order: field `j` is field `at[j]`. */
  predicate Picks(older: seq<FieldD>, newer: seq<FieldD>, at: seq<nat>) {
    && |at| == |older| && (forall j :: 0 <= j < |at| ==> at[j] < |newer| && older[j] == newer[at[j]])
    && forall j, k :: 0 <= j < k < |at| ==> at[j] < at[k]
  }

  function Picked(m: Slots, at: seq<nat>): Slots
    requires forall j :: 0 <= j < |at| ==> at[j] < |m|
  {
    seq(|at|, j requires 0 <= j < |at| => m[at[j]])
  }

  lemma PickedIsOk(older: seq<FieldD>, newer: seq<FieldD>, at: seq<nat>, m: Slots)
    requires DescOk(newer) && MessageOk(newer, m) && Picks(older, newer, at)
    ensures DescOk(older) && MessageOk(older, Picked(m, at))
  {
    hide FieldOk, SlotOk;
  }

  lemma UnpickedUnknown(older: seq<FieldD>, newer: seq<FieldD>, at: seq<nat>, i: nat)
    requires UniqueTags(newer) && Picks(older, newer, at) && i < |newer| && i !in at
    ensures Unknown(older, newer[i].tag)
  {
    forall j | 0 <= j < |older| ensures older[j].tag != newer[i].tag {
      assert at[j] in at;
    }
  }

  /** The newer message from field `i` on, read by a decoder that has got to field `j` of its own. */
  lemma {:induction false} NewerRead(older: seq<FieldD>, newer: seq<FieldD>, at: seq<nat>, m: Slots, i: nat, j: nat)
    requires DescOk(newer) && |m| == |newer| && MessageOk(newer, m) && Picks(older, newer, at)
    requires |EncFrom(newer, m, i)| < 0x1_0000_0000
    requires i <= |newer| && j <= |at| && (j < |at| ==> i <= at[j]) && (j > 0 ==> at[j - 1] < i)
    ensures var mine := Picked(m, at);
      DecLoop(older, Reached(older, mine, j), EncFrom(newer, m, i)) == F.Some(Reached(older, mine, |older|))
    decreases |newer| - i
  {
    hide DescOk, MessageOk, DecLoop, EncFrom, EncField, Reached, SlotOk;
    PickedIsOk(older, newer, at, m);
    var mine := Picked(m, at);
    if i < |newer| {
      FieldInFront(newer, m, i);
      if j < |at| && at[j] == i {
        WholeFieldRead(older, mine, j, EncFrom(newer, m, i + 1));
        NewerRead(older, newer, at, m, i + 1, j + 1);
      } else {
        assert i !in at by { NotPicked(at, i, j); }
        UnpickedUnknown(older, newer, at, i);
        UnknownFieldIgnored(older, Reached(older, mine, j), newer[i], m[i], EncFrom(newer, m, i + 1));
        NewerRead(older, newer, at, m, i + 1, j);
      }
    } else {
      NothingLeft(older, Reached(older, mine, j), newer, m);
    }
  }

  lemma NothingLeft(desc: seq<FieldD>, st: Progress, newer: seq<FieldD>, m: Slots)
    requires |st.slots| == |desc| && |m| == |newer|
    ensures EncFrom(newer, m, |newer|) == [] && DecLoop(desc, st, []) == F.Some(st)
  {
  }

  lemma FieldInFront(desc: seq<FieldD>, m: Slots, i: nat)
    requires DescOk(desc) && |m| == |desc| && MessageOk(desc, m) && i < |desc|
    ensures UniqueTags(desc) && 1 <= desc[i].tag < 0x2000_0000 && SlotOk(desc[i], m[i])
    ensures EncFrom(desc, m, i) == EncField(desc[i], m[i]) + EncFrom(desc, m, i + 1)
  {
    assert FieldOk(desc[i]);
  }

  lemma NotPicked(at: seq<nat>, i: nat, j: nat)
    requires (forall j, k :: 0 <= j < k < |at| ==> at[j] < at[k]) && j <= |at|
    requires (j < |at| ==> i < at[j]) && (j > 0 ==> at[j - 1] < i)
    ensures i !in at
  {
  }

  /** A message that was written under a newer descriptor, with fields added anywhere, is read under the older one as
      what it holds of the older fields. */
  lemma NewerSender(older: seq<FieldD>, newer: seq<FieldD>, at: seq<nat>, m: Slots)
    requires DescOk(newer) && MessageOk(newer, m) && |EncMsg(newer, m)| < 0x1_0000_0000 && Picks(older, newer, at)
    ensures Decode(older, EncMsg(newer, m)) == F.Some(Normal(older, Picked(m, at)))
  {
    PickedIsOk(older, newer, at, m);
    hide DescOk, DecLoop, EncFrom;
    NewerRead(older, newer, at, m, 0, 0);
    ReachedStart(older, Picked(m, at));
    ReachedEnd(older, Picked(m, at));
  }

  // ----- one message behind another -----

  lemma {:induction false} FieldsReadOn(desc: seq<FieldD>, m: Slots, i: nat, rest: Bytes)
    requires DescOk(desc) && MessageOk(desc, m) && i <= |desc| == |m| && |EncFrom(desc, m, i)| < 0x1_0000_0000
    ensures DecLoop(desc, Reached(desc, m, i), EncFrom(desc, m, i) + rest)
         == DecLoop(desc, Reached(desc, m, |desc|), rest)
    decreases |desc| - i
  {
    hide DescOk, MessageOk, DecLoop, EncFrom, EncField, Reached, SlotOk;
    NothingLeft(desc, Reached(desc, m, i), desc, m);
    if i < |desc| {
      FieldInFront(desc, m, i);
      var tail := EncFrom(desc, m, i + 1);
      assert EncFrom(desc, m, i) + rest == EncField(desc[i], m[i]) + (tail + rest);
      WholeFieldRead(desc, m, i, tail + rest);
      FieldsReadOn(desc, m, i + 1, rest);
    } else {
      assert EncFrom(desc, m, i) + rest == rest;
    }
  }

  /** Reading a message and then more bytes is reading these bytes into the message: messages that follow each other
      merge. */
  lemma ConcatenationMerges(desc: seq<FieldD>, m: Slots, b: Bytes)
    requires DescOk(desc) && MessageOk(desc, m) && |EncMsg(desc, m)| < 0x1_0000_0000
    requires forall i :: 0 <= i < |desc| ==> !desc[i].ht.Required? && !FixedCount(desc[i])
    ensures Decode(desc, EncMsg(desc, m) + b) == DecMsg(desc, Normal(desc, m), b)
  {
    hide DecLoop, EncFrom, DescOk;
    FieldsReadOn(desc, m, 0, b);
    ReachedStart(desc, m);
    ReachedEnd(desc, m);
    NothingCounted(desc, m, |desc|);
    assert Reached(desc, m, |desc|) == Progress(Normal(desc, m), {}, F.None);
  }

  lemma {:induction false} NothingCounted(desc: seq<FieldD>, m: Slots, i: nat)
    requires i <= |desc| == |m| && forall j :: 0 <= j < |desc| ==> !desc[j].ht.Required? && !FixedCount(desc[j])
    ensures RequiredIndex(desc, i) == 0 && SeenUpTo(desc, i) == {} && LastFilled(desc, m, i) == F.None
  {
    if i > 0 {
      NothingCounted(desc, m, i - 1);
    }
  }

  // ----- required fields -----

  /** A required field with number `k` among the required ones is met. */
  predicate Counted(desc: seq<FieldD>, met: seq<nat>, k: nat)
    requires Fields(desc, met)
  {
    exists l :: 0 <= l < |met| && desc[met[l]].ht.Required? && RequiredIndex(desc, met[l]) == k
  }

  lemma CountedCons(desc: seq<FieldD>, n: nat, met: seq<nat>, k: nat)
    requires n < |desc| && Fields(desc, met)
    ensures Counted(desc, [n] + met, k) <==>
      Counted(desc, met, k) || (desc[n].ht.Required? && RequiredIndex(desc, n) == k)
  {
    var more := [n] + met;
    if l :| 0 <= l < |met| && desc[met[l]].ht.Required? && RequiredIndex(desc, met[l]) == k {
      assert more[l + 1] == met[l];
    }
    assert more[0] == n;
  }

  lemma TurnNotes(desc: seq<FieldD>, st: Progress, i: nat, wireType: nat, b: Bytes)
    requires i < |desc| == |st.slots| && Turn(desc, st, i, wireType, b).Got?
    ensures Turn(desc, st, i, wireType, b).value.seen == Noted(desc, st.seen, i)
  {
    hide DecField, Store;
  }

  lemma {:induction false} LoopNotes(desc: seq<FieldD>, st: Progress, b: Bytes, k: nat)
    requires |st.slots| == |desc| && desc != [] && k < 64 && DecLoop(desc, st, b).Some?
    ensures k in DecLoop(desc, st, b).value.seen <==> k in st.seen || Counted(desc, Met(desc, st, b), k)
    decreases |b|
  {
    hide Turn, Var32, Skip, Counted, RequiredIndex;
    NothingCountedYet(desc, k);
    match Var32(b)
    case Fail =>
    case Got(key, rest) => {
      var n := Find(desc, key / 8, 0);
      if key != 0 && n < |desc| {
        match Turn(desc, st, n, key % 8, rest)
        case Fail =>
        case Got(next, left) => {
          LoopNotes(desc, next, left, k);
          TurnNotes(desc, st, n, key % 8, rest);
          CountedCons(desc, n, Met(desc, next, left), k);
        }
      } else if key != 0 {
        match Skip(key % 8, rest)
        case Fail =>
        case Got(_, left) => LoopNotes(desc, st, left, k);
      }
    }
  }

  lemma NothingCountedYet(desc: seq<FieldD>, k: nat)
    ensures !Counted(desc, [], k)
  {
  }

  /** How many required fields stand in front of field `i`. */
  function RequiredBefore(desc: seq<FieldD>, i: nat): set<nat>
    requires i <= |desc|
  {
    set j: nat | j < i && desc[j].ht.Required?
  }

  lemma {:induction false} IndexCounts(desc: seq<FieldD>, i: nat)
    requires i <= |desc|
    ensures RequiredIndex(desc, i) == |RequiredBefore(desc, i)|
  {
    if i > 0 {
      IndexCounts(desc, i - 1);
      assert RequiredBefore(desc, i)
          == RequiredBefore(desc, i - 1) + if desc[i - 1].ht.Required? then {i - 1} else {};
    }
  }

  /** Every number below the count belongs to a required field. */
  lemma {:induction false} IndexReached(desc: seq<FieldD>, n: nat, k: nat) returns (i: nat)
    requires n <= |desc| && k < RequiredIndex(desc, n)
    ensures i < n && desc[i].ht.Required? && RequiredIndex(desc, i) == k
    decreases n
  {
    if k < RequiredIndex(desc, n - 1) {
      i := IndexReached(desc, n - 1, k);
    } else {
      i := n - 1;
    }
  }

  lemma IndexIsUnique(desc: seq<FieldD>, i: nat, j: nat)
    requires i < |desc| && j < |desc| && desc[i].ht.Required? && desc[j].ht.Required?
    requires RequiredIndex(desc, i) == RequiredIndex(desc, j)
    ensures i == j
  {
    hide RequiredIndex;
    NextIndex(desc, i);
    NextIndex(desc, j);
    RequiredGrows(desc, if i < j then i + 1 else i, if i < j then j else i);
    RequiredGrows(desc, if j < i then j + 1 else j, if j < i then i else j);
  }

  lemma NextIndex(desc: seq<FieldD>, i: nat)
    requires i < |desc| && desc[i].ht.Required?
    ensures RequiredIndex(desc, i + 1) == RequiredIndex(desc, i) + 1
  {
  }

  /** Each of the first 64 required fields is met. */
  ghost predicate RequiredMet(desc: seq<FieldD>, met: seq<nat>) {
    forall i: nat :: i < |desc| && desc[i].ht.Required? && |RequiredBefore(desc, i)| < 64 ==> i in met
  }

  lemma SeenIsMet(desc: seq<FieldD>, met: seq<nat>, seen: set<nat>)
    requires Fields(desc, met) && forall k: nat :: k < 64 ==> (k in seen <==> Counted(desc, met, k))
    ensures AllSeen(desc, seen) <==> RequiredMet(desc, met)
  {
    if AllSeen(desc, seen) {
      forall i: nat | i < |desc| && desc[i].ht.Required? && |RequiredBefore(desc, i)| < 64 ensures i in met {
        IndexCounts(desc, i);
        RequiredGrows(desc, i + 1, |desc|);
        var k := RequiredIndex(desc, i);
        assert k in seen;
        var l :| 0 <= l < |met| && desc[met[l]].ht.Required? && RequiredIndex(desc, met[l]) == k;
        IndexIsUnique(desc, met[l], i);
      }
    }
    if RequiredMet(desc, met) {
      forall k | 0 <= k < RequiredCount(desc) ensures k in seen {
        var i := IndexReached(desc, |desc|, k);
        IndexCounts(desc, i);
        var l :| 0 <= l < |met| && met[l] == i;
        assert Counted(desc, met, k);
      }
    }
  }

  /** Of bytes that the loop reads to their end, decoding accepts exactly those that hold each of the first 64 required
      fields and leave no array of fixed length half filled. */
  lemma RequiredFieldsExactly(desc: seq<FieldD>, init: Slots, b: Bytes)
    requires |init| == |desc| && desc != [] && DecLoop(desc, Progress(init, {}, F.None), b).Some?
    ensures var st := Progress(init, {}, F.None); var end := DecLoop(desc, st, b).value;
      DecMsg(desc, init, b).Some? <==> RequiredMet(desc, Met(desc, st, b)) && Filled(desc, end)
  {
    hide DecLoop, Met, Filled, Counted, RequiredMet, AllSeen;
    var st := Progress(init, {}, F.None);
    forall k: nat | k < 64
      ensures k in DecLoop(desc, st, b).value.seen <==> Counted(desc, Met(desc, st, b), k)
    {
      LoopNotes(desc, st, b, k);
    }
    SeenIsMet(desc, Met(desc, st, b), DecLoop(desc, st, b).value.seen);
  }
}
