/**
  Messages of nanopb (pb.h, pb_encode.c, pb_decode.c): descriptors, message values, and the wire
  format they are written in and read from (sections "Submessages" and "Packed Repeated Fields"
  of the Protocol Buffers "Encoding" specification).

  A message value has one slot for every field of its descriptor: the items present. Contents of
  a struct that its own has-flags, counts and tags declare absent are not part of the value.
 */
module PbMessage {
  import opened Coding
  import opened PbVarint
  import F = Format

  datatype LType =
    | Bool
    | Signed(size: nat)
    | Unsigned(size: nat)
    | Zig(size: nat)
    | Fix32
    | Fix64
    | BytesOf(max: nat)
    | StringOf(room: nat)
    | FixedBytes(len: nat)
    | Submessage(fields: seq<FieldD>)

  /** Singular is the implicit presence of proto3: an optional field without a has-flag. Members of
      a oneof share the number of their union. */
  datatype HType = Required | Optional | Singular | Repeated(max: nat, fixedCount: bool) | Oneof(union: nat)

  /** Where the struct keeps the field: the gap behind the field before it, the distance from the
      data to its count, tag or has-flag, and the size of one item. */
  datatype Layout = Layout(dataOffset: nat, sizeOffset: int, dataSize: nat, pointer: bool)

  datatype FieldD = FieldD(tag: nat, lt: LType, ht: HType, default: Value, layout: Layout)

  datatype Value = Num(n: int) | Blob(b: Bytes) | Msg(slots: seq<seq<Value>>)

  type Slots = seq<seq<Value>>

  predicate Packable(lt: LType) {
    lt.Bool? || lt.Signed? || lt.Unsigned? || lt.Zig? || lt.Fix32? || lt.Fix64?
  }

  // ----- well-formed descriptors and messages -----

  /** Half of the range of an integer of so many bytes. */
  function Half(size: nat): nat {
    if size == 1 then 0x80 else if size == 2 then 0x8000 else if size == 4 then 0x8000_0000 else 0x8000_0000_0000_0000
  }

  predicate SizeOk(lt: LType) {
    lt.Signed? || lt.Unsigned? || lt.Zig? ==> lt.size == 1 || lt.size == 2 || lt.size == 4 || lt.size == 8
  }

  predicate UniqueTags(desc: seq<FieldD>) {
    forall i, j :: 0 <= i < j < |desc| ==> desc[i].tag != desc[j].tag
  }

  predicate DescOk(desc: seq<FieldD>)
    decreases desc
  {
    && UniqueTags(desc)
    && forall i :: 0 <= i < |desc| ==> FieldOk(desc[i])
  }

  predicate FieldOk(f: FieldD)
    decreases f
  {
    1 <= f.tag < 0x2000_0000 && LTypeOk(f.lt)
  }

  predicate LTypeOk(lt: LType)
    decreases lt
  {
    SizeOk(lt) && (lt.Submessage? ==> DescOk(lt.fields))
  }

  /** A value of the C type, within the bounds of its static storage. */
  predicate ValueOk(lt: LType, v: Value)
    decreases lt
  {
    match lt
    case Bool => v.Num? && 0 <= v.n <= 1
    case Signed(size) => v.Num? && -(Half(size) as int) <= v.n < Half(size)
    case Unsigned(size) => v.Num? && 0 <= v.n < 2 * Half(size)
    case Zig(size) => v.Num? && -(Half(size) as int) <= v.n < Half(size)
    case Fix32 => v.Num? && 0 <= v.n < 0x1_0000_0000
    case Fix64 => v.Num? && 0 <= v.n < 0x1_0000_0000_0000_0000
    case BytesOf(max) => v.Blob? && |v.b| <= max
    case StringOf(room) => v.Blob? && |v.b| < room && 0 !in v.b
    case FixedBytes(len) => v.Blob? && |v.b| == len
    case Submessage(fields) => v.Msg? && MessageOk(fields, v.slots)
  }

  predicate SlotOk(f: FieldD, slot: seq<Value>)
    decreases f
  {
    && (forall k :: 0 <= k < |slot| ==> ValueOk(f.lt, slot[k]))
    && match f.ht
       case Required => |slot| == 1
       case Singular => |slot| == 1
       case Optional => |slot| <= 1
       case Oneof(_) => |slot| <= 1
       case Repeated(max, fixedCount) => |slot| <= max && (fixedCount ==> |slot| == max)
  }

  predicate SameUnion(f: FieldD, g: FieldD) {
    f.ht.Oneof? && f.ht == g.ht
  }

  predicate MessageOk(desc: seq<FieldD>, slots: Slots)
    decreases desc
  {
    && |slots| == |desc|
    && (forall i :: 0 <= i < |desc| ==> SlotOk(desc[i], slots[i]))
    && forall i, j ::
         0 <= i < |desc| && 0 <= j < |desc| && i != j && SameUnion(desc[i], desc[j]) && slots[i] != [] ==>
           slots[j] == []
  }

  // ----- writing -----

  /** pb_check_proto3_default_value for a singular field. */
  predicate IsZero(lt: LType, v: Value)
    decreases lt
  {
    if lt.Submessage? then v.Msg? && AllZero(lt.fields, v.slots)
    else if lt.FixedBytes? then lt.len == 0
    else if v.Blob? then v.b == []
    else v == Num(0)
  }

  predicate ZeroSlot(f: FieldD, slot: seq<Value>)
    decreases f
  {
    match f.ht
    case Required => false
    case Repeated(max, fixedCount) => !fixedCount && slot == []
    case Oneof(_) => slot == []
    case Optional => slot == []
    case Singular => slot != [] && IsZero(f.lt, slot[0])
  }

  predicate AllZero(desc: seq<FieldD>, slots: Slots)
    decreases desc
  {
    |slots| == |desc| && forall i :: 0 <= i < |desc| ==> ZeroSlot(desc[i], slots[i])
  }

  function WireType(lt: LType): (w: nat)
    ensures w == 0 || w == 1 || w == 2 || w == 5
  {
    if lt.Fix32? then 5 else if lt.Fix64? then 1 else if Packable(lt) then 0 else 2
  }

  function TagBytes(tag: nat, wireType: nat): Bytes {
    Varint(tag * 8 + wireType)
  }

  function Low64(n: int): Long {
    n % 0x1_0000_0000_0000_0000
  }

  function Signed64(u: Long): SignedLong {
    if u >= 0x8000_0000_0000_0000 then u - 0x1_0000_0000_0000_0000 else u
  }

  function EncScalar(lt: LType, v: Value): Bytes {
    match v
    case Num(n) =>
      if lt.Zig? then Varint(Zigzag(Signed64(Low64(n))))
      else if lt.Fix32? then Fixed32(n % 0x1_0000_0000)
      else if lt.Fix64? then Fixed64(Low64(n))
      else Varint(Low64(n))
    case Blob(b) => Varint(|b|) + b
    case Msg(_) => []
  }

  function EncValue(lt: LType, v: Value): Bytes
    decreases lt, 0
  {
    if lt.Submessage? && v.Msg? then
      var m := EncFrom(lt.fields, v.slots, 0);
      Varint(|m|) + m
    else EncScalar(lt, v)
  }

  /** The items of a packed array. */
  function EncItems(lt: LType, vs: seq<Value>): Bytes
    decreases lt, |vs|
  {
    if vs == [] then [] else EncValue(lt, vs[0]) + EncItems(lt, vs[1..])
  }

  /** Items with a tag each. */
  function EncTagged(f: FieldD, vs: seq<Value>): Bytes
    decreases f, |vs|
  {
    if vs == [] then [] else TagBytes(f.tag, WireType(f.lt)) + EncValue(f.lt, vs[0]) + EncTagged(f, vs[1..])
  }

  function EncField(f: FieldD, slot: seq<Value>): Bytes
    decreases f, |slot| + 1
  {
    if f.ht.Singular? && slot != [] && IsZero(f.lt, slot[0]) then []
    else if f.ht.Repeated? && slot != [] && Packable(f.lt) then
      var items := EncItems(f.lt, slot);
      TagBytes(f.tag, 2) + Varint(|items|) + items
    else EncTagged(f, slot)
  }

  /** The fields from number `i` on. */
  function EncFrom(desc: seq<FieldD>, slots: Slots, i: nat): Bytes
    decreases desc, |desc| - i
  {
    if i < |desc| && i < |slots| then EncField(desc[i], slots[i]) + EncFrom(desc, slots, i + 1) else []
  }

  function EncMsg(desc: seq<FieldD>, slots: Slots): Bytes {
    EncFrom(desc, slots, 0)
  }

  // ----- reading -----

  /** pb_message_set_to_defaults: absent optional fields, empty arrays and oneofs, and defaults in
      the others. */
  function Default(f: FieldD): Value
    decreases f, 0
  {
    if f.lt.Submessage? then Msg(Defaults(f.lt.fields)) else f.default
  }

  function InitSlot(f: FieldD): seq<Value>
    decreases f, 1
  {
    if f.ht.Required? || f.ht.Singular? then [Default(f)] else []
  }

  function Defaults(desc: seq<FieldD>): Slots
    decreases desc
  {
    seq(|desc|, i requires 0 <= i < |desc| => InitSlot(desc[i]))
  }

  /** What the field's storage holds before it is read again. */
  function Content(f: FieldD, slot: seq<Value>): Value {
    if slot == [] then Default(f) else slot[0]
  }

  function Find(desc: seq<FieldD>, tag: nat, i: nat): (n: nat)
    requires i <= |desc|
    ensures i <= n <= |desc| && (n < |desc| ==> desc[n].tag == tag)
    ensures forall k :: i <= k < n ==> desc[k].tag != tag
    decreases |desc| - i
  {
    if i == |desc| || desc[i].tag == tag then i else Find(desc, tag, i + 1)
  }

  /** The number of required fields before field `i`. */
  function RequiredIndex(desc: seq<FieldD>, i: nat): (n: nat)
    requires i <= |desc|
    ensures n <= i
  {
    if i == 0 then 0 else RequiredIndex(desc, i - 1) + if desc[i - 1].ht.Required? then 1 else 0
  }

  lemma {:induction false} RequiredGrows(desc: seq<FieldD>, i: nat, j: nat)
    requires i <= j <= |desc|
    ensures RequiredIndex(desc, i) <= RequiredIndex(desc, j)
    decreases j
  {
    if i < j {
      RequiredGrows(desc, i, j - 1);
    }
  }

  const MAX_REQUIRED: nat := 64

  /** The state of pb_decode_noinit's loop: the struct, the required fields seen, and the repeated
      field of fixed count that is being filled. */
  datatype Progress = Progress(slots: Slots, seen: set<nat>, filling: F.Option<nat>)

  predicate Filled(desc: seq<FieldD>, st: Progress) {
    st.filling.Some? && st.filling.value < |desc| && st.filling.value < |st.slots|
      && desc[st.filling.value].ht.Repeated?
    ==> |st.slots[st.filling.value]| == desc[st.filling.value].ht.max
  }

  /** Storing into a member of a oneof drops what another member held. */
  function Store(desc: seq<FieldD>, slots: Slots, i: nat, slot: seq<Value>): (r: Slots)
    requires i < |desc| == |slots|
    ensures |r| == |slots|
  {
    seq(|slots|, j requires 0 <= j < |slots| => if j == i then slot else if SameUnion(desc[i], desc[j]) then []
      else slots[j])
  }

  function UpToNul(b: Bytes): Bytes {
    if b == [] || b[0] == 0 then [] else [b[0]] + UpToNul(b[1..])
  }

  function GetBytes(n: nat, b: Bytes): (r: Parsed<Bytes>)
    ensures r.Got? ==> |r.rest| <= |b| && |r.value| == n
  {
    if |b| < n then Fail else Got(b[..n], b[n..])
  }

  function SkipVarint(b: Bytes): (r: Parsed<()>)
    ensures r.Got? ==> |r.rest| < |b|
  {
    if b == [] then Fail else if b[0] < 128 then Got((), b[1..]) else SkipVarint(b[1..])
  }

  function SkipBytes(n: nat, b: Bytes): Parsed<()> {
    if |b| < n then Fail else Got((), b[n..])
  }

  /** pb_skip_field. */
  function Skip(wireType: nat, b: Bytes): (r: Parsed<()>)
    ensures r.Got? ==> |r.rest| <= |b|
  {
    if wireType == 0 then SkipVarint(b)
    else if wireType == 1 then SkipBytes(8, b)
    else if wireType == 2 then
      (match Var32(b) case Fail => Fail case Got(n, rest) => SkipBytes(n, rest))
    else if wireType == 5 then SkipBytes(4, b)
    else Fail
  }

  /** The C conversion to a signed integer of so many bytes. */
  function Cast(size: nat, n: int): int {
    var m := n % (2 * Half(size));
    if m >= Half(size) then m - 2 * Half(size) else m
  }

  function Fitted(size: nat, n: int, rest: Bytes): Parsed<Value> {
    if Cast(size, n) == n then Got(Num(n), rest) else Fail
  }

  function DecScalar(lt: LType, b: Bytes): (r: Parsed<Value>)
    ensures r.Got? ==> |r.rest| < |b|
  {
    match lt
    case Bool => (match Var32(b) case Fail => Fail case Got(u, rest) => Got(Num(if u != 0 then 1 else 0), rest))
    case Signed(size) =>
      (match Get64(b)
       case Fail => Fail
       case Got(u, rest) => Fitted(size, if size == 8 then Signed64(u) else Cast(4, u), rest))
    case Unsigned(size) =>
      (match Get64(b)
       case Fail => Fail
       case Got(u, rest) => if u < 2 * Half(size) then Got(Num(u), rest) else Fail)
    case Zig(size) => (match Get64(b) case Fail => Fail case Got(u, rest) => Fitted(size, Unzigzag(u), rest))
    case Fix32 => if |b| < 4 then Fail else Got(Num(DecodeFixed32(b)), b[4..])
    case Fix64 => if |b| < 8 then Fail else Got(Num(DecodeFixed64(b)), b[8..])
    case BytesOf(max) =>
      (match Var32(b)
       case Fail => Fail
       case Got(n, rest) =>
         if n > max then Fail
         else match GetBytes(n, rest) case Fail => Fail case Got(s, r) => Got(Blob(s), r))
    case StringOf(room) =>
      (match Var32(b)
       case Fail => Fail
       case Got(n, rest) =>
         if n + 1 > room then Fail
         else match GetBytes(n, rest) case Fail => Fail case Got(s, r) => Got(Blob(UpToNul(s)), r))
    case FixedBytes(len) =>
      (match Var32(b)
       case Fail => Fail
       case Got(n, rest) =>
         if n == 0 then Got(Blob(seq(len, _ => 0)), rest)
         else if n != len then Fail
         else match GetBytes(n, rest) case Fail => Fail case Got(s, r) => Got(Blob(s), r))
    case Submessage(_) => Fail
  }

  /** One value; a submessage is merged into what its storage holds. */
  function DecValue(lt: LType, init: Value, b: Bytes): (r: Parsed<Value>)
    ensures r.Got? ==> |r.rest| < |b|
    decreases |b|, 0
  {
    if lt.Submessage? && init.Msg? then
      match Var32(b)
      case Fail => Fail
      case Got(n, rest) =>
        if |rest| < n then Fail
        else
          match DecMsg(lt.fields, init.slots, rest[..n])
          case None => Fail
          case Some(slots) => Got(Msg(slots), rest[n..])
    else DecScalar(lt, b)
  }

  /** The loop over a packed array: as many items as there is room for. */
  function DecPacked(lt: LType, slot: seq<Value>, max: nat, b: Bytes): (r: Parsed<seq<Value>>)
    ensures r.Got? ==> |r.rest| <= |b|
    decreases |b|, 1
  {
    if b == [] || |slot| >= max then Got(slot, b)
    else
      match DecValue(lt, Num(0), b)
      case Fail => Fail
      case Got(v, rest) => DecPacked(lt, slot + [v], max, rest)
  }

  /** decode_static_field. */
  function DecField(f: FieldD, wireType: nat, slot: seq<Value>, b: Bytes): (r: Parsed<seq<Value>>)
    ensures r.Got? ==> |r.rest| < |b|
    decreases |b|, 2
  {
    if f.ht.Repeated? then
      if wireType == 2 && Packable(f.lt) then
        match Var32(b)
        case Fail => Fail
        case Got(n, rest) =>
          if |rest| < n then Fail
          else
            match DecPacked(f.lt, slot, f.ht.max, rest[..n])
            case Fail => Fail
            case Got(items, left) => if left == [] then Got(items, rest[n..]) else Fail
      else if |slot| >= f.ht.max then Fail
      else
        match DecValue(f.lt, Default(f), b)
        case Fail => Fail
        case Got(v, rest) => Got(slot + [v], rest)
    else
      match DecValue(f.lt, Content(f, slot), b)
      case Fail => Fail
      case Got(v, rest) => Got([v], rest)
  }

  /** A repeated field of fixed count is counted from zero whenever it is not the one being filled. */
  function Opened(desc: seq<FieldD>, st: Progress, i: nat): Progress
    requires i < |desc| == |st.slots|
  {
    if desc[i].ht.Repeated? && desc[i].ht.fixedCount && st.filling != F.Some(i) then
      st.(slots := st.slots[i := []], filling := F.Some(i))
    else st
  }

  function Noted(desc: seq<FieldD>, seen: set<nat>, i: nat): set<nat>
    requires i < |desc|
  {
    if desc[i].ht.Required? && RequiredIndex(desc, i) < MAX_REQUIRED then seen + {RequiredIndex(desc, i)} else seen
  }

  /** One turn of pb_decode_noinit's loop, for a field that the message has. */
  function Turn(desc: seq<FieldD>, st: Progress, i: nat, wireType: nat, b: Bytes): (r: Parsed<Progress>)
    requires i < |desc| == |st.slots|
    ensures r.Got? ==> |r.rest| < |b| && |r.value.slots| == |desc|
    decreases |b|, 3
  {
    var open := Opened(desc, st, i);
    if open.filling != st.filling && !Filled(desc, st) then Fail
    else
      match DecField(desc[i], wireType, open.slots[i], b)
      case Fail => Fail
      case Got(slot, rest) => Got(Progress(Store(desc, open.slots, i, slot), Noted(desc, st.seen, i), open.filling),
        rest)
  }

  function DecKnown(desc: seq<FieldD>, st: Progress, i: nat, wireType: nat, b: Bytes): (r: F.Option<Progress>)
    requires i < |desc| == |st.slots|
    ensures r.Some? ==> |r.value.slots| == |desc|
    decreases |b|, 4
  {
    match Turn(desc, st, i, wireType, b)
    case Fail => F.None
    case Got(next, rest) => DecLoop(desc, next, rest)
  }

  /** pb_decode_noinit's loop. A tag of zero ends the message; unknown fields are skipped. */
  function DecLoop(desc: seq<FieldD>, st: Progress, b: Bytes): (r: F.Option<Progress>)
    requires |st.slots| == |desc|
    ensures r.Some? ==> |r.value.slots| == |desc|
    decreases |b|, 3
  {
    if b == [] then F.Some(st)
    else
      match Var32(b)
      case Fail => F.None
      case Got(key, rest) =>
        if key == 0 then F.Some(st)
        else
          var i := Find(desc, key / 8, 0);
          if i < |desc| then DecKnown(desc, st, i, key % 8, rest)
          else if desc == [] && key / 8 == 0 then
            // the terminator of an empty descriptor is taken for a required bool with tag 0
            match Var32(rest)
            case Fail => F.None
            case Got(_, left) => DecLoop(desc, st, left)
          else
            match Skip(key % 8, rest)
            case Fail => F.None
            case Got(_, left) => DecLoop(desc, st, left)
  }

  function RequiredCount(desc: seq<FieldD>): nat {
    if RequiredIndex(desc, |desc|) < MAX_REQUIRED then RequiredIndex(desc, |desc|) else MAX_REQUIRED
  }

  predicate AllSeen(desc: seq<FieldD>, seen: set<nat>) {
    forall k :: 0 <= k < RequiredCount(desc) ==> k in seen
  }

  /** pb_decode_noinit: the struct read into `slots`, or failure. */
  function DecMsg(desc: seq<FieldD>, slots: Slots, b: Bytes): F.Option<Slots>
    decreases |b|, 5
  {
    if |slots| != |desc| then F.None
    else
      match DecLoop(desc, Progress(slots, {}, F.None), b)
      case None => F.None
      case Some(st) => if Filled(desc, st) && AllSeen(desc, st.seen) then F.Some(st.slots) else F.None
  }

  /** pb_decode. */
  function Decode(desc: seq<FieldD>, b: Bytes): F.Option<Slots> {
    DecMsg(desc, Defaults(desc), b)
  }
}
