/**
  nanopb's field iterator (pb_common.c): it steps through a descriptor and keeps pointers into the
  struct and a count of the required fields passed.
 */
module PbIter {
  import opened PbMessage

  /** pb_size_t has 32 bits in this build (PB_FIELD_32BIT); its largest value marks union members. */
  const SIZE_MAX: nat := 0xFFFF_FFFF
  const POINTER_SIZE: nat := 8

  /** What a field takes up in the struct. */
  function StorageSize(f: FieldD): nat {
    if f.layout.pointer then POINTER_SIZE
    else if f.ht.Repeated? then f.layout.dataSize * f.ht.max
    else f.layout.dataSize
  }

  predicate InsideUnion(prev: FieldD, f: FieldD) {
    prev.ht.Oneof? && f.ht.Oneof? && f.layout.dataOffset == SIZE_MAX
  }

  /** The offset of field `i` in the struct, as the iterator computes it. */
  function DataAt(desc: seq<FieldD>, i: nat): nat
    requires i <= |desc|
  {
    if i == |desc| then 0
    else if i == 0 then desc[0].layout.dataOffset
    else if InsideUnion(desc[i - 1], desc[i]) then DataAt(desc, i - 1)
    else DataAt(desc, i - 1) + StorageSize(desc[i - 1]) + desc[i].layout.dataOffset
  }

  function SizeAt(desc: seq<FieldD>, i: nat): int
    requires i <= |desc|
  {
    if i == |desc| then 0
    else if i > 0 && InsideUnion(desc[i - 1], desc[i]) then SizeAt(desc, i - 1)
    else DataAt(desc, i) + desc[i].layout.sizeOffset
  }

  /** A member of the struct: its offset and size, and the offset of what goes with it: its count, the tag of its
      union or its has-flag, or the member itself if there is none. */
  datatype Member = Member(offset: nat, size: nat, companion: int)

  /** The sizes the descriptor macros write down: an array is described by the size of an item and their number, a
      pointer by what it points to. */
  predicate Sized(f: FieldD, m: Member) {
    if f.layout.pointer then m.size == 8
    else if f.ht.Repeated? then m.size == f.layout.dataSize * f.ht.max
    else m.size == f.layout.dataSize
  }

  /** The generated descriptors of a struct: distances from member to member, and members of a union share their
      place. */
  predicate Generated(desc: seq<FieldD>, ms: seq<Member>) {
    && |ms| == |desc|
    && (forall i :: 0 <= i < |desc| ==>
          Sized(desc[i], ms[i]) && desc[i].layout.sizeOffset == ms[i].companion - ms[i].offset)
    && (desc != [] ==> desc[0].layout.dataOffset == ms[0].offset)
    && forall i :: 0 < i < |desc| ==>
         if desc[i - 1].ht.Oneof? && desc[i].ht.Oneof? && desc[i].layout.dataOffset == 0xFFFF_FFFF then
           ms[i].offset == ms[i - 1].offset && ms[i].companion == ms[i - 1].companion
         else
           desc[i].layout.dataOffset == ms[i].offset - ms[i - 1].offset - ms[i - 1].size
  }

  /** For them the iterator's two pointers are at the member and at what goes with it. */
  lemma {:induction false} IteratorFindsMember(desc: seq<FieldD>, ms: seq<Member>, i: nat)
    requires Generated(desc, ms) && i < |desc|
    ensures DataAt(desc, i) == ms[i].offset && SizeAt(desc, i) == ms[i].companion
  {
    if i > 0 {
      IteratorFindsMember(desc, ms, i - 1);
    }
  }

  /** The first field with the tag, going round from `pos`. */
  predicate FoundFrom(desc: seq<FieldD>, pos: nat, tag: nat, found: nat)
    requires pos < |desc|
  {
    && found < |desc| && desc[found].tag == tag
    && if pos <= found then forall k :: pos <= k < found ==> desc[k].tag != tag
       else (forall k :: pos <= k < |desc| ==> desc[k].tag != tag) && forall k :: 0 <= k < found ==> desc[k].tag != tag
  }

  class FieldIter {
    const desc: seq<FieldD>
    var pos: nat
    var pData: nat
    var pSize: int
    var requiredIndex: nat

    /** All the iterator knows is a function of its position. */
    predicate Valid()
      reads this
    {
      && (pos < |desc| || pos == |desc| == 0)
      && pData == DataAt(desc, pos) && pSize == SizeAt(desc, pos) && requiredIndex == RequiredIndex(desc, pos)
    }

    constructor (desc: seq<FieldD>)
      ensures this.desc == desc && Valid() && pos == 0
    {
      this.desc := desc;
      pos, requiredIndex := 0, 0;
      pData := if desc == [] then 0 else desc[0].layout.dataOffset;
      pSize := if desc == [] then 0 else desc[0].layout.dataOffset + desc[0].layout.sizeOffset;
    }

    method Begin() returns (ok: bool)
      modifies this
      ensures Valid() && pos == 0 && ok == (desc != [])
    {
      pos, requiredIndex := 0, 0;
      pData := if desc == [] then 0 else desc[0].layout.dataOffset;
      pSize := if desc == [] then 0 else desc[0].layout.dataOffset + desc[0].layout.sizeOffset;
      ok := desc != [];
    }

    /** One step; false when it has gone round to the first field. */
    method Next() returns (more: bool)
      requires Valid()
      modifies this
      ensures Valid() && pos == (if old(pos) + 1 < |desc| then old(pos) + 1 else 0) && more == (pos != 0)
    {
      if pos == |desc| {
        return false;
      }
      var prev := desc[pos];
      pos := pos + 1;
      if pos == |desc| {
        var _ := Begin();
        return false;
      }
      var f := desc[pos];
      var prevSize := prev.layout.dataSize;
      if prev.ht.Oneof? && f.ht.Oneof? && f.layout.dataOffset == SIZE_MAX {
        return true;
      } else if !prev.layout.pointer && prev.ht.Repeated? {
        prevSize := prevSize * prev.ht.max;
      } else if prev.layout.pointer {
        prevSize := POINTER_SIZE;
      }
      if prev.ht.Required? {
        requiredIndex := requiredIndex + 1;
      }
      pData := pData + prevSize + f.layout.dataOffset;
      pSize := pData + f.layout.sizeOffset;
      more := true;
    }

    /** Going round from where it stands; when nothing is found it stands there again. The terminator
        of an empty descriptor has tag 0 and can be found. */
    method Find(tag: nat) returns (found: bool)
      requires Valid()
      modifies this
      ensures Valid() && (desc == [] ==> found == (tag == 0))
      ensures desc != [] ==>
        if found then FoundFrom(desc, old(pos), tag, pos)
        else pos == old(pos) && forall k :: 0 <= k < |desc| ==> desc[k].tag != tag
    {
      if desc == [] {
        return tag == 0;
      }
      var start := pos;
      ghost var steps := 0;
      while true
        invariant Valid() && steps < |desc|
        invariant pos == if start + steps < |desc| then start + steps else start + steps - |desc|
        invariant forall k :: start <= k < start + steps && k < |desc| ==> desc[k].tag != tag
        invariant forall k :: 0 <= k < start + steps - |desc| ==> desc[k].tag != tag
        decreases |desc| - steps
      {
        if desc[pos].tag == tag {
          return true;
        }
        var _ := Next();
        steps := steps + 1;
        if pos == start {
          break;
        }
      }
      found := false;
    }
  }
}
