/**
  The list of live snapshots (db/snapshot.h): a circular doubly linked list around a dummy
  head, relinked in place. Kept in the order of creation, it is sorted by sequence number, so
  the node after the head is the oldest snapshot a compaction has to respect.
 */
module Snapshots {

  class SnapshotImpl {
    const sequenceNumber: nat
    var prev: SnapshotImpl?
    var next: SnapshotImpl?

    constructor (sequenceNumber: nat)
      ensures this.sequenceNumber == sequenceNumber
    {
      this.sequenceNumber := sequenceNumber;
      prev, next := null, null;
    }
  }

  ghost predicate NonDecreasing(list: seq<SnapshotImpl>) {
    forall i, j :: 0 <= i < j < |list| ==> list[i].sequenceNumber <= list[j].sequenceNumber
  }

  ghost predicate Distinct(list: seq<SnapshotImpl>) {
    forall i, j :: 0 <= i < j < |list| ==> list[i] != list[j]
  }

  /** The node `i` places after the head, once around. */
  ghost function Ring(head: SnapshotImpl, list: seq<SnapshotImpl>, i: int): SnapshotImpl {
    if 1 <= i <= |list| then list[i - 1] else head
  }

  lemma RingDistinct(head: SnapshotImpl, list: seq<SnapshotImpl>)
    requires head !in list && Distinct(list)
    ensures forall i, j :: 0 <= i < j <= |list| ==> Ring(head, list, i) != Ring(head, list, j)
  {
  }

  lemma RingRemoved(head: SnapshotImpl, list: seq<SnapshotImpl>, i: nat, j: nat)
    requires i < |list| && j <= |list|
    ensures |Removed(list, i)| == |list| - 1
    ensures Ring(head, Removed(list, i), j) == if j <= i then Ring(head, list, j) else Ring(head, list, j + 1)
  {
  }

  ghost function Removed(list: seq<SnapshotImpl>, i: nat): seq<SnapshotImpl>
    requires i < |list|
  {
    list[..i] + list[i + 1..]
  }

  class SnapshotList {
    const head: SnapshotImpl
    ghost var list: seq<SnapshotImpl>   // oldest first, without the head

    ghost predicate Linked(l: seq<SnapshotImpl>)
      reads head, l
    {
      && (forall i :: 0 <= i <= |l| ==> Ring(head, l, i).next == Ring(head, l, i + 1))
      && (forall i :: 0 <= i <= |l| ==> Ring(head, l, i + 1).prev == Ring(head, l, i))
    }

    ghost predicate Valid()
      reads this, head, list
    {
      head !in list && Distinct(list) && NonDecreasing(list) && Linked(list)
    }

    constructor ()
      ensures Valid() && list == [] && fresh(head)
    {
      head := new SnapshotImpl(0);
      list := [];
      new;
      head.prev, head.next := head, head;
    }

    method Empty() returns (b: bool)
      requires Valid()
      ensures b <==> list == []
    {
      assert Ring(head, list, 0).next == Ring(head, list, 1);
      b := head.next == head;
    }

    method Oldest() returns (s: SnapshotImpl)
      requires Valid() && list != []
      ensures s == list[0]
      ensures forall t :: t in list ==> s.sequenceNumber <= t.sequenceNumber
    {
      assert Ring(head, list, 0).next == Ring(head, list, 1);
      s := head.next;
    }

    method Newest() returns (s: SnapshotImpl)
      requires Valid() && list != []
      ensures s == list[|list| - 1]
      ensures forall t :: t in list ==> t.sequenceNumber <= s.sequenceNumber
    {
      assert Ring(head, list, |list| + 1).prev == Ring(head, list, |list|);
      s := head.prev;
    }

    method New(sequence: nat) returns (s: SnapshotImpl)
      requires Valid() && (list != [] ==> list[|list| - 1].sequenceNumber <= sequence)
      modifies this, head, list
      ensures Valid() && fresh(s) && s.sequenceNumber == sequence
      ensures list == old(list) + [s]
    {
      ghost var n, before := |list|, list;
      RingDistinct(head, list);
      assert Ring(head, list, n + 1).prev == Ring(head, list, n);
      s := new SnapshotImpl(sequence);
      s.next := head;
      s.prev := head.prev;
      s.prev.next := s;
      s.next.prev := s;
      list := list + [s];
      assert forall i :: 0 <= i <= n ==> Ring(head, list, i) == Ring(head, before, i);
      forall i | 0 <= i <= n + 1 ensures Ring(head, list, i).next == Ring(head, list, i + 1) {
        assert i < n ==> old(Ring(head, list, i).next == Ring(head, list, i + 1));
      }
      forall i | 0 <= i <= n + 1 ensures Ring(head, list, i + 1).prev == Ring(head, list, i) {
        assert i < n ==> old(Ring(head, list, i + 1).prev == Ring(head, list, i));
      }
    }

    method Delete(s: SnapshotImpl, ghost i: nat)
      requires Valid() && i < |list| && list[i] == s
      modifies this, head, list
      ensures Valid() && list == Removed(old(list), i)
    {
      ghost var before := list;
      RingDistinct(head, list);
      assert Ring(head, list, i + 1) == s;
      assert s.next == Ring(head, list, i + 2) && s.prev == Ring(head, list, i);
      s.prev.next := s.next;
      s.next.prev := s.prev;
      list := Removed(list, i);
      forall j | 0 <= j < |before| ensures Ring(head, list, j).next == Ring(head, list, j + 1) {
        RingRemoved(head, before, i, j);
        RingRemoved(head, before, i, j + 1);
        assert old(Ring(head, list, j).next == Ring(head, list, j + 1));
        assert old(Ring(head, list, j + 1).next == Ring(head, list, j + 2));
      }
      forall j | 0 <= j < |before| ensures Ring(head, list, j + 1).prev == Ring(head, list, j) {
        RingRemoved(head, before, i, j);
        RingRemoved(head, before, i, j + 1);
        assert old(Ring(head, list, j + 1).prev == Ring(head, list, j));
        assert old(Ring(head, list, j + 2).prev == Ring(head, list, j + 1));
      }
    }
  }
}
