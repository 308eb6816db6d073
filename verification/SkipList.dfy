/**
  The memtable's skip list (db/skiplist.h). One writer inserts while readers search without
  locks, so every store a reader could observe is a step of its own here: `PublishLevel` is
  the writer's, `Advance` the reader's. `Valid` holds between any two steps, also half-way
  through an insertion, and `SearchDuringInserts` runs the two against each other in every
  order.
 */
module SkipList {
  import opened Format

  const MAX_HEIGHT := 12

  class Node {
    const entry: Entry
    const height: nat
    var next: seq<Node?>

    constructor (entry: Entry, height: nat)
      ensures this.entry == entry && this.height == height && |next| == height
      ensures forall i :: 0 <= i < height ==> next[i] == null
    {
      this.entry, this.height := entry, height;
      next := seq(height, i => null);
    }
  }

  ghost predicate NodesSorted(s: seq<Node>) {
    forall i, j :: 0 <= i < j < |s| ==> Before(s[i].entry, s[j].entry)
  }

  /** Level by level the nodes linked there: each level sorted, each within the one below. */
  ghost predicate Shape(levels: seq<seq<Node>>) {
    && |levels| == MAX_HEIGHT
    && (forall l :: 0 <= l < MAX_HEIGHT ==> NodesSorted(levels[l]))
    && (forall l, n :: 0 <= l < MAX_HEIGHT && n in levels[l] ==> l < n.height <= MAX_HEIGHT)
    && (forall l, m, n :: 0 <= l < m < MAX_HEIGHT && n in levels[m] ==> n in levels[l])
  }

  ghost function NodeAt(s: seq<Node>, i: int): Node?
    requires 0 <= i
  {
    if i < |s| then s[i] else null
  }

  /** The place before which `e` belongs in a level: 0 is behind the head. */
  ghost predicate SplitsAt(s: seq<Node>, i: nat, e: Entry) {
    && i <= |s|
    && (forall j :: 0 <= j < i ==> Before(s[j].entry, e))
    && (forall j :: i <= j < |s| ==> !Before(s[j].entry, e))
  }

  /** `n` stands at place `i` of a level: the head at 0, then the nodes. */
  ghost predicate Stands(s: seq<Node>, head: Node, i: int, n: Node) {
    0 <= i <= |s| && n == if i == 0 then head else s[i - 1]
  }

  /** `n` is the first node at or after `e`, null if there is none. */
  ghost predicate FirstFrom(s: seq<Node>, e: Entry, n: Node?) {
    exists i: nat :: SplitsAt(s, i, e) && n == NodeAt(s, i)
  }

  /** A sorted level splits right behind a node before `e` whose successor is not. */
  lemma SplitHere(s: seq<Node>, i: nat, e: Entry)
    requires NodesSorted(s) && i <= |s|
    requires i > 0 ==> Before(s[i - 1].entry, e)
    requires i < |s| ==> !Before(s[i].entry, e)
    ensures SplitsAt(s, i, e)
  {
    forall j | 0 <= j < i ensures Before(s[j].entry, e) {
      assert j < i - 1 ==> Before(s[j].entry, s[i - 1].entry);
    }
    forall j | i <= j < |s| ensures !Before(s[j].entry, e) {
      assert i < j ==> Before(s[i].entry, s[j].entry);
    }
  }

  lemma Distinct(s: seq<Node>)
    requires NodesSorted(s)
    ensures forall i, j :: 0 <= i < j < |s| ==> s[i] != s[j]
  {
    forall i, j | 0 <= i < j < |s| ensures s[i] != s[j] {
      assert Before(s[i].entry, s[j].entry);
    }
  }

  lemma NothingSplits(e: Entry)
    ensures SplitsAt([], 0, e)
  {
  }

  ghost function Inserted(s: seq<Node>, i: nat, x: Node): seq<Node>
    requires i <= |s|
  {
    s[..i] + [x] + s[i..]
  }

  lemma InsertedAt(s: seq<Node>, at: nat, x: Node, i: nat)
    requires at <= |s|
    ensures |Inserted(s, at, x)| == |s| + 1
    ensures NodeAt(Inserted(s, at, x), i) == if i < at then s[i] else if i == at then x else NodeAt(s, i - 1)
  {
  }

  lemma InsertedSorted(s: seq<Node>, i: nat, x: Node)
    requires NodesSorted(s) && SplitsAt(s, i, x.entry)
    requires i < |s| ==> Before(x.entry, s[i].entry)
    ensures NodesSorted(Inserted(s, i, x))
    ensures forall n :: n in Inserted(s, i, x) <==> n in s || n == x
  {
    var t := Inserted(s, i, x);
    forall j | 0 <= j < |t| ensures t[j] == if j < i then s[j] else if j == i then x else s[j - 1] {
    }
    forall j | i < j < |s| ensures Before(x.entry, s[j].entry) {
      assert Before(s[i].entry, s[j].entry);
    }
    forall n | n in s ensures n in t {
      var j :| 0 <= j < |s| && s[j] == n;
      assert t[if j < i then j else j + 1] == n;
    }
    assert t[i] == x;
  }

  /** Linking a node one level up keeps the shape, given it is linked everywhere below. */
  lemma ShapeAfter(levels: seq<seq<Node>>, l: nat, at: nat, x: Node) returns (after: seq<seq<Node>>)
    requires Shape(levels) && l < MAX_HEIGHT && l < x.height <= MAX_HEIGHT
    requires forall k :: 0 <= k < MAX_HEIGHT ==> (x in levels[k] <==> k < l)
    requires SplitsAt(levels[l], at, x.entry) && (at < |levels[l]| ==> Before(x.entry, levels[l][at].entry))
    ensures after == levels[l := Inserted(levels[l], at, x)]
    ensures NodesSorted(levels[l]) && (forall n :: n in levels[l] ==> l < n.height) && Shape(after)
    ensures forall k, n :: 0 <= k < MAX_HEIGHT ==> (n in after[k] <==> n in levels[k] || (k == l && n == x))
  {
    InsertedSorted(levels[l], at, x);
    hide NodesSorted, SplitsAt, Inserted;
    after := levels[l := Inserted(levels[l], at, x)];
  }

  /** The entries are new to the list and to each other. */
  ghost predicate AllApart(s: seq<Node>, es: seq<Entry>) {
    && (forall n, e :: n in s && e in es ==> Before(n.entry, e) || Before(e, n.entry))
    && (forall i, j :: 0 <= i < j < |es| ==> Before(es[i], es[j]) || Before(es[j], es[i]))
  }

  /** The list has become `now`: what it held, and the entries `es`. */
  ghost predicate Gained(before: seq<Node>, now: seq<Node>, es: seq<Entry>) {
    && (forall n :: n in before ==> n in now)
    && (forall n :: n in now ==> n in before || n.entry in es)
    && (forall e :: e in es ==> exists n :: n in now && n.entry == e)
  }

  lemma FirstIsApart(s: seq<Node>, es: seq<Entry>, i: nat)
    requires i < |es| && AllApart(s, es[i..])
    ensures forall n :: n in s ==> Before(n.entry, es[i]) || Before(es[i], n.entry)
  {
    assert es[i..][0] == es[i] && es[i] in es[i..];
  }

  lemma LinkedOneMore(before: seq<Node>, s: seq<Node>, at: nat, x: Node, es: seq<Entry>, i: nat)
    requires at <= |s| && i < |es| && x.entry == es[i] && AllApart(s, es[i..]) && Gained(before, s, es[..i])
    ensures AllApart(Inserted(s, at, x), es[i + 1..]) && Gained(before, Inserted(s, at, x), es[..i + 1])
  {
    var t := Inserted(s, at, x);
    InsertedHas(s, at, x);
    hide Inserted;
    LaterApart(s, x, es, i);
    var was, now := es[..i], es[..i + 1];
    assert now == was + [es[i]];
    forall n | n in t ensures n in before || n.entry in now {
      assert n == x || n.entry in was || n in before;
    }
    forall e | e in now ensures exists n :: n in t && n.entry == e {
      if e in was {
        var n :| n in s && n.entry == e;
        assert n in t;
      } else {
        assert x in t && x.entry == e;
      }
    }
  }

  lemma InsertedHas(s: seq<Node>, at: nat, x: Node)
    requires at <= |s|
    ensures forall n :: n in Inserted(s, at, x) <==> n in s || n == x
  {
    var t := Inserted(s, at, x);
    assert t[at] == x;
    forall n | n in s ensures n in t {
      var j :| 0 <= j < |s| && s[j] == n;
      assert t[if j < at then j else j + 1] == n;
    }
  }

  lemma LaterApart(s: seq<Node>, x: Node, es: seq<Entry>, i: nat)
    requires i < |es| && x.entry == es[i] && AllApart(s, es[i..])
    ensures forall n, e :: (n in s || n == x) && e in es[i + 1..] ==> Before(n.entry, e) || Before(e, n.entry)
    ensures AllApart([], es[i + 1..])
  {
    var rest, later := es[i..], es[i + 1..];
    assert rest == [es[i]] + later;
    forall n, e | (n in s || n == x) && e in later ensures Before(n.entry, e) || Before(e, n.entry) {
      var j :| 0 <= j < |later| && later[j] == e;
      assert rest[0] == es[i] && rest[j + 1] == e && e in rest;
    }
    forall a, b | 0 <= a < b < |later| ensures Before(later[a], later[b]) || Before(later[b], later[a]) {
      assert rest[a + 1] == later[a] && rest[b + 1] == later[b];
    }
  }

  class SkipList {
    const head: Node
    var maxHeight: nat
    ghost var levels: seq<seq<Node>>
    ghost var repr: set<Node>

    /** The links at level `l` run from the head through the nodes of `s`, in order. */
    ghost predicate Chained(s: seq<Node>, l: nat)
      reads head, s
    {
      && l < |head.next| && head.next[l] == NodeAt(s, 0)
      && forall i :: 0 <= i < |s| ==> l < |s[i].next| && s[i].next[l] == NodeAt(s, i + 1)
    }

    ghost predicate Valid()
      reads this, repr
    {
      && head in repr && head.height == MAX_HEIGHT && 1 <= maxHeight <= MAX_HEIGHT
      && |levels| == MAX_HEIGHT && Shape(levels)
      && (forall n :: n in repr ==> |n.next| == n.height)
      && (forall l, n :: 0 <= l < MAX_HEIGHT && n in levels[l] ==> n in repr && n != head)
      && (forall l :: 0 <= l < MAX_HEIGHT ==> Chained(levels[l], l))
      && (forall l :: maxHeight <= l < MAX_HEIGHT ==> levels[l] == [])
    }

    constructor ()
      ensures Valid() && fresh(repr) && levels[0] == []
    {
      head := new Node(Entry(0.0, 0, Put, ""), MAX_HEIGHT);
      maxHeight := 1;
      levels := seq(MAX_HEIGHT, i => []);
      new;
      repr := {head};
    }

    /** A reader looking for `target` holds node `x` at `level`. */
    ghost predicate InSearch(target: Entry, x: Node, level: nat, at: nat)
      requires |levels| == MAX_HEIGHT
      reads this`levels
    {
      level < MAX_HEIGHT && Stands(levels[level], head, at, x) && (at > 0 ==> Before(x.entry, target))
    }

    /** KeyIsAfterNode: null is beyond every key. */
    static predicate KeyIsAfterNode(target: Entry, n: Node?) {
      n != null && Before(n.entry, target)
    }

    /** One turn of FindGreaterOrEqual: one link is read. Only when it is the last, at level 0,
        does the answer depend on it, and then it is right at this very moment. */
    method Advance(target: Entry, x: Node, level: nat, ghost at: nat)
      returns (done: bool, next: Node?, y: Node, below: nat, ghost at': nat)
      requires Valid() && InSearch(target, x, level, at)
      ensures done ==> level == 0 && SplitsAt(levels[0], at, target) && next == NodeAt(levels[0], at)
      ensures !done ==> InSearch(target, y, below, at')
      ensures !done && below != level ==> below == level - 1 && y == x && SplitsAt(levels[level], at, target)
      ensures !done && below == level ==> at' == at + 1
    {
      assert Chained(levels[level], level);
      next, y, below, at', done := x.next[level], x, level, at, false;
      assert next == NodeAt(levels[level], at);
      if KeyIsAfterNode(target, next) {
        y, at' := next, at + 1;
      } else {
        SplitHere(levels[level], at, target);
        if level == 0 {
          done := true;
        } else {
          below := level - 1;
          at' := StandsBelow(x, level, at);
        }
      }
    }

    /** FindGreaterOrEqual with nobody writing; prev[l] is the node behind which `target`
        belongs at level l. */
    method FindGreaterOrEqual(target: Entry) returns (result: Node?, prev: seq<Node>, ghost ats: seq<nat>)
      requires Valid()
      ensures |prev| == |ats| == MAX_HEIGHT
      ensures forall l :: 0 <= l < MAX_HEIGHT ==>
        Stands(levels[l], head, ats[l], prev[l]) && SplitsAt(levels[l], ats[l], target)
      ensures result == NodeAt(levels[0], ats[0])
    {
      hide Shape, NodesSorted, SplitsAt, Chained;
      var x, level: nat, done := head, maxHeight - 1, false;
      ghost var at: nat := 0;
      prev, ats := seq(MAX_HEIGHT, i => head), seq(MAX_HEIGHT, i => 0);
      NothingSplits(target);
      while true
        invariant level < MAX_HEIGHT && InSearch(target, x, level, at)
        invariant |prev| == |ats| == MAX_HEIGHT
        invariant forall l :: level < l < MAX_HEIGHT ==>
          Stands(levels[l], head, ats[l], prev[l]) && SplitsAt(levels[l], ats[l], target)
        decreases level, |levels[level]| - at
      {
        var y, below;
        ghost var at';
        done, result, y, below, at' := Advance(target, x, level, at);
        if done || below != level {
          prev, ats := prev[level := x], ats[level := at];
        }
        if done { return; }
        x, level, at := y, below, at';
      }
    }

    /** `x` is linked at exactly the levels below `l`. */
    ghost predicate Pending(x: Node, l: nat)
      requires |levels| == MAX_HEIGHT
      reads this
    {
      && x != head && l <= x.height <= maxHeight
      && (forall k :: 0 <= k < MAX_HEIGHT ==> (x in levels[k] <==> k < l))
    }

    /** Where the writer is to link `x` at level `l`. */
    ghost predicate Place(x: Node, l: nat, at: nat, prev: Node)
      requires |levels| == MAX_HEIGHT
      reads this`levels
    {
      && l < MAX_HEIGHT && at <= |levels[l]| && Stands(levels[l], head, at, prev)
      && SplitsAt(levels[l], at, x.entry) && (at < |levels[l]| ==> Before(x.entry, levels[l][at].entry))
    }

    /** A chain in which the node at place `at` leads to `x`, and `x` to what was next, is the longer chain. */
    lemma ChainedThrough(x: Node, l: nat, s: seq<Node>, at: nat)
      requires at <= |s| && l < |x.next| && x.next[l] == NodeAt(s, at)
      requires l < |head.next| && head.next[l] == if at == 0 then x else NodeAt(s, 0)
      requires forall i :: 0 <= i < |s| ==>
        l < |s[i].next| && s[i].next[l] == if i + 1 == at then x else NodeAt(s, i + 1)
      ensures Chained(Inserted(s, at, x), l)
    {
      var t := Inserted(s, at, x);
      InsertedAt(s, at, x, 0);
      hide Inserted;
      forall i | 0 <= i < |t| ensures l < |t[i].next| && t[i].next[l] == NodeAt(t, i + 1) {
        InsertedAt(s, at, x, i);
        InsertedAt(s, at, x, i + 1);
        assert t[i] == NodeAt(t, i);
      }
    }

    /** The two stores of one turn of Insert's linking loop: the new node's own link, which
        nobody can see yet, and the release store that publishes it at this level. */
    method Link(x: Node, prev: Node, l: nat, ghost s: seq<Node>, ghost at: nat)
      requires l < |x.next| && l < |prev.next| && x != prev && x != head && x !in s && head !in s
      requires NodesSorted(s) && Stands(s, head, at, prev) && Chained(s, l)
      modifies x`next, prev`next
      ensures |x.next| == old(|x.next|) && |prev.next| == old(|prev.next|)
      ensures forall k :: 0 <= k < |x.next| && k != l ==> x.next[k] == old(x.next[k])
      ensures forall k :: 0 <= k < |prev.next| && k != l ==> prev.next[k] == old(prev.next[k])
      ensures Chained(Inserted(s, at, x), l)
    {
      Distinct(s);
      hide NodesSorted, Inserted;
      assert prev.next[l] == NodeAt(s, at);
      x.next := x.next[l := prev.next[l]];
      prev.next := prev.next[l := x];
      ChainedThrough(x, l, s, at);
    }

    /** The same with every other level in view: none of them notices. */
    method LinkAmongLevels(x: Node, prev: Node, l: nat, ghost at: nat)
      requires l < |x.next| && l < |prev.next| && x != prev && x != head
      requires l < |levels| && x !in levels[l] && head !in levels[l]
      requires NodesSorted(levels[l]) && Stands(levels[l], head, at, prev)
      requires forall k :: 0 <= k < |levels| ==> Chained(levels[k], k)
      modifies x`next, prev`next
      ensures |x.next| == old(|x.next|) && |prev.next| == old(|prev.next|)
      ensures Chained(Inserted(levels[l], at, x), l)
      ensures forall k :: 0 <= k < |levels| && k != l ==> Chained(levels[k], k)
    {
      hide NodesSorted, Inserted;
      assert Chained(levels[l], l);
      Link(x, prev, l, levels[l], at);
      forall k | 0 <= k < |levels| && k != l ensures Chained(levels[k], k) {
        assert old(Chained(levels[k], k));
      }
    }

    /** One turn of Insert's linking loop. */
    method PublishLevel(x: Node, prev: Node, l: nat, ghost at: nat)
      requires Valid() && Pending(x, l) && l < x.height && |x.next| == x.height
      requires Place(x, l, at, prev)
      requires l == 0 || x in repr
      modifies this`levels, this`repr, x`next, prev`next
      ensures Valid() && repr == old(repr) + {x} && |x.next| == x.height
      ensures levels == old(levels)[l := Inserted(old(levels[l]), at, x)]
      ensures Pending(x, l + 1)
    {
      hide Shape, NodesSorted, SplitsAt, Inserted, Chained;
      ghost var s := levels[l];
      ghost var after := ShapeAfter(levels, l, at, x);
      assert prev in repr && x != prev;
      LinkAmongLevels(x, prev, l, at);
      levels := after;
      repr := repr + {x};
    }

    /** prev[] and the writer's own search have found a place at every level not yet linked. */
    ghost predicate Places(x: Node, l: nat, prev: seq<Node>, ats: seq<nat>)
      requires |levels| == MAX_HEIGHT
      reads this`levels
    {
      && |prev| == |ats| == MAX_HEIGHT
      && forall k :: l <= k < x.height && k < MAX_HEIGHT ==> Place(x, k, ats[k], prev[k])
    }

    lemma FoundPlaces(x: Node, prev: seq<Node>, ats: seq<nat>)
      requires Valid() && |prev| == |ats| == MAX_HEIGHT
      requires forall l :: 0 <= l < MAX_HEIGHT ==>
        Stands(levels[l], head, ats[l], prev[l]) && SplitsAt(levels[l], ats[l], x.entry)
      requires forall n :: n in levels[0] ==> Before(n.entry, x.entry) || Before(x.entry, n.entry)
      ensures Places(x, 0, prev, ats)
    {
      forall k | 0 <= k < MAX_HEIGHT && ats[k] < |levels[k]|
        ensures Before(x.entry, levels[k][ats[k]].entry)
      {
        assert levels[k][ats[k]] in levels[k] && levels[k][ats[k]] in levels[0];
      }
    }

    /** The writer's turn: link one more level. Searches in progress stay valid. */
    method WriterStep(x: Node, l: nat, prev: seq<Node>, ghost ats: seq<nat>,
                      ghost target: Entry, ghost y: Node, ghost level: nat, ghost at: nat)
      returns (ghost at': nat)
      requires Valid() && Pending(x, l) && l < x.height && |x.next| == x.height
      requires Places(x, l, prev, ats) && (l == 0 || x in repr)
      requires InSearch(target, y, level, at)
      modifies this`levels, this`repr, x, repr
      ensures Valid() && Pending(x, l + 1) && repr == old(repr) + {x} && |x.next| == x.height
      ensures Places(x, l + 1, prev, ats)
      ensures levels == old(levels)[l := Inserted(old(levels[l]), ats[l], x)]
      ensures InSearch(target, y, level, at')
    {
      hide Shape, NodesSorted, SplitsAt, Chained;
      assert Place(x, l, ats[l], prev[l]) && prev[l] in repr;
      PublishLevel(x, prev[l], l, ats[l]);
      at' := if level == l && at > ats[l] then at + 1 else at;
    }

    /** The writer's turn at the start of an insertion: its own search, and a node nobody can see. */
    method StartInsert(e: Entry, height: nat) returns (x: Node, prev: seq<Node>, ghost ats: seq<nat>)
      requires Valid() && 1 <= height <= MAX_HEIGHT
      requires forall n :: n in levels[0] ==> Before(n.entry, e) || Before(e, n.entry)
      modifies this`maxHeight
      ensures Valid() && fresh(x) && x.entry == e && x.height == height == |x.next|
      ensures Pending(x, 0) && Places(x, 0, prev, ats) && |ats| == MAX_HEIGHT && SplitsAt(levels[0], ats[0], e)
      ensures ats[0] <= |levels[0]|
    {
      var found;
      found, prev, ats := FindGreaterOrEqual(e);
      if height > maxHeight {
        maxHeight := height;
      }
      x := new Node(e, height);
      FoundPlaces(x, prev, ats);
    }

    /** A whole search raced against any number of insertions, one link at a time, in whatever order
        the scheduler picks and from whatever height the reader read. The answer is the first entry
        at or after the target in the bottom list as it is at the reader's last step, with the first
        `linked` of the new entries in it. */
    method SearchDuringInserts(target: Entry, startLevel: nat, entries: seq<Entry>, heights: seq<nat>)
      returns (result: Node?, linked: nat)
      requires Valid() && startLevel < MAX_HEIGHT && |heights| == |entries|
      requires forall h :: h in heights ==> 1 <= h <= MAX_HEIGHT
      requires AllApart(levels[0], entries)
      modifies this`levels, this`repr, this`maxHeight, repr
      ensures Valid() && linked <= |entries| && Gained(old(levels[0]), levels[0], entries[..linked])
      ensures FirstFrom(levels[0], target, result)
    {
      hide Shape, NodesSorted, SplitsAt, Chained, AllApart, Pending, Places;
      var y, level: nat := head, startLevel;
      ghost var at: nat := 0;
      var i, l, inserting := 0, 0, false;
      var x, prev := head, [];
      ghost var ats := [];
      linked := 0;
      assert entries[..0] == [] && entries[0..] == entries && Gained(levels[0], levels[0], []);
      hide Gained;
      while true
        invariant Valid() && 0 <= i <= |entries| && fresh(repr - old(repr)) && old(repr) <= repr
        invariant linked == (if inserting && l > 0 then i + 1 else i) && linked <= |entries|
        invariant Gained(old(levels[0]), levels[0], entries[..linked]) && AllApart(levels[0], entries[linked..])
        invariant inserting ==> i < |entries| && fresh(x) && x.entry == entries[i] && |x.next| == x.height
        invariant inserting && l == 0 ==> |ats| == MAX_HEIGHT && ats[0] <= |levels[0]|
        invariant inserting ==> Pending(x, l) && 0 <= l < x.height && Places(x, l, prev, ats) && (l > 0 ==> x in repr)
        invariant InSearch(target, y, level, at)
        decreases |entries| - i, if inserting then x.height - l else MAX_HEIGHT + 1, level, |levels[level]| - at
      {
        var writerRuns: bool := *;
        if writerRuns && inserting {
          if l == 0 {
            LinkedOneMore(old(levels[0]), levels[0], ats[0], x, entries, i);
            linked := linked + 1;
          }
          at := WriterStep(x, l, prev, ats, target, y, level, at);
          l := l + 1;
          if l == x.height {
            i, inserting := i + 1, false;
          }
        } else if writerRuns && i < |entries| {
          FirstIsApart(levels[0], entries, i);
          assert heights[i] in heights;
          x, prev, ats := StartInsert(entries[i], heights[i]);
          l, inserting := 0, true;
        } else {
          var done, z, below;
          ghost var at';
          done, result, z, below, at' := Advance(target, y, level, at);
          if done { return; }
          y, level, at := z, below, at';
        }
      }
    }

    /** Insert, with the height drawn by RandomHeight. */
    method Insert(e: Entry, height: nat) returns (ghost x: Node, ghost at: nat)
      requires Valid() && 1 <= height <= MAX_HEIGHT
      requires forall n :: n in levels[0] ==> Before(n.entry, e) || Before(e, n.entry)
      modifies this, repr
      ensures Valid() && repr == old(repr) + {x} && fresh(x) && x.entry == e
      ensures SplitsAt(old(levels[0]), at, e) && levels[0] == Inserted(old(levels[0]), at, x)
    {
      var node, prev;
      ghost var ats;
      node, prev, ats := StartInsert(e, height);
      x, at := node, ats[0];
      LinkAll(node, prev, ats);
    }

    /** Insert's linking loop with nobody searching. */
    method LinkAll(x: Node, prev: seq<Node>, ghost ats: seq<nat>)
      requires Valid() && Pending(x, 0) && |x.next| == x.height >= 1 && Places(x, 0, prev, ats)
      modifies this`levels, this`repr, x, repr
      ensures Valid() && repr == old(repr) + {x}
      ensures levels[0] == Inserted(old(levels[0]), ats[0], x)
    {
      hide Shape, NodesSorted, SplitsAt, Chained;
      var i := 0;
      while i < x.height
        invariant Valid() && Pending(x, i) && 0 <= i <= x.height && |x.next| == x.height
        invariant Places(x, i, prev, ats)
        invariant repr == if i > 0 then old(repr) + {x} else old(repr)
        invariant levels[0] == if i == 0 then old(levels[0]) else Inserted(old(levels[0]), ats[0], x)
      {
        ghost var unused := WriterStep(x, i, prev, ats, x.entry, head, 0, 0);
        i := i + 1;
      }
    }

    method Contains(e: Entry) returns (b: bool)
      requires Valid()
      ensures b <==> exists n :: n in levels[0] && !Before(n.entry, e) && !Before(e, n.entry)
    {
      var x, prev;
      ghost var ats;
      x, prev, ats := FindGreaterOrEqual(e);
      b := x != null && !Before(e, x.entry);
      assert x != null ==> x in levels[0];
      forall n | n in levels[0] && !Before(n.entry, e)
        ensures x != null && !Before(x.entry, e) && (n == x || Before(x.entry, n.entry))
      {
        var j :| 0 <= j < |levels[0]| && levels[0][j] == n;
        assert ats[0] <= j;
      }
    }

    /** FindLessThan, the reader's way back: the last node before `e`, or the head. */
    method FindLessThan(e: Entry) returns (x: Node, ghost at: nat)
      requires Valid()
      ensures Stands(levels[0], head, at, x) && SplitsAt(levels[0], at, e)
    {
      hide Shape, NodesSorted, SplitsAt, Chained;
      var level: nat := maxHeight - 1;
      x, at := head, 0;
      while true
        invariant level < MAX_HEIGHT && InSearch(e, x, level, at)
        decreases level, |levels[level]| - at
      {
        var done, next, y, below;
        ghost var at';
        done, next, y, below, at' := Advance(e, x, level, at);
        if done { return; }
        x, level, at := y, below, at';
      }
    }

    function Top(): (level: nat)
      requires Valid()
      reads this, repr
      ensures level < MAX_HEIGHT && |levels| == MAX_HEIGHT
    {
      maxHeight - 1
    }

    lemma LinkLeadsOn(x: Node, level: nat, at: nat)
      requires Valid() && level < MAX_HEIGHT && Stands(levels[level], head, at, x)
      ensures level < |x.next| && x.next[level] == NodeAt(levels[level], at)
    {
      hide Shape, NodesSorted;
      assert Chained(levels[level], level);
    }

    /** FindLast: the last node, or the head of an empty list. */
    method FindLast() returns (x: Node)
      requires Valid()
      ensures Stands(levels[0], head, |levels[0]|, x)
    {
      hide Shape, NodesSorted, Chained, Valid;
      var level: nat := Top();
      ghost var at: nat := 0;
      x := head;
      while true
        invariant level < MAX_HEIGHT && |levels| == MAX_HEIGHT && Stands(levels[level], head, at, x)
        decreases level, |levels[level]| - at
      {
        LinkLeadsOn(x, level, at);
        var next := x.next[level];
        if next != null {
          x, at := next, at + 1;
        } else if level == 0 {
          return;
        } else {
          at := StandsBelow(x, level, at);
          level := level - 1;
        }
      }
    }

    /** A node of one level is a node of the level below. */
    lemma StandsBelow(x: Node, level: nat, at: nat) returns (below: nat)
      requires Valid() && 0 < level < MAX_HEIGHT && Stands(levels[level], head, at, x)
      ensures Stands(levels[level - 1], head, below, x) && (below > 0 <==> at > 0)
    {
      if at > 0 {
        assert x in levels[level - 1];
        var j :| 0 <= j < |levels[level - 1]| && levels[level - 1][j] == x;
        below := j + 1;
      } else {
        below := 0;
      }
    }
  }
}
