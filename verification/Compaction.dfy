/**
  The compaction loop (DBImpl::DoCompactionWork, db/db_impl.cc:878-1036): merge sorted
  inputs, drop entries no reader can need, cut the rest into output tables.

  `Kept` follows the loop's running state. `Obsolete` says independently which entries may
  go and `KeptExactlyUseful` equates the two. `ReadsPreservedExactly` says when readers notice
  nothing; the input choice of the version set does not always see to that.
 */
module Compaction {
  import opened Format

  /** current_user_key, has_current_user_key and last_sequence_for_key. */
  datatype DropState = DropState(hasKey: bool, currentKey: UserKey, lastSeq: nat)

  const INIT := DropState(false, 0.0, MAX_SEQUENCE)

  /** One turn of the loop body at db_impl.cc:929-963: the new state, and whether to drop. */
  function DropStep(st: DropState, e: Entry, ss: nat, isBase: UserKey -> bool): (DropState, bool) {
    if !Parses(e) then
      (INIT.(currentKey := st.currentKey), false)
    else
      var last := if !st.hasKey || e.key != st.currentKey then MAX_SEQUENCE else st.lastSeq;
      var drop := last <= ss || (e.kind.Deletion? && e.sn <= ss && isBase(e.key));
      (DropState(true, e.key, e.sn), drop)
  }

  function Kept(es: seq<Entry>, st: DropState, ss: nat, isBase: UserKey -> bool): seq<Entry> {
    if es == [] then
      []
    else
      var (st', drop) := DropStep(st, es[0], ss, isBase);
      (if drop then [] else [es[0]]) + Kept(es[1..], st', ss, isBase)
  }

  lemma KeptCons(e: Entry, es: seq<Entry>, st: DropState, ss: nat, isBase: UserKey -> bool)
    ensures var (st', drop) := DropStep(st, e, ss, isBase);
      Kept([e] + es, st, ss, isBase) == (if drop then [] else [e]) + Kept(es, st', ss, isBase)
  {
    assert ([e] + es)[1..] == es;
  }

  lemma KeptNil(st: DropState, ss: nat, isBase: UserKey -> bool)
    ensures Kept([], st, ss, isBase) == []
  {
  }

  /** A version of the same user key that every protected snapshot prefers to `e`. */
  ghost predicate Hidden(es: set<Entry>, e: Entry, ss: nat) {
    exists f :: f in es && f.key == e.key && e.sn < f.sn <= ss
  }

  /** What may be dropped: hidden versions, and old deletions with nothing underneath. */
  ghost predicate Obsolete(es: set<Entry>, e: Entry, ss: nat, isBase: UserKey -> bool) {
    Hidden(es, e, ss) || (e.kind.Deletion? && e.sn <= ss && isBase(e.key))
  }

  /** The inputs a compaction is started on. */
  ghost predicate GoodInput(es: seq<Entry>, ss: nat) {
    Sorted(es) && AllParse(es) && NoClash(Elements(es)) && ss < MAX_SEQUENCE
  }

  function StateAfter(es: seq<Entry>): DropState {
    if es == [] then INIT else DropState(true, es[|es| - 1].key, es[|es| - 1].sn)
  }

  /** Some newer version is hidden behind the smallest snapshot exactly if the next newer one is. */
  lemma HiddenByPredecessor(es: seq<Entry>, i: nat, ss: nat)
    requires GoodInput(es, ss) && i < |es|
    ensures Hidden(Elements(es), es[i], ss) <==> i > 0 && es[i - 1].key == es[i].key && es[i - 1].sn <= ss
  {
    var e := es[i];
    if i > 0 && es[i - 1].key == e.key && es[i - 1].sn <= ss {
      assert es[i - 1] in Elements(es) && Before(es[i - 1], e);
    }
    if Hidden(Elements(es), e, ss) {
      var f :| f in Elements(es) && f.key == e.key && e.sn < f.sn <= ss;
      var j :| 0 <= j < |es| && es[j] == f;
      assert j > i ==> Before(e, f);
      assert j < i - 1 ==> Before(f, es[i - 1]) && Before(es[i - 1], e);
    }
  }

  /** So the single remembered sequence number is enough. */
  lemma DropsObsolete(es: seq<Entry>, i: nat, ss: nat, isBase: UserKey -> bool)
    requires GoodInput(es, ss) && i < |es|
    ensures DropStep(StateAfter(es[..i]), es[i], ss, isBase).0 == StateAfter(es[..i + 1])
    ensures DropStep(StateAfter(es[..i]), es[i], ss, isBase).1 <==> Obsolete(Elements(es), es[i], ss, isBase)
  {
    HiddenByPredecessor(es, i, ss);
    hide Hidden, Sorted, NoClash;
  }

  lemma {:induction false} KeptSuffix(es: seq<Entry>, i: nat, ss: nat, isBase: UserKey -> bool)
    requires GoodInput(es, ss) && i <= |es|
    ensures var kept := Kept(es[i..], StateAfter(es[..i]), ss, isBase);
      && Sorted(kept)
      && forall e :: e in kept <==> e in es[i..] && !Obsolete(Elements(es), e, ss, isBase)
    decreases |es| - i
  {
    if i < |es| {
      DropsObsolete(es, i, ss, isBase);
      KeptSuffix(es, i + 1, ss, isBase);
      assert es[i..][0] == es[i] && es[i..][1..] == es[i + 1..];
      forall e | e in es[i + 1..] ensures Before(es[i], e) {
        var j :| i + 1 <= j < |es| && es[j] == e;
      }
    }
  }

  /** The loop keeps exactly the entries that are not obsolete, in order. */
  lemma KeptExactlyUseful(es: seq<Entry>, ss: nat, isBase: UserKey -> bool)
    requires GoodInput(es, ss)
    ensures Sorted(Kept(es, INIT, ss, isBase))
    ensures forall e :: e in Kept(es, INIT, ss, isBase) <==> e in es && !Obsolete(Elements(es), e, ss, isBase)
  {
    KeptSuffix(es, 0, ss, isBase);
    assert es[0..] == es && es[..0] == [];
  }

  /** A drop that no protected snapshot notices: what is kept is not hidden; what goes is hidden,
      or is an old deletion of a user key with nothing deeper. */
  ghost predicate GoodDrop(es: set<Entry>, kept: set<Entry>, deeper: set<Entry>, ss: nat) {
    && kept <= es && (forall e :: e in es ==> Parses(e))
    && (forall e :: e in kept ==> !Hidden(es, e, ss))
    && (forall e :: e in es && e !in kept ==>
          Hidden(es, e, ss) || (e.kind.Deletion? && e.sn <= ss && forall d :: d in deeper ==> d.key != e.key))
  }

  /** A version that would be read if the dropped deletion `t` were gone: it lies outside the inputs, is
      older, and is a value and the newest of its kind. */
  ghost predicate Covered(others: set<Entry>, t: Entry, v: Entry) {
    && v in others && v.kind.Put? && v.key == t.key && v.sn < t.sn
    && forall w :: w in others && Parses(w) && w.key == t.key && w.sn < t.sn ==> w.sn <= v.sn
  }

  /** A drop that brings a value back: what is dropped is the newest version within the smallest
      snapshot, and a value outside the inputs is under it. */
  ghost predicate BringsBack(others: set<Entry>, es: set<Entry>, kept: set<Entry>, ss: nat) {
    exists t, v :: t in es && t !in kept && t !in others && IsNewest(others + es, t.key, ss, t) && Covered(others, t, v)
  }

  /** Readers from the smallest snapshot on cannot tell the store before a good drop from the store after
      it, whatever lies outside the inputs, if and only if the drop brings no value back. */
  lemma GoodDropPreservesReads(others: set<Entry>, es: set<Entry>, kept: set<Entry>, deeper: set<Entry>, ss: nat)
    requires NoClash(others + es) && GoodDrop(es, kept, deeper, ss)
    ensures (forall k, s: nat :: ss <= s ==> Read(others + es, k, s) == Read(others + kept, k, s))
            <==> !BringsBack(others, es, kept, ss)
  {
    if BringsBack(others, es, kept, ss) {
      var t, v :| t in es && t !in kept && t !in others && IsNewest(others + es, t.key, ss, t) && Covered(others, t, v);
      BroughtBackIsRead(others, es, kept, deeper, ss, t, v);
    } else {
      forall k, s: nat | ss <= s ensures Read(others + es, k, s) == Read(others + kept, k, s) {
        DropIsUnseen(others, es, kept, deeper, ss, k, s);
      }
    }
  }

  /** A dropped version that was the newest is an old deletion, and what is kept of its user key is newer. */
  lemma DroppedNewest(others: set<Entry>, es: set<Entry>, kept: set<Entry>, deeper: set<Entry>, ss: nat, s: nat,
                      t: Entry)
    requires NoClash(others + es) && GoodDrop(es, kept, deeper, ss) && ss <= s
    requires t in es && t !in kept && IsNewest(others + es, t.key, s, t)
    ensures t.kind.Deletion? && t.sn <= ss && IsNewest(others + es, t.key, ss, t)
    ensures forall w :: w in kept && w.key == t.key ==> !Visible(w, s)
  {
    forall f | f in es && f.key == t.key ensures !(t.sn < f.sn <= ss) {
      assert f.sn <= s ==> Visible(f, s);
    }
    forall w | w in kept && w.key == t.key ensures !Visible(w, s) {
      assert w in others + es && (w.sn == t.sn ==> w == t);
      assert Visible(w, s) ==> w.sn <= t.sn;
      assert !Hidden(es, w, ss);
    }
  }

  lemma DropIsUnseen(others: set<Entry>, es: set<Entry>, kept: set<Entry>, deeper: set<Entry>, ss: nat, k: UserKey,
                     s: nat)
    requires NoClash(others + es) && GoodDrop(es, kept, deeper, ss) && ss <= s
    requires !BringsBack(others, es, kept, ss)
    ensures Read(others + es, k, s) == Read(others + kept, k, s)
  {
    var before, after := others + es, others + kept;
    assert after <= before;
    if e :| IsNewest(before, k, s, e) {
      ReadIs(before, k, s, e);
      if e in after {
        assert IsNewest(after, k, s, e);
        ReadIs(after, k, s, e);
      } else {
        DroppedNewest(others, es, kept, deeper, ss, s, e);
        hide GoodDrop;
        if v :| IsNewest(after, k, s, v) {
          ReadIs(after, k, s, v);
          assert v in others && (v.sn == e.sn ==> v == e);
          assert v.kind.Put? ==> Covered(others, e, v);
        }
      }
    } else if f :| IsNewest(after, k, s, f) {
      var e := NewestExists(before, k, s, f);
      assert false;
    }
  }

  lemma BroughtBackIsRead(others: set<Entry>, es: set<Entry>, kept: set<Entry>, deeper: set<Entry>, ss: nat, t: Entry,
                          v: Entry)
    requires NoClash(others + es) && GoodDrop(es, kept, deeper, ss)
    requires t in es && t !in kept && t !in others && IsNewest(others + es, t.key, ss, t) && Covered(others, t, v)
    ensures Read(others + es, t.key, ss) == None && Read(others + kept, t.key, ss) == Some(v.value)
  {
    DroppedNewest(others, es, kept, deeper, ss, ss, t);
    ReadIs(others + es, t.key, ss, t);
    hide GoodDrop;
    forall w | w in others && w.key == t.key && Visible(w, ss) ensures w.sn <= v.sn {
      assert w in others + es && (w.sn == t.sn ==> w == t);
    }
    assert IsNewest(others + kept, t.key, ss, v);
    assert NoClash(others + kept) by { assert kept <= es; }
    ReadIs(others + kept, t.key, ss, v);
  }

  /** The loop's drop is a good one, when a user key declared to be at its base level has no
      data deeper down. */
  lemma KeptIsGoodDrop(es: seq<Entry>, deeper: set<Entry>, ss: nat, isBase: UserKey -> bool)
    requires GoodInput(es, ss) && forall d :: d in deeper ==> !isBase(d.key)
    ensures GoodDrop(Elements(es), Elements(Kept(es, INIT, ss, isBase)), deeper, ss)
  {
    KeptExactlyUseful(es, ss, isBase);
  }

  // ----- keys that do not parse -----

  /** What the loop drops, of any input: behind a parsable entry of the same user key within the
      smallest snapshot, or an old deletion at the base level. */
  predicate Dropped(es: seq<Entry>, i: nat, ss: nat, isBase: UserKey -> bool)
    requires i < |es|
  {
    && Parses(es[i])
    && ((i > 0 && Parses(es[i - 1]) && es[i - 1].key == es[i].key && es[i - 1].sn <= ss)
        || (es[i].kind.Deletion? && es[i].sn <= ss && isBase(es[i].key)))
  }

  /** The loop remembers the entry before, if that one parsed. */
  predicate Tracks(st: DropState, es: seq<Entry>, i: nat)
    requires i <= |es|
  {
    && st.hasKey == (i > 0 && Parses(es[i - 1]))
    && (st.hasKey ==> st.currentKey == es[i - 1].key && st.lastSeq == es[i - 1].sn)
  }

  lemma {:induction false} KeptFrom(es: seq<Entry>, i: nat, st: DropState, ss: nat, isBase: UserKey -> bool)
    requires Sorted(es) && ss < MAX_SEQUENCE && i <= |es| && Tracks(st, es, i)
    ensures forall e ::
              e in Kept(es[i..], st, ss, isBase)
              <==> exists j :: i <= j < |es| && es[j] == e && !Dropped(es, j, ss, isBase)
    decreases |es| - i
  {
    if i < |es| {
      var (st', drop) := DropStep(st, es[i], ss, isBase);
      assert drop == Dropped(es, i, ss, isBase);
      assert es[i..][0] == es[i] && es[i..][1..] == es[i + 1..];
      KeptFrom(es, i + 1, st', ss, isBase);
      hide Dropped, DropStep, Sorted;
      var kept := Kept(es[i..], st, ss, isBase);
      assert kept == (if drop then [] else [es[i]]) + Kept(es[i + 1..], st', ss, isBase);
      forall e ensures e in kept <==> exists j :: i <= j < |es| && es[j] == e && !Dropped(es, j, ss, isBase) {
        if j :| i <= j < |es| && es[j] == e && !Dropped(es, j, ss, isBase) {
          assert j == i || (i + 1 <= j && e in Kept(es[i + 1..], st', ss, isBase));
        }
      }
    }
  }

  lemma KeptExactly(es: seq<Entry>, ss: nat, isBase: UserKey -> bool)
    requires Sorted(es) && ss < MAX_SEQUENCE
    ensures forall e :: e in Elements(Kept(es, INIT, ss, isBase))
                        <==> exists j :: 0 <= j < |es| && es[j] == e && !Dropped(es, j, ss, isBase)
  {
    KeptFrom(es, 0, INIT, ss, isBase);
    assert es[0..] == es;
  }

  /** Whatever is dropped, the rest stays in order. */
  lemma {:induction false} KeptSorted(es: seq<Entry>, st: DropState, ss: nat, isBase: UserKey -> bool)
    requires Sorted(es)
    ensures Sorted(Kept(es, st, ss, isBase)) && forall e :: e in Kept(es, st, ss, isBase) ==> e in es
  {
    if es != [] {
      KeptSorted(es[1..], DropStep(st, es[0], ss, isBase).0, ss, isBase);
      hide DropStep;
      forall e | e in es[1..] ensures Before(es[0], e) {
        var j :| 1 <= j < |es| && es[j] == e;
      }
    }
  }

  /** A value that the loop keeps whatever came before it: the key in front of it does not parse. */
  predicate Exposed(es: seq<Entry>, v: Entry) {
    exists j :: 0 < j < |es| && es[j] == v && v.kind.Put? && !Parses(es[j - 1])
  }

  /** An older version of the user key of `t` that is not dropped with it. */
  predicate Spared(others: set<Entry>, es: seq<Entry>, t: Entry, v: Entry) {
    v.key == t.key && v.sn < t.sn && (v in others || Exposed(es, v))
  }

  /** A deletion at the base level, the newest version of its user key within the smallest snapshot and
      so dropped, and a value that is the newest of what is spared under it. */
  ghost predicate Uncovers(others: set<Entry>, es: seq<Entry>, ss: nat, isBase: UserKey -> bool, t: Entry, v: Entry) {
    && t in es && t !in others && t.kind.Deletion? && isBase(t.key) && IsNewest(others + Elements(es), t.key, ss, t)
    && v.kind.Put? && Spared(others, es, t, v)
    && forall w :: Spared(others, es, t, w) && Parses(w) ==> w.sn <= v.sn
  }

  /** Between two entries of a user key there are only entries of it. */
  lemma BetweenSameKey(es: seq<Entry>, i: nat, j: nat)
    requires Sorted(es) && i < j < |es| && es[i].key == es[j].key
    ensures es[j - 1].key == es[j].key && es[j].sn <= es[j - 1].sn <= es[i].sn
  {
    assert Before(es[j - 1], es[j]);
    assert i < j - 1 ==> Before(es[i], es[j - 1]);
  }

  /** An entry behind a parsable one of its user key within the smallest snapshot is nobody's newest. */
  lemma DroppedBehind(all: set<Entry>, es: seq<Entry>, ss: nat, isBase: UserKey -> bool, s: nat, i: nat)
    requires Sorted(es) && NoClash(all) && Elements(es) <= all && ss <= s && i < |es|
    requires Dropped(es, i, ss, isBase) && IsNewest(all, es[i].key, s, es[i])
    ensures es[i].kind.Deletion? && es[i].sn <= ss && isBase(es[i].key)
  {
    assert i > 0 ==> Before(es[i - 1], es[i]) && es[i - 1] in Elements(es);
    assert i > 0 && Parses(es[i - 1]) && es[i - 1].sn <= ss ==> Visible(es[i - 1], s);
  }

  /** Below the newest version, and that within the smallest snapshot, the loop keeps of a base-level
      user key just the values behind a key that does not parse. */
  lemma KeptBelow(es: seq<Entry>, ss: nat, isBase: UserKey -> bool, i: nat, j: nat)
    requires Sorted(es) && i < j < |es| && es[i].key == es[j].key && isBase(es[i].key) && es[i].sn <= ss
      && Parses(es[j])
    ensures !Dropped(es, j, ss, isBase) <==> es[j].kind.Put? && !Parses(es[j - 1])
  {
    BetweenSameKey(es, i, j);
  }

  lemma KeptWithin(es: seq<Entry>, ss: nat, isBase: UserKey -> bool)
    requires Sorted(es) && ss < MAX_SEQUENCE
    ensures Elements(Kept(es, INIT, ss, isBase)) <= Elements(es)
  {
    KeptExactly(es, ss, isBase);
    hide Kept, Dropped;
  }

  /** What is kept of a base-level user key below its newest version `t` is exposed, and the other way round. */
  lemma KeptIsExposed(es: seq<Entry>, ss: nat, isBase: UserKey -> bool, t: Entry, v: Entry)
    requires Sorted(es) && NoClash(Elements(es)) && ss < MAX_SEQUENCE
    requires t in es && t.kind.Deletion? && isBase(t.key) && t.sn <= ss && v.key == t.key && v.sn <= t.sn && Parses(v)
    ensures v in Kept(es, INIT, ss, isBase) <==> v.sn < t.sn && Exposed(es, v)
  {
    KeptExactly(es, ss, isBase);
    assert v in Elements(Kept(es, INIT, ss, isBase)) <==> v in Kept(es, INIT, ss, isBase);
    hide Kept, NoClash;
    var i :| 0 <= i < |es| && es[i] == t;
    if j :| 0 <= j < |es| && es[j] == v {
      assert t in Elements(es) && v in Elements(es);
      PlaceOf(es, i, j);
      if i < j {
        KeptBelow(es, ss, isBase, i, j);
      }
      hide Dropped;
      forall m | 0 <= m < |es| && es[m] == v ensures m == j {
        PlaceOf(es, m, j);
      }
    }
  }

  /** In a sorted run without clashes older versions stand behind newer ones. */
  lemma PlaceOf(es: seq<Entry>, i: nat, j: nat)
    requires Sorted(es) && NoClash(Elements(es)) && i < |es| && j < |es| && es[i].key == es[j].key
      && es[j].sn <= es[i].sn
    ensures i <= j && (es[j].sn == es[i].sn ==> i == j)
  {
    assert es[j] in Elements(es) && es[i] in Elements(es);
    assert i < j ==> Before(es[i], es[j]);
  }

  /** When nothing is uncovered no protected read changes. */
  lemma NothingUncovered(others: set<Entry>, es: seq<Entry>, ss: nat, isBase: UserKey -> bool, k: UserKey, s: nat)
    requires Sorted(es) && ss < MAX_SEQUENCE && NoClash(others + Elements(es)) && ss <= s
    requires forall t, v :: !Uncovers(others, es, ss, isBase, t, v)
    ensures Read(others + Elements(es), k, s) == Read(others + Elements(Kept(es, INIT, ss, isBase)), k, s)
  {
    var before, after := others + Elements(es), others + Elements(Kept(es, INIT, ss, isBase));
    KeptExactly(es, ss, isBase);
    hide Dropped, Uncovers, Kept;
    assert after <= before;
    if e :| IsNewest(before, k, s, e) {
      ReadIs(before, k, s, e);
      if e in after {
        assert IsNewest(after, k, s, e);
        ReadIs(after, k, s, e);
      } else {
        var i :| 0 <= i < |es| && es[i] == e;
        DroppedBehind(before, es, ss, isBase, s, i);
        if v :| IsNewest(after, k, s, v) {
          ReadIs(after, k, s, v);
          if v.kind.Put? {
            ReadIsUncovered(others, es, ss, isBase, s, e, v);
            assert false;
          }
        }
      }
    } else if f :| IsNewest(after, k, s, f) {
      var e := NewestExists(before, k, s, f);
      assert false;
    }
  }

  /** The value read once the newest version, a deletion, is dropped was uncovered. */
  lemma ReadIsUncovered(others: set<Entry>, es: seq<Entry>, ss: nat, isBase: UserKey -> bool, s: nat, t: Entry,
                        v: Entry)
    requires Sorted(es) && ss < MAX_SEQUENCE && NoClash(others + Elements(es)) && t.sn <= ss <= s
    requires t in es && t !in others && t.kind.Deletion? && isBase(t.key) && v.kind.Put?
    requires IsNewest(others + Elements(es), t.key, s, t)
    requires IsNewest(others + Elements(Kept(es, INIT, ss, isBase)), t.key, s, v)
    ensures Uncovers(others, es, ss, isBase, t, v)
  {
    assert NoClash(Elements(es));
    KeptWithin(es, ss, isBase);
    KeptIsExposed(es, ss, isBase, t, v);
    hide Kept, Exposed;
    forall w | Spared(others, es, t, w) && Parses(w) ensures w.sn <= v.sn {
      KeptIsExposed(es, ss, isBase, t, w);
    }
  }

  /** And when a value is uncovered, the read at the smallest snapshot itself finds what was deleted. */
  lemma UncoveredIsRead(others: set<Entry>, es: seq<Entry>, ss: nat, isBase: UserKey -> bool, t: Entry, v: Entry)
    requires Sorted(es) && ss < MAX_SEQUENCE && NoClash(others + Elements(es)) && Uncovers(others, es, ss, isBase, t, v)
    ensures Read(others + Elements(es), t.key, ss) == None
    ensures Read(others + Elements(Kept(es, INIT, ss, isBase)), t.key, ss) == Some(v.value)
  {
    var k, before, after := t.key, others + Elements(es), others + Elements(Kept(es, INIT, ss, isBase));
    ReadIs(before, k, ss, t);
    assert NoClash(Elements(es));
    KeptWithin(es, ss, isBase);
    KeptIsExposed(es, ss, isBase, t, v);
    hide Kept, Exposed;
    forall w | w in after && w.key == k && Visible(w, ss) ensures w.sn <= v.sn {
      assert w in before;
      KeptIsExposed(es, ss, isBase, t, w);
      assert w in others && w.sn == t.sn ==> w == t;
      assert Spared(others, es, t, w);
    }
    assert IsNewest(after, k, ss, v);
    ReadIs(after, k, ss, v);
  }

  /** Whatever lies outside the inputs, and whether their keys parse or not: every read from the smallest
      snapshot on is the same before and after the loop if and only if no dropped deletion uncovers a
      value, be it in a table that is no input or behind a key that does not parse. */
  lemma ReadsPreservedExactly(others: set<Entry>, es: seq<Entry>, ss: nat, isBase: UserKey -> bool)
    requires Sorted(es) && ss < MAX_SEQUENCE && NoClash(others + Elements(es))
    ensures (forall k, s: nat :: ss <= s ==>
               Read(others + Elements(es), k, s) == Read(others + Elements(Kept(es, INIT, ss, isBase)), k, s))
            <==> forall t, v :: !Uncovers(others, es, ss, isBase, t, v)
  {
    hide Uncovers, Kept, Read;
    if t, v :| Uncovers(others, es, ss, isBase, t, v) {
      UncoveredIsRead(others, es, ss, isBase, t, v);
    } else {
      forall k, s: nat | ss <= s
        ensures Read(others + Elements(es), k, s) == Read(others + Elements(Kept(es, INIT, ss, isBase)), k, s)
      {
        NothingUncovered(others, es, ss, isBase, k, s);
      }
    }
  }

  /** Compaction preserves meaning wherever an older version outside the inputs is found to be deeper
      down by the loop's question for the base level. */
  lemma CompactionPreservesReads(others: set<Entry>, es: seq<Entry>, ss: nat, isBase: UserKey -> bool, k: UserKey,
                                 s: nat)
    requires GoodInput(es, ss) && ss <= s && NoClash(others + Elements(es))
    requires forall o, e :: o in others && e in es && o.key == e.key && o.sn < e.sn ==> !isBase(e.key)
    ensures Read(others + Elements(es), k, s) == Read(others + Elements(Kept(es, INIT, ss, isBase)), k, s)
  {
    forall t, v ensures !Uncovers(others, es, ss, isBase, t, v) {
      assert !Exposed(es, v);
    }
    hide Uncovers, Kept, Read;
    ReadsPreservedExactly(others, es, ss, isBase);
  }

  const DELETED := Entry(1.0, 5, Deletion, "")
  const UNPARSABLE := Entry(1.0, 4, Unknown(0), "")
  const PRIOR := Entry(1.0, 3, Put, "old")

  lemma KeptAfterUnparsable(isBase: UserKey -> bool)
    requires isBase(1.0)
    ensures Kept([DELETED, UNPARSABLE, PRIOR], INIT, 9, isBase) == [UNPARSABLE, PRIOR]
  {
    hide Kept;
    KeptNil(DropState(true, 1.0, 3), 9, isBase);
    KeptCons(PRIOR, [], DropState(false, 1.0, MAX_SEQUENCE), 9, isBase);
    KeptCons(UNPARSABLE, [PRIOR], DropState(true, 1.0, 5), 9, isBase);
    KeptCons(DELETED, [UNPARSABLE, PRIOR], INIT, 9, isBase);
    assert [DELETED, UNPARSABLE, PRIOR] == [DELETED] + [UNPARSABLE, PRIOR];
    assert [UNPARSABLE, PRIOR] == [UNPARSABLE] + [PRIOR] && [PRIOR] == [PRIOR] + [];
  }

  /** Why the inputs must parse: a key that does not resets the loop, and an entry hidden by a
      dropped deletion comes back. */
  lemma UnparsableKeyUncoversDeleted(isBase: UserKey -> bool)
    requires isBase(1.0)
    ensures var es := [DELETED, UNPARSABLE, PRIOR];
      && Sorted(es) && NoClash(Elements(es))
      && Read(Elements(es), 1.0, 9) == None
      && Read(Elements(Kept(es, INIT, 9, isBase)), 1.0, 9) == Some("old")
  {
    hide Kept;
    KeptAfterUnparsable(isBase);
    assert IsNewest(Elements([DELETED, UNPARSABLE, PRIOR]), 1.0, 9, DELETED);
    ReadIs(Elements([DELETED, UNPARSABLE, PRIOR]), 1.0, 9, DELETED);
    assert IsNewest(Elements([UNPARSABLE, PRIOR]), 1.0, 9, PRIOR);
    ReadIs(Elements([UNPARSABLE, PRIOR]), 1.0, 9, PRIOR);
  }

  /** CompactionState::Output, with the contents of its table file. */
  datatype Output = Output(number: nat, contents: seq<Entry>, smallest: Option<Entry>, largest: Option<Entry>)
  {
    ghost predicate WellFormed() {
      contents != [] && smallest == Some(contents[0]) && largest == Some(contents[|contents| - 1])
    }
  }

  ghost function Concat(outputs: seq<Output>): seq<Entry> {
    if outputs == [] then [] else Concat(outputs[..|outputs| - 1]) + outputs[|outputs| - 1].contents
  }

  ghost predicate AllWellFormed(outputs: seq<Output>) {
    forall i :: 0 <= i < |outputs| ==> outputs[i].WellFormed()
  }

  lemma NoOutputs()
    ensures Concat([]) == [] && AllWellFormed([])
  {
  }

  lemma {:induction false} OutputWithin(outputs: seq<Output>, i: nat)
    requires i < |outputs|
    ensures forall e :: e in outputs[i].contents ==> e in Concat(outputs)
  {
    if i < |outputs| - 1 {
      assert outputs[..|outputs| - 1][i] == outputs[i];
      OutputWithin(outputs[..|outputs| - 1], i);
    }
  }

  /** Cutting a sorted run into non-empty pieces gives tables with disjoint ranges, in order. */
  lemma {:induction false} OutputsAreDisjoint(outputs: seq<Output>, i: nat, j: nat)
    requires AllWellFormed(outputs) && Sorted(Concat(outputs))
    requires i < j < |outputs|
    ensures Before(outputs[i].largest.value, outputs[j].smallest.value)
  {
    var n := |outputs| - 1;
    var init := Concat(outputs[..n]);
    assert Concat(outputs) == init + outputs[n].contents;
    if j < n {
      assert Sorted(init) by {
        forall a, b | 0 <= a < b < |init| ensures Before(init[a], init[b]) {
          assert Concat(outputs)[a] == init[a] && Concat(outputs)[b] == init[b];
        }
      }
      OutputsAreDisjoint(outputs[..n], i, j);
    } else {
      OutputWithin(outputs[..n], i);
      assert outputs[i].largest.value in init;
      var a :| 0 <= a < |init| && init[a] == outputs[i].largest.value;
      assert Concat(outputs)[a] == init[a] && Concat(outputs)[|init|] == outputs[n].contents[0];
    }
  }

  /** Each output ends before the next begins, in the order of internal keys. */
  ghost predicate Ascending(outputs: seq<Output>)
    requires AllWellFormed(outputs)
  {
    forall i, j :: 0 <= i < j < |outputs| ==> Before(outputs[i].largest.value, outputs[j].smallest.value)
  }

  lemma OutputsAscend(outputs: seq<Output>)
    requires AllWellFormed(outputs) && Sorted(Concat(outputs))
    ensures Ascending(outputs)
  {
    hide Concat, Sorted;
    forall i, j | 0 <= i < j < |outputs| ensures Before(outputs[i].largest.value, outputs[j].smallest.value) {
      OutputsAreDisjoint(outputs, i, j);
    }
  }

  /** CompactionState: the outputs so far, and whether a table builder is open on the last. */
  class CompactionState {
    const smallestSnapshot: nat
    var outputs: seq<Output>
    var building: bool

    constructor (smallestSnapshot: nat)
      ensures this.smallestSnapshot == smallestSnapshot
      ensures outputs == [] && !building
    {
      this.smallestSnapshot := smallestSnapshot;
      outputs, building := [], false;
    }

    /** OpenCompactionOutputFile: the output is recorded even when the file cannot be made. */
    method Open(number: nat) returns (ok: bool)
      requires !building
      modifies this
      ensures outputs == old(outputs) + [Output(number, [], None, None)]
      ensures building == ok
    {
      outputs := outputs + [Output(number, [], None, None)];
      ok := *;
      building := ok;
    }

    /** The bookkeeping around builder->Add. */
    method Add(e: Entry)
      requires building && outputs != []
      modifies this`outputs
      ensures var n := |old(outputs)| - 1; var out := old(outputs)[n];
        outputs == old(outputs)[..n] + [Output(out.number, out.contents + [e],
                                               if out.contents == [] then Some(e) else out.smallest, Some(e))]
    {
      var n := |outputs| - 1;
      var out := outputs[n];
      if out.contents == [] {
        out := out.(smallest := Some(e));
      }
      out := out.(largest := Some(e), contents := out.contents + [e]);
      outputs := outputs[..n] + [out];
    }

    /** The part of the loop body that stores a kept entry (db_impl.cc:974-986). */
    method Store(e: Entry) returns (ok: bool)
      requires building ==> outputs != []
      requires AllWellFormed(outputs)
      modifies this
      ensures ok ==> building && AllWellFormed(outputs) && outputs != []
      ensures ok ==> Concat(outputs) == old(Concat(outputs)) + [e]
    {
      ok := true;
      if !building {
        var number: nat := *;
        ok := Open(number);
        if !ok { return; }
        assert outputs[..|outputs| - 1] == old(outputs);
      }
      ghost var n, were := |outputs| - 1, outputs;
      Add(e);
      assert outputs[..n] == were[..n];
    }

    /** FinishCompactionOutputFile: the builder is gone whether or not the table is usable. */
    method Finish() returns (ok: bool)
      requires building
      modifies this`building
      ensures !building
    {
      building := false;
      ok := *;
    }

    /** The loop of DoCompactionWork. Shutdown, file errors, file numbers and the two
        questions that end an output early are answered by the environment. */
    method DoCompactionWork(input: seq<Entry>, isBase: UserKey -> bool) returns (ok: bool)
      requires outputs == [] && !building
      modifies this
      ensures ok ==> Concat(outputs) == Kept(input, INIT, smallestSnapshot, isBase)
      ensures ok ==> AllWellFormed(outputs) && !building
      ensures ok && Sorted(input) ==> Ascending(outputs)
    {
      hide Kept, Concat, AllWellFormed, Sorted, Ascending;
      var st, i := INIT, 0;
      ghost var all := Kept(input, INIT, smallestSnapshot, isBase);
      ok := true;
      assert input[0..] == input;
      NoOutputs();
      while i < |input|
        invariant 0 <= i <= |input| && ok
        invariant building ==> outputs != []
        invariant AllWellFormed(outputs)
        invariant Concat(outputs) + Kept(input[i..], st, smallestSnapshot, isBase) == all
      {
        var shuttingDown: bool := *;
        if shuttingDown { return false; }
        var stopBefore: bool := *;
        if stopBefore && building {
          ok := Finish();
          if !ok { return; }
        }
        var e := input[i];
        var (st', drop) := DropStep(st, e, smallestSnapshot, isBase);
        assert input[i..] == [e] + input[i + 1..];
        KeptCons(e, input[i + 1..], st, smallestSnapshot, isBase);
        if !drop {
          ok := Store(e);
          if !ok { return; }
          var bigEnough: bool := *;
          if bigEnough {
            ok := Finish();
            if !ok { return; }
          }
        }
        st, i := st', i + 1;
      }
      assert input[i..] == [];
      KeptNil(st, smallestSnapshot, isBase);
      var shutDown: bool := *;
      if shutDown { return false; }
      if building {
        ok := Finish();
        if !ok { return; }
      }
      var inputOk: bool := *;
      ok := inputOk;
      if Sorted(input) {
        KeptSorted(input, INIT, smallestSnapshot, isBase);
        assert Concat(outputs) == all;
        OutputsAscend(outputs);
      }
    }
  }
}
