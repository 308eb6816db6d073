/**
  Versions (db/version_set.cc): the table files of each level, the search of a user key in them, and
  the level a flushed memtable goes to.

  Tables of a level from 1 on are in order and do not overlap as internal keys; but two of them may share
  a user key, the first ending with a newer version of it and the next beginning with an older one.
  `LevelsOk` is what lookups rely on; `Get` answers like one map of all tables.
 */
module Versions {
  import opened Format
  import opened MemTable

  const NUM_LEVELS: nat := 7
  const MAX_MEM_COMPACT_LEVEL: nat := 2

  /** FileMetaData, with what the table holds; `smallest` and `largest` are its first and last key. */
  datatype TableFile = TableFile(number: nat, contents: seq<Entry>)
  {
    function Smallest(): Entry
      requires contents != []
    {
      contents[0]
    }

    function Largest(): Entry
      requires contents != []
    {
      contents[|contents| - 1]
    }
  }

  /** No table file is empty. */
  type Table = t: TableFile | t.contents != [] witness TableFile(0, [Entry(0.0, 0, Put, "")])

  /** files_: the tables of every level. */
  type Version = v: seq<seq<Table>> | |v| == NUM_LEVELS witness [[], [], [], [], [], [], []]

  ghost function EntriesOf(files: seq<Table>): set<Entry> {
    set f, e | f in files && e in f.contents :: e
  }

  ghost function AllEntries(v: Version): set<Entry> {
    set l, e | 0 <= l < NUM_LEVELS && e in EntriesOf(v[l]) :: e
  }

  /** Of every user key the first set has only newer versions than the second. */
  ghost predicate Newer(above: set<Entry>, below: set<Entry>) {
    forall a, b :: a in above && b in below && a.key == b.key ==> a.sn > b.sn
  }

  ghost predicate TableOk(f: Table) {
    Sorted(f.contents) && AllParse(f.contents) && forall e :: e in f.contents ==> e.sn <= MAX_SEQUENCE
  }

  ghost predicate TablesSorted(files: seq<Table>) {
    forall f :: f in files ==> TableOk(f)
  }

  /** What SaveTo asserts of a level from 1 on. */
  ghost predicate Ordered(files: seq<Table>) {
    forall i, j :: 0 <= i < j < |files| ==> Before(files[i].Largest(), files[j].Smallest())
  }

  /** Tables of level 0 may overlap: those with larger numbers are newer. */
  ghost predicate NumberedByAge(files: seq<Table>) {
    forall f, g :: f in files && g in files && f != g ==>
      f.number != g.number && (f.number > g.number ==> Newer(Elements(f.contents), Elements(g.contents)))
  }

  ghost predicate LevelsOk(v: Version) {
    && (forall l :: 0 <= l < NUM_LEVELS ==> TablesSorted(v[l]))
    && (forall l :: 1 <= l < NUM_LEVELS ==> Ordered(v[l]))
    && NumberedByAge(v[0])
    && (forall l, m :: 0 <= l < m < NUM_LEVELS ==> Newer(EntriesOf(v[l]), EntriesOf(v[m])))
  }

  /** The first key of a sorted table is before none, the last after none. */
  lemma WithinTable(f: Table, e: Entry)
    requires Sorted(f.contents) && e in f.contents
    ensures !Before(e, f.Smallest()) && !Before(f.Largest(), e)
    ensures f.Smallest().key <= e.key <= f.Largest().key
  {
    var i :| 0 <= i < |f.contents| && f.contents[i] == e;
    assert i > 0 ==> Before(f.contents[0], e);
    assert i < |f.contents| - 1 ==> Before(e, f.contents[|f.contents| - 1]);
  }

  /** In an ordered level all keys of a table are before all keys of a later one. */
  lemma OrderedEntries(files: seq<Table>, i: nat, j: nat, a: Entry, b: Entry)
    requires TablesSorted(files) && Ordered(files) && i < j < |files|
    requires a in files[i].contents && b in files[j].contents
    ensures Before(a, b)
  {
    assert files[i] in files && files[j] in files;
    WithinTable(files[i], a);
    WithinTable(files[j], b);
    assert Before(files[i].Largest(), files[j].Smallest());
  }

  // ----- searching -----

  /** The tables before place `i` end before `key`, the others do not. */
  ghost predicate EndsSplitAt(files: seq<Table>, key: Entry, i: nat) {
    && i <= |files|
    && (forall j :: 0 <= j < i ==> Before(files[j].Largest(), key))
    && (forall j :: i <= j < |files| ==> !Before(files[j].Largest(), key))
  }

  lemma LargestAscend(files: seq<Table>, i: nat, j: nat)
    requires TablesSorted(files) && Ordered(files) && i < j < |files|
    ensures Before(files[i].Largest(), files[j].Largest())
  {
    OrderedEntries(files, i, j, files[i].Largest(), files[j].Largest());
  }

  /** FindFile: binary search for the first table that does not end before `key`. */
  method FindFile(files: seq<Table>, key: Entry) returns (right: nat)
    requires TablesSorted(files) && Ordered(files)
    ensures EndsSplitAt(files, key, right)
  {
    var left: nat := 0;
    right := |files|;
    while left < right
      invariant left <= right <= |files|
      invariant forall j :: 0 <= j < left ==> Before(files[j].Largest(), key)
      invariant forall j :: right <= j < |files| ==> !Before(files[j].Largest(), key)
    {
      var mid := (left + right) / 2;
      if Before(files[mid].Largest(), key) {
        forall j | 0 <= j < mid ensures Before(files[j].Largest(), key) {
          LargestAscend(files, j, mid);
        }
        left := mid + 1;
      } else {
        forall j | mid < j < |files| ensures !Before(files[j].Largest(), key) {
          LargestAscend(files, mid, j);
        }
        right := mid;
      }
    }
  }

  /** TableCache::Get and SaveValue: seek in one table, look at the one entry found there. */
  method TableGet(f: Table, k: UserKey, s: nat) returns (r: Lookup)
    requires TableOk(f)
    ensures Answers(Elements(f.contents), k, s, r)
  {
    var i := 0;
    while i < |f.contents| && Before(f.contents[i], SeekKey(k, s))
      invariant i <= |f.contents|
      invariant forall j :: 0 <= j < i ==> Before(f.contents[j], SeekKey(k, s))
    {
      i := i + 1;
    }
    SeekFindsNewest(f.contents, k, s, i);
    if i < |f.contents| && f.contents[i].key == k {
      assert IsNewest(Elements(f.contents), k, s, f.contents[i]);
      r := if f.contents[i].kind.Put? then Found(f.contents[i].value) else Deleted;
    } else {
      r := Absent;
    }
  }

  /** The range of user keys of `f` contains `k`. */
  predicate Covers(f: Table, k: UserKey) {
    f.Smallest().key <= k <= f.Largest().key
  }

  /** std::sort by NewestFirst, on what is to be searched of level 0. */
  function NewestFirst(files: seq<Table>): (sorted: seq<Table>)
    ensures forall f :: f in sorted <==> f in files
  {
    if files == [] then [] else Ranked(NewestFirst(files[1..]), files[0])
  }

  function Ranked(files: seq<Table>, f: Table): (more: seq<Table>)
    ensures forall g :: g in more <==> g in files || g == f
  {
    if files == [] || f.number > files[0].number then [f] + files else [files[0]] + Ranked(files[1..], f)
  }

  ghost predicate Descending(files: seq<Table>) {
    forall i, j :: 0 <= i < j < |files| ==> files[i].number >= files[j].number
  }

  lemma {:induction false} RankedDescends(files: seq<Table>, f: Table)
    requires Descending(files)
    ensures Descending(Ranked(files, f))
  {
    if files != [] && f.number <= files[0].number {
      RankedDescends(files[1..], f);
      var rest := Ranked(files[1..], f);
      forall j | 0 <= j < |rest| ensures files[0].number >= rest[j].number {
        assert rest[j] in rest;
      }
    }
  }

  lemma {:induction false} NewestFirstDescends(files: seq<Table>)
    ensures Descending(NewestFirst(files))
  {
    if files != [] {
      NewestFirstDescends(files[1..]);
      RankedDescends(NewestFirst(files[1..]), files[0]);
    }
  }

  /** The tables of level 0 whose range contains the user key. */
  function Covering(files: seq<Table>, k: UserKey): (some: seq<Table>)
    ensures forall f :: f in some <==> f in files && Covers(f, k)
  {
    if files == [] then [] else (if Covers(files[0], k) then [files[0]] else []) + Covering(files[1..], k)
  }

  /** No table of the list has a version of `k` that is visible at `s`. */
  ghost predicate NoneVisible(files: seq<Table>, k: UserKey, s: nat) {
    NothingVisible(EntriesOf(files), k, s)
  }

  /** Level 0, newest table first, up to the first that has something to say. */
  method GetLevelZero(files: seq<Table>, k: UserKey, s: nat) returns (r: Lookup)
    requires TablesSorted(files) && NumberedByAge(files)
    ensures Answers(EntriesOf(files), k, s, r)
  {
    var tmp := NewestFirst(Covering(files, k));
    NewestFirstDescends(Covering(files, k));
    var i := 0;
    while i < |tmp|
      invariant i <= |tmp|
      invariant NoneVisible(tmp[..i], k, s)
    {
      assert tmp[i] in tmp;
      r := TableGet(tmp[i], k, s);
      if !r.Absent? {
        NewestInLevelZero(files, tmp, i, k, s, r);
        return;
      }
      NoneVisibleAppend(tmp, i, k, s);
      i := i + 1;
    }
    assert tmp[..i] == tmp;
    NotCoveredNotVisible(files, tmp, k, s);
    r := Absent;
  }

  lemma NoneVisibleAppend(files: seq<Table>, i: nat, k: UserKey, s: nat)
    requires i < |files| && NoneVisible(files[..i], k, s) && NothingVisible(Elements(files[i].contents), k, s)
    ensures NoneVisible(files[..i + 1], k, s)
  {
    forall e | e in EntriesOf(files[..i + 1]) && e.key == k ensures !Visible(e, s) {
      var f :| f in files[..i + 1] && e in f.contents;
      if f in files[..i] {
        assert e in EntriesOf(files[..i]);
      } else {
        assert f == files[i] && e in Elements(f.contents);
      }
    }
  }

  lemma NotCoveredNotVisible(files: seq<Table>, tmp: seq<Table>, k: UserKey, s: nat)
    requires TablesSorted(files) && NoneVisible(tmp, k, s) && forall f :: f in files && Covers(f, k) ==> f in tmp
    ensures NoneVisible(files, k, s)
  {
    forall e | e in EntriesOf(files) && e.key == k ensures !Visible(e, s) {
      var f :| f in files && e in f.contents;
      WithinTable(f, e);
      assert e in EntriesOf(tmp);
    }
  }

  lemma InFirst(files: seq<Table>, i: nat, j: nat, x: Entry)
    requires j < i <= |files| && x in files[j].contents
    ensures x in EntriesOf(files[..i])
  {
    assert files[j] in files[..i];
  }

  lemma NewestInLevelZero(files: seq<Table>, tmp: seq<Table>, i: nat, k: UserKey, s: nat, r: Lookup)
    requires TablesSorted(files) && NumberedByAge(files) && Descending(tmp) && i < |tmp|
    requires forall f :: f in tmp <==> f in files && Covers(f, k)
    requires NoneVisible(tmp[..i], k, s) && !r.Absent? && Answers(Elements(tmp[i].contents), k, s, r)
    ensures Answers(EntriesOf(files), k, s, r)
  {
    var f := tmp[i];
    var e :| IsNewest(Elements(f.contents), k, s, e) && r == if e.kind.Put? then Found(e.value) else Deleted;
    assert f in tmp && e in f.contents;
    forall x | x in EntriesOf(files) && x.key == k && Visible(x, s) ensures x.sn <= e.sn {
      var g :| g in files && x in g.contents;
      WithinTable(g, x);
      assert g in tmp;
      var j: nat :| j < |tmp| && tmp[j] == g;
      if j < i {
        InFirst(tmp, i, j, x);
        assert false;
      } else if g != f {
        assert f.number > g.number && x in Elements(g.contents);
      }
    }
    assert IsNewest(EntriesOf(files), k, s, e);
  }

  /** From level 1 on one table is enough. */
  method GetLevel(files: seq<Table>, k: UserKey, s: nat) returns (r: Lookup)
    requires TablesSorted(files) && Ordered(files)
    ensures Answers(EntriesOf(files), k, s, r)
  {
    var index := FindFile(files, SeekKey(k, s));
    if index >= |files| {
      OnlyThisTable(files, k, s, index);
      r := Absent;
    } else if k < files[index].Smallest().key {
      OnlyThisTable(files, k, s, index);
      forall e | e in files[index].contents ensures e.key != k {
        WithinTable(files[index], e);
      }
      r := Absent;
    } else {
      r := TableGet(files[index], k, s);
      OnlyThisTable(files, k, s, index);
      NewestInTable(files, k, s, index, r);
    }
  }

  /** Tables that end before the lookup key hold nothing visible; behind the first that does not, there
      are only older versions, and none at all unless that one has one. */
  lemma OnlyThisTable(files: seq<Table>, k: UserKey, s: nat, index: nat)
    requires TablesSorted(files) && Ordered(files) && EndsSplitAt(files, SeekKey(k, s), index)
    ensures forall x :: x in EntriesOf(files) && x.key == k && Visible(x, s) ==>
      index < |files| && (x in files[index].contents
        || exists e :: e in files[index].contents && e.key == k && Visible(e, s) && e.sn >= x.sn)
  {
    forall x | x in EntriesOf(files) && x.key == k && Visible(x, s)
      ensures index < |files| && (x in files[index].contents
        || exists e :: e in files[index].contents && e.key == k && Visible(e, s) && e.sn >= x.sn)
    {
      var f :| f in files && x in f.contents;
      var j :| 0 <= j < |files| && files[j] == f;
      WithinTable(f, x);
      if j > index {
        var last := files[index].Largest();
        OrderedEntries(files, index, j, last, x);
        assert files[index] in files && last in files[index].contents && Parses(last);
        assert last.key == k && Visible(last, s) && last.sn >= x.sn;
      }
    }
  }

  lemma NewestInTable(files: seq<Table>, k: UserKey, s: nat, index: nat, r: Lookup)
    requires index < |files| && Answers(Elements(files[index].contents), k, s, r)
    requires forall x :: x in EntriesOf(files) && x.key == k && Visible(x, s) ==>
      x in files[index].contents
      || exists e :: e in files[index].contents && e.key == k && Visible(e, s) && e.sn >= x.sn
    ensures Answers(EntriesOf(files), k, s, r)
  {
    var es := Elements(files[index].contents);
    forall e | e in es ensures e in EntriesOf(files) {
      assert files[index] in files;
    }
    if r.Absent? {
      forall x | x in EntriesOf(files) && x.key == k ensures !Visible(x, s) {
        assert x in files[index].contents ==> x in es;
        assert forall e :: e in files[index].contents ==> e in es;
      }
    } else {
      var e :| IsNewest(es, k, s, e) && r == if e.kind.Put? then Found(e.value) else Deleted;
      forall x | x in EntriesOf(files) && x.key == k && Visible(x, s) ensures x.sn <= e.sn {
        assert forall y :: y in files[index].contents ==> y in es;
      }
      assert IsNewest(EntriesOf(files), k, s, e);
    }
  }

  /** What the levels before `l` hold. */
  ghost function EntriesBefore(v: Version, l: nat): set<Entry>
    requires l <= NUM_LEVELS
  {
    set m, e | 0 <= m < l && e in EntriesOf(v[m]) :: e
  }

  /** Version::Get: level by level, down to the first that has something to say. It answers like one map
      of all tables. */
  method Get(v: Version, k: UserKey, s: nat) returns (r: Lookup)
    requires LevelsOk(v)
    ensures Answers(AllEntries(v), k, s, r)
  {
    hide TablesSorted, Ordered, NumberedByAge, EntriesOf, Newer, Answers, NothingVisible;
    r := GetLevelZero(v[0], k, s);
    var level := 1;
    FirstLevel(v, k, s, r);
    while level < NUM_LEVELS && r.Absent?
      invariant 1 <= level <= NUM_LEVELS
      invariant Answers(EntriesBefore(v, level), k, s, r)
      invariant !r.Absent? ==> Answers(AllEntries(v), k, s, r)
    {
      r := GetLevel(v[level], k, s);
      OneMoreLevel(v, level, k, s, r);
      level := level + 1;
    }
    if r.Absent? {
      assert EntriesBefore(v, level) == AllEntries(v);
    }
  }

  lemma FirstLevel(v: Version, k: UserKey, s: nat, r: Lookup)
    requires LevelsOk(v) && Answers(EntriesOf(v[0]), k, s, r)
    ensures Answers(EntriesBefore(v, 1), k, s, r) && (!r.Absent? ==> Answers(AllEntries(v), k, s, r))
  {
    hide TablesSorted, Ordered, NumberedByAge, EntriesOf, Answers;
    assert EntriesBefore(v, 0) == {};
    assert Answers(EntriesBefore(v, 0), k, s, Absent) by { NothingThere(k, s); }
    OneMoreLevel(v, 0, k, s, r);
  }

  lemma NothingThere(k: UserKey, s: nat)
    ensures Answers({}, k, s, Absent)
  {
  }

  lemma InLevelsBefore(v: Version, l: nat, m: nat, x: Entry)
    requires m < l <= NUM_LEVELS && x in EntriesOf(v[m])
    ensures x in EntriesBefore(v, l)
  {
  }

  /** A level below which there is nothing newer answers for all. */
  lemma OneMoreLevel(v: Version, l: nat, k: UserKey, s: nat, r: Lookup)
    requires LevelsOk(v) && l < NUM_LEVELS
    requires Answers(EntriesBefore(v, l), k, s, Absent) && Answers(EntriesOf(v[l]), k, s, r)
    ensures Answers(EntriesBefore(v, l + 1), k, s, r) && (!r.Absent? ==> Answers(AllEntries(v), k, s, r))
  {
    hide TablesSorted, Ordered, NumberedByAge, EntriesOf;
    assert EntriesBefore(v, l + 1) == EntriesBefore(v, l) + EntriesOf(v[l]);
    if !r.Absent? {
      var e :| IsNewest(EntriesOf(v[l]), k, s, e) && r == if e.kind.Put? then Found(e.value) else Deleted;
      forall x | x in AllEntries(v) && x.key == k && Visible(x, s) ensures x.sn <= e.sn {
        var m: nat :| m < NUM_LEVELS && x in EntriesOf(v[m]);
        if m < l {
          InLevelsBefore(v, l, m, x);
          assert false;
        } else if m > l {
          assert Newer(EntriesOf(v[l]), EntriesOf(v[m]));
        }
      }
      assert IsNewest(AllEntries(v), k, s, e);
      assert EntriesBefore(v, l + 1) <= AllEntries(v);
      assert IsNewest(EntriesBefore(v, l + 1), k, s, e);
    }
  }

  // ----- where a flushed memtable goes -----

  /** The range of user keys of `f` and that from `lo` to `hi` have a key in common; None is unbounded. */
  predicate Overlaps(f: Table, lo: Option<UserKey>, hi: Option<UserKey>) {
    (lo.Some? ==> lo.value <= f.Largest().key) && (hi.Some? ==> f.Smallest().key <= hi.value)
  }

  /** SomeFileOverlapsRange: binary search where the tables are in order, all of them otherwise. */
  method SomeFileOverlapsRange(disjointSorted: bool, files: seq<Table>, lo: Option<UserKey>, hi: Option<UserKey>)
    returns (some: bool)
    requires TablesSorted(files) && (disjointSorted ==> Ordered(files))
    ensures some <==> exists f :: f in files && Overlaps(f, lo, hi)
  {
    if !disjointSorted {
      var i := 0;
      while i < |files|
        invariant i <= |files| && forall j :: 0 <= j < i ==> !Overlaps(files[j], lo, hi)
      {
        if Overlaps(files[i], lo, hi) {
          return true;
        }
        i := i + 1;
      }
      return false;
    }
    var index := 0;
    if lo.Some? {
      index := FindFile(files, SeekKey(lo.value, MAX_SEQUENCE));
    }
    FirstEndingFrom(files, lo, index);
    if index >= |files| {
      return false;
    }
    some := hi.Some? ==> files[index].Smallest().key <= hi.value;
    assert files[index] in files;
    forall f | f in files && Overlaps(f, lo, hi) ensures some {
      var j :| 0 <= j < |files| && files[j] == f;
      if index < j {
        OrderedEntries(files, index, j, files[index].Smallest(), f.Smallest());
      }
    }
  }

  /** Searching for the earliest internal key of `lo` is searching for the first table that ends at it or
      behind it. */
  lemma FirstEndingFrom(files: seq<Table>, lo: Option<UserKey>, index: nat)
    requires TablesSorted(files)
    requires if lo.Some? then EndsSplitAt(files, SeekKey(lo.value, MAX_SEQUENCE), index) else index == 0
    ensures forall j :: 0 <= j < |files| && lo.Some? ==> (lo.value <= files[j].Largest().key <==> index <= j)
  {
    forall j | 0 <= j < |files| && lo.Some? ensures lo.value <= files[j].Largest().key <==> index <= j {
      assert files[j] in files && files[j].Largest() in files[j].contents;
    }
  }

  ghost predicate NoneOverlaps(files: seq<Table>, lo: UserKey, hi: UserKey) {
    forall f :: f in files ==> !Overlaps(f, Some(lo), Some(hi))
  }

  /** PickLevelForMemTableOutput: down to level 2 as long as nothing there, or above, overlaps; `heavy` says of a
      level that too many of its bytes overlap. */
  method PickLevelForMemTableOutput(v: Version, lo: UserKey, hi: UserKey, heavy: nat -> bool) returns (level: nat)
    requires LevelsOk(v)
    ensures level <= 2
    ensures level > 0 ==> forall l :: 0 <= l <= level ==> NoneOverlaps(v[l], lo, hi)
    ensures forall l: nat :: 2 <= l < level + 2 ==> !heavy(l)
    // and it does not stop earlier
    ensures level < 2 ==>
      || (level == 0 && !NoneOverlaps(v[0], lo, hi))
      || !NoneOverlaps(v[level + 1], lo, hi)
      || heavy(level + 2)
  {
    hide TablesSorted, Ordered, NumberedByAge, Newer, Overlaps;
    level := 0;
    var overlaps := SomeFileOverlapsRange(false, v[0], Some(lo), Some(hi));
    if overlaps { return; }
    while level < MAX_MEM_COMPACT_LEVEL
      invariant level <= MAX_MEM_COMPACT_LEVEL
      invariant forall l :: 0 <= l <= level ==> NoneOverlaps(v[l], lo, hi)
      invariant forall l: nat :: 2 <= l < level + 2 ==> !heavy(l)
    {
      overlaps := SomeFileOverlapsRange(true, v[level + 1], Some(lo), Some(hi));
      if overlaps { break; }
      if heavy(level + 2) { break; }
      level := level + 1;
    }
  }

  // ----- new versions -----

  /** VersionSet::Builder::SaveTo: what is left of a level takes in an added table where its smallest key
      belongs. */
  function Placed(files: seq<Table>, t: Table): (more: seq<Table>)
    ensures |more| == |files| + 1 && forall f :: f in more <==> f in files || f == t
  {
    if files == [] || Before(t.Smallest(), files[0].Smallest()) then [t] + files
    else [files[0]] + Placed(files[1..], t)
  }

  /** Two tables that may stand in one level. */
  predicate Apart(f: Table, g: Table) {
    Before(f.Largest(), g.Smallest()) || Before(g.Largest(), f.Smallest())
  }

  ghost predicate AllApart(files: seq<Table>, t: Table) {
    forall f :: f in files ==> Apart(f, t)
  }

  /** A level stays in order exactly if the added table overlaps none of it. */
  lemma {:induction false} PlacedOrdered(files: seq<Table>, t: Table)
    requires TablesSorted(files) && TableOk(t) && Ordered(files)
    ensures Ordered(Placed(files, t)) <==> AllApart(files, t)
  {
    hide TableOk;
    if files == [] {
    } else if Before(t.Smallest(), files[0].Smallest()) {
      PlacedFirst(files, t);
    } else {
      assert TablesSorted(files[1..]) && Ordered(files[1..]);
      PlacedOrdered(files[1..], t);
      PlacedLater(files, t, Placed(files[1..], t));
    }
  }

  /** A table in front of a level. */
  lemma OrderedCons(first: Table, rest: seq<Table>)
    ensures Ordered([first] + rest)
      <==> Ordered(rest) && forall g :: g in rest ==> Before(first.Largest(), g.Smallest())
  {
    var all := [first] + rest;
    assert forall j :: 0 <= j < |rest| ==> all[j + 1] == rest[j];
    if Ordered(all) {
      forall i, j | 0 <= i < j < |rest| ensures Before(rest[i].Largest(), rest[j].Smallest()) {
        assert Before(all[i + 1].Largest(), all[j + 1].Smallest());
      }
      forall g | g in rest ensures Before(first.Largest(), g.Smallest()) {
        var j :| 0 <= j < |rest| && rest[j] == g;
        assert Before(all[0].Largest(), all[j + 1].Smallest());
      }
    }
  }

  /** Tables of a level do not begin before its first one. */
  lemma FirstBegins(files: seq<Table>, f: Table)
    requires TablesSorted(files) && Ordered(files) && f in files
    ensures !Before(f.Smallest(), files[0].Smallest())
    ensures f != files[0] ==> Before(files[0].Largest(), f.Smallest())
  {
    var j :| 0 <= j < |files| && files[j] == f;
    if j > 0 {
      OrderedEntries(files, 0, j, files[0].Smallest(), f.Smallest());
    }
  }

  /** Of two tables that are apart, the one that begins first ends before the other. */
  lemma BeginsFirst(f: Table, g: Table)
    requires TableOk(f) && TableOk(g) && !Before(g.Smallest(), f.Smallest())
    ensures Apart(f, g) <==> Before(f.Largest(), g.Smallest())
  {
    WithinTable(f, f.Smallest());
    WithinTable(g, g.Smallest());
  }

  lemma PlacedFirst(files: seq<Table>, t: Table)
    requires TablesSorted(files) && TableOk(t) && Ordered(files) && files != []
    requires Before(t.Smallest(), files[0].Smallest())
    ensures Ordered([t] + files) <==> AllApart(files, t)
  {
    OrderedCons(t, files);
    forall f | f in files ensures Apart(f, t) <==> Before(t.Largest(), f.Smallest()) {
      FirstBegins(files, f);
      BeginsFirst(t, f);
    }
    hide TableOk, Ordered;
  }

  lemma PlacedLater(files: seq<Table>, t: Table, rest: seq<Table>)
    requires TablesSorted(files) && TableOk(t) && Ordered(files) && files != []
    requires !Before(t.Smallest(), files[0].Smallest()) && (forall f :: f in rest <==> f in files[1..] || f == t)
    requires Ordered(rest) <==> AllApart(files[1..], t)
    ensures Ordered([files[0]] + rest) <==> AllApart(files, t)
  {
    var first := files[0];
    assert files == [first] + files[1..];
    OrderedCons(first, files[1..]);
    OrderedCons(first, rest);
    BeginsFirst(first, t);
    assert forall f :: f in files <==> f == first || f in files[1..];
    hide TableOk, Ordered, Apart;
  }

  /** A memtable flushed to the level picked for it leaves a version in which lookups find the newest. */
  lemma FlushKeepsLevels(v: Version, t: Table, level: nat)
    requires LevelsOk(v) && TableOk(t) && level < NUM_LEVELS
    requires Newer(Elements(t.contents), AllEntries(v)) && forall f :: f in v[0] ==> f.number < t.number
    requires level > 0 ==> forall l :: 0 <= l <= level ==> NoneOverlaps(v[l], t.Smallest().key, t.Largest().key)
    ensures LevelsOk(v[level := Placed(v[level], t)])
  {
    hide TablesSorted, Ordered, NumberedByAge, EntriesOf, NoneOverlaps, Newer, Placed, TableOk;
    var w, es := v[level := Placed(v[level], t)], Elements(t.contents);
    forall l | 0 <= l < NUM_LEVELS
      ensures EntriesOf(w[l]) == if l == level then EntriesOf(v[l]) + es else EntriesOf(v[l])
      ensures TablesSorted(w[l])
    {
      PlacedEntries(v[level], t);
    }
    if level > 0 {
      PlacedFits(v[level], t);
    } else {
      NewestPart(es, AllEntries(v), EntriesOf(v[0])) by { LevelWithin(v, 0); }
      NewestNumber(v[0], t);
    }
    forall l, m | 0 <= l < m < NUM_LEVELS ensures Newer(EntriesOf(w[l]), EntriesOf(w[m])) {
      if l == level {
        NewestPart(es, AllEntries(v), EntriesOf(v[m])) by { LevelWithin(v, m); }
        BothNewer(EntriesOf(v[l]), es, EntriesOf(v[m]));
      } else if m == level {
        NothingShared(v[l], t);
        NewerThanBoth(EntriesOf(v[l]), EntriesOf(v[m]), es);
      }
    }
  }

  lemma PlacedEntries(files: seq<Table>, t: Table)
    requires TablesSorted(files) && TableOk(t)
    ensures EntriesOf(Placed(files, t)) == EntriesOf(files) + Elements(t.contents) && TablesSorted(Placed(files, t))
  {
    hide TableOk;
  }

  lemma LevelWithin(v: Version, l: int)
    requires 0 <= l < NUM_LEVELS
    ensures EntriesOf(v[l]) <= AllEntries(v)
  {
  }

  lemma NewestPart(es: set<Entry>, all: set<Entry>, some: set<Entry>)
    requires Newer(es, all) && some <= all
    ensures Newer(es, some)
  {
  }

  lemma NewerThanBoth(a: set<Entry>, b: set<Entry>, c: set<Entry>)
    requires Newer(a, b) && Newer(a, c)
    ensures Newer(a, b + c)
  {
  }

  lemma BothNewer(a: set<Entry>, b: set<Entry>, c: set<Entry>)
    requires Newer(a, c) && Newer(b, c)
    ensures Newer(a + b, c)
  {
  }

  /** A table that overlaps none of a level finds room in it. */
  lemma PlacedFits(files: seq<Table>, t: Table)
    requires TablesSorted(files) && Ordered(files) && TableOk(t)
    requires NoneOverlaps(files, t.Smallest().key, t.Largest().key)
    ensures Ordered(Placed(files, t))
  {
    forall f | f in files ensures Apart(f, t) {
      NotOverlapping(f, t);
    }
    PlacedOrdered(files, t);
  }

  lemma NewestNumber(files: seq<Table>, t: Table)
    requires NumberedByAge(files) && Newer(Elements(t.contents), EntriesOf(files))
    requires forall f :: f in files ==> f.number < t.number
    ensures NumberedByAge(Placed(files, t))
  {
    forall f | f in files ensures Newer(Elements(t.contents), Elements(f.contents)) {
      assert Elements(f.contents) <= EntriesOf(files);
    }
    hide Placed;
  }

  lemma NotOverlapping(f: Table, t: Table)
    requires TableOk(f) && TableOk(t) && !Overlaps(f, Some(t.Smallest().key), Some(t.Largest().key))
    ensures Apart(f, t)
    ensures forall e, x :: e in f.contents && x in t.contents ==> e.key != x.key
  {
    forall e, x | e in f.contents && x in t.contents ensures e.key != x.key {
      WithinTable(f, e);
      WithinTable(t, x);
    }
  }

  lemma NothingShared(files: seq<Table>, t: Table)
    requires TablesSorted(files) && TableOk(t) && NoneOverlaps(files, t.Smallest().key, t.Largest().key)
    ensures Newer(EntriesOf(files), Elements(t.contents))
  {
    forall a, b | a in EntriesOf(files) && b in Elements(t.contents) ensures a.key != b.key {
      var f :| f in files && a in f.contents;
      NotOverlapping(f, t);
    }
  }
}
