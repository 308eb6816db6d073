/**
  What the choice of inputs means for the levels and for readers.

  A compaction keeps every protected read if the tables it takes of the next level are closed under the
  boundary rule as well; `SetupOtherInputs` does not see to that, and `SplitKeyBringsBack` shows a deleted
  value that comes back. The levels stay fit for lookups exactly if no memtable was flushed into a gap
  between the inputs.
 */
module LevelTheorems {
  import opened Format
  import M = MemTable
  import opened Versions
  import opened InputChoice
  import C = Compaction

  /** What is left of a level when some of its tables are deleted. */
  function Remaining(files: seq<Table>, gone: seq<Table>): (rest: seq<Table>)
    ensures forall f :: f in rest <==> f in files && f !in gone
  {
    if files == [] then [] else (if files[0] in gone then [] else [files[0]]) + Remaining(files[1..], gone)
  }

  /** What the tables hold that a compaction does not take. */
  ghost function Untaken(v: Version, level: nat, in0: seq<Table>, in1: seq<Table>): set<Entry>
    requires level + 1 < NUM_LEVELS
  {
    set l, e | 0 <= l < NUM_LEVELS && e in EntriesOf(LeftOf(v, level, in0, in1, l)) :: e
  }

  function LeftOf(v: Version, level: nat, in0: seq<Table>, in1: seq<Table>, l: int): seq<Table>
    requires 0 <= l < NUM_LEVELS
  {
    if l == level then Remaining(v[l], in0) else if l == level + 1 then Remaining(v[l], in1) else v[l]
  }

  // ----- the tables of the level itself -----

  lemma EntriesWithin(files: seq<Table>, some: seq<Table>)
    requires forall f :: f in some ==> f in files
    ensures EntriesOf(some) <= EntriesOf(files)
  {
  }

  /** A stretch of a level without boundary file: what follows shares no user key with it. */
  lemma BehindStretch(files: seq<Table>, a: nat, b: nat, i: nat, j: nat, x: Entry, y: Entry)
    requires TablesSorted(files) && Ordered(files) && a <= j < b <= i < |files|
    requires y in files[j].contents && x in files[i].contents && x.key == y.key
    ensures files[b - 1].Largest().key == x.key && files[b].Smallest().key == x.key
    ensures files[i].Smallest().key == x.key && IsLargest(files[a..b], files[b - 1].Largest())
    ensures Before(files[b - 1].Largest(), files[b].Smallest())
  {
    assert files[b - 1] in files && files[b] in files && files[i] in files && files[j] in files;
    WithinTable(files[j], y);
    WithinTable(files[i], x);
    OrderedEntries(files, b - 1, b, files[b - 1].Largest(), files[b].Smallest());
    if j < b - 1 {
      OrderedEntries(files, j, b - 1, y, files[b - 1].Largest());
    }
    if b < i {
      OrderedEntries(files, b, i, files[b].Smallest(), files[i].Smallest());
    }
    StretchLargest(files, a, b);
  }

  lemma StretchLargest(files: seq<Table>, a: nat, b: nat)
    requires TablesSorted(files) && Ordered(files) && a < b <= |files|
    ensures IsLargest(files[a..b], files[b - 1].Largest())
  {
    assert files[a..b][b - 1 - a] == files[b - 1];
    forall f | f in files[a..b] ensures !Before(files[b - 1].Largest(), f.Largest()) {
      var i: nat :| a <= i < b && files[i] == f;
      if i < b - 1 {
        LargestAscend(files, i, b - 1);
      }
    }
  }

  /** Before a stretch everything is newer, and so it is behind one without boundary file. */
  lemma AroundStretch(files: seq<Table>, a: nat, b: nat, i: nat, j: nat, x: Entry, y: Entry)
    requires TablesSorted(files) && Ordered(files) && a <= j < b <= |files| && i < |files| && !(a <= i < b)
    requires y in files[j].contents && x in files[i].contents && x.key == y.key && (x.sn == y.sn ==> x == y)
    requires Closed(files, files[a..b])
    ensures x.sn > y.sn
  {
    hide TablesSorted, Ordered, Closed, IsLargest;
    if i < a {
      OrderedEntries(files, i, j, x, y);
    } else {
      BehindStretch(files, a, b, i, j, x, y);
      NotClosed(files, files[a..b], files[b - 1].Largest(), files[b]);
      assert false;
    }
  }

  lemma NotClosed(files: seq<Table>, inputs: seq<Table>, key: Entry, f: Table)
    requires IsLargest(inputs, key) && f in files && Boundary(f, key)
    ensures !Closed(files, inputs)
  {
  }

  lemma InStretch(files: seq<Table>, a: nat, b: nat, i: nat)
    requires a <= i < b <= |files|
    ensures files[i] in files[a..b]
  {
    assert files[a..b][i - a] == files[i];
  }

  lemma InAll(v: Version, l: nat, f: Table, e: Entry)
    requires l < NUM_LEVELS && f in v[l] && e in f.contents
    ensures e in EntriesOf(v[l]) && e in AllEntries(v)
  {
  }

  /** Whatever a compaction leaves behind in its level is newer than what it takes of it. */
  lemma LeftBehindIsNewer(v: Version, level: nat, in0: seq<Table>, f: Table, g: Table, x: Entry, y: Entry)
    requires LevelsOk(v) && NoClash(AllEntries(v)) && level < NUM_LEVELS
    requires Picked(v, level, in0) && Closed(v[level], in0)
    requires f in v[level] && f !in in0 && g in in0 && x in f.contents && y in g.contents && x.key == y.key
    ensures g in v[level] && x.sn > y.sn
  {
    assert TablesSorted(v[level]) && (level > 0 ==> Ordered(v[level]));
    hide LevelsOk, Closed, TableOk;
    if level == 0 {
      var lo, hi :| in0 == Overlapping(v[0], lo, hi) && forall f :: f in in0 ==> Inside(f, lo, hi);
      OverlappingMembers(v[0], lo, hi);
      NothingSharedInLevelZero(f, g, lo, hi, x, y);
      assert false;
    } else {
      var a: nat, b: nat :| a < b <= |v[level]| && in0 == v[level][a..b];
      var i: nat :| i < |v[level]| && v[level][i] == f;
      var j: nat :| a <= j < b && v[level][j] == g;
      InAll(v, level, f, x);
      InAll(v, level, g, y);
      if a <= i < b {
        InStretch(v[level], a, b, i);
        assert false;
      }
      hide AllEntries;
      AroundStretch(v[level], a, b, i, j, x, y);
    }
  }

  lemma NothingSharedInLevelZero(f: Table, g: Table, lo: Option<UserKey>, hi: Option<UserKey>, x: Entry, y: Entry)
    requires TableOk(f) && TableOk(g) && !Overlaps(f, lo, hi) && Inside(g, lo, hi)
    requires x in f.contents && y in g.contents
    ensures x.key != y.key
  {
    WithinTable(f, x);
    WithinTable(g, y);
  }

  // ----- the tables of the next level -----

  /** `x` is in a table right behind those taken of the next level, which begins with the user key they
      end with. */
  ghost predicate SplitOff(files: seq<Table>, in1: seq<Table>, x: Entry) {
    exists g, key :: g in files && g !in in1 && x in g.contents && IsLargest(in1, key)
                     && Boundary(g, key) && g.Smallest().key == x.key
  }

  /** The tables taken of the next level: those that overlap the range of user keys of `inputs_[0]`. */
  lemma OlderBehindIsSplitOff(files: seq<Table>, lo: UserKey, hi: UserKey, f: Table, g: Table, x: Entry, y: Entry)
    requires TablesSorted(files) && Ordered(files) && f in files && f !in Overlapping(files, Some(lo), Some(hi))
    requires g in Overlapping(files, Some(lo), Some(hi)) && x in f.contents && y in g.contents
    requires x.key == y.key && x.sn < y.sn
    ensures SplitOff(files, Overlapping(files, Some(lo), Some(hi)), x)
  {
    var in1 := Overlapping(files, Some(lo), Some(hi));
    var a, b := OverlappingIsStretch(files, Some(lo), Some(hi));
    hide Overlapping;
    var i: nat :| i < |files| && files[i] == f;
    var j: nat :| a <= j < b && files[j] == g;
    if a <= i < b {
      InStretch(files, a, b, i);
      assert false;
    } else if i < a {
      OrderedEntries(files, i, j, x, y);
    } else {
      BehindStretch(files, a, b, i, j, x, y);
      BehindLargest(files, b, i);
      assert Boundary(f, files[b - 1].Largest()) && IsLargest(in1, files[b - 1].Largest());
    }
  }

  lemma BehindLargest(files: seq<Table>, b: nat, i: nat)
    requires TablesSorted(files) && Ordered(files) && 0 < b <= i < |files|
    ensures Before(files[b - 1].Largest(), files[i].Smallest())
  {
  }

  /** No user key of `inputs_[0]` is in a table of the next level that is not taken. */
  lemma NotInNextLevel(in0: seq<Table>, smallest: Entry, largest: Entry, f: Table, g: Table, x: Entry, y: Entry)
    requires IsRange(in0, smallest, largest) && g in in0 && TableOk(f) && TableOk(g)
    requires !Overlaps(f, Some(smallest.key), Some(largest.key)) && x in f.contents && y in g.contents
    ensures x.key != y.key
  {
    WithinTable(f, x);
    WithinTable(g, y);
    assert !Before(g.Smallest(), smallest) && !Before(largest, g.Largest());
  }

  /** Deeper than the next level. */
  ghost predicate Deeper(v: Version, level: nat, x: Entry) {
    exists l :: level + 2 <= l < NUM_LEVELS && x in EntriesOf(v[l])
  }

  lemma ChosenParts(v: Version, level: nat, in0: seq<Table>, in1: seq<Table>) returns (smallest: Entry, largest: Entry)
    requires Chosen(v, level, in0, in1)
    ensures level + 1 < NUM_LEVELS && Picked(v, level, in0) && Closed(v[level], in0)
    ensures IsRange(in0, smallest, largest)
    ensures in1 == Overlapping(v[level + 1], Some(smallest.key), Some(largest.key))
    ensures forall f :: f in in1 <==> f in v[level + 1] && Overlaps(f, Some(smallest.key), Some(largest.key))
  {
    smallest, largest :|
      IsRange(in0, smallest, largest) && in1 == Overlapping(v[level + 1], Some(smallest.key), Some(largest.key));
    OverlappingMembers(v[level + 1], Some(smallest.key), Some(largest.key));
  }

  lemma LevelParts(v: Version, l: nat, m: nat)
    requires LevelsOk(v) && l < NUM_LEVELS && m < NUM_LEVELS
    ensures TablesSorted(v[l]) && (l > 0 ==> Ordered(v[l]))
    ensures l < m ==> Newer(EntriesOf(v[l]), EntriesOf(v[m]))
  {
  }

  lemma LeftIn(v: Version, level: nat, in0: seq<Table>, in1: seq<Table>, l: nat, f: Table)
    requires l < NUM_LEVELS && f in LeftOf(v, level, in0, in1, l)
    ensures f in v[l] && (l == level ==> f !in in0) && (l == level + 1 ==> f !in in1)
  {
  }

  lemma IsDeeper(v: Version, level: nat, l: nat, x: Entry)
    requires level + 2 <= l < NUM_LEVELS && x in EntriesOf(v[l])
    ensures Deeper(v, level, x)
  {
  }

  lemma HigherIsNewer(v: Version, l: nat, m: nat, x: Entry, y: Entry)
    requires LevelsOk(v) && l < m < NUM_LEVELS && x in EntriesOf(v[l]) && y in EntriesOf(v[m]) && x.key == y.key
    ensures x.sn > y.sn
  {
    assert Newer(EntriesOf(v[l]), EntriesOf(v[m]));
  }

  lemma NewerAt(above: set<Entry>, below: set<Entry>, x: Entry, y: Entry)
    requires Newer(above, below) && x in above && y in below && x.key == y.key
    ensures x.sn > y.sn
  {
  }

  /** Where there can be an older version of a user key that is in the inputs: at the beginning of the table
      behind those taken of the next level, and further down. */
  lemma OlderOutside(v: Version, level: nat, in0: seq<Table>, in1: seq<Table>, l: nat, f: Table, x: Entry, y: Entry)
    requires LevelsOk(v) && NoClash(AllEntries(v)) && Chosen(v, level, in0, in1)
    requires l < NUM_LEVELS && f in LeftOf(v, level, in0, in1, l) && x in f.contents
    requires y in EntriesOf(in0) + EntriesOf(in1) && x.key == y.key && x.sn < y.sn
    ensures Deeper(v, level, x) || SplitOff(v[level + 1], in1, x)
  {
    hide LevelsOk, NoClash, Chosen, EntriesOf, AllEntries, Picked, Closed, IsRange, Overlapping, Overlaps, SplitOff,
      Ordered, TablesSorted, TableOk, Newer, Deeper, LeftOf;
    var smallest, largest := ChosenParts(v, level, in0, in1);
    var m, g := InputTable(v, level, in0, in1, y);
    LeftIn(v, level, in0, in1, l, f);
    InAll(v, l, f, x);
    InAll(v, m, g, y);
    if l >= level + 2 {
      IsDeeper(v, level, l, x);
    } else if l < m {
      HigherIsNewer(v, l, m, x, y);
      assert false;
    } else if l == level {
      LeftBehindIsNewer(v, level, in0, f, g, x, y);
    } else if m == level {
      TableIsOk(v, l, f);
      TableIsOk(v, m, g);
      NotInNextLevel(in0, smallest, largest, f, g, x, y);
    } else {
      LevelParts(v, level + 1, level + 1);
      OlderBehindIsSplitOff(v[level + 1], smallest.key, largest.key, f, g, x, y);
    }
  }

  lemma InputTable(v: Version, level: nat, in0: seq<Table>, in1: seq<Table>, y: Entry) returns (m: nat, g: Table)
    requires Chosen(v, level, in0, in1) && y in EntriesOf(in0) + EntriesOf(in1)
    ensures level <= m <= level + 1 < NUM_LEVELS && g in v[m] && y in g.contents
    ensures g in (if m == level then in0 else in1)
  {
    if y in EntriesOf(in0) {
      m := level;
      g :| g in in0 && y in g.contents;
      PickedWithin(v, level, in0);
    } else {
      m := level + 1;
      g :| g in in1 && y in g.contents;
      var smallest, largest :|
        IsRange(in0, smallest, largest) && in1 == Overlapping(v[level + 1], Some(smallest.key), Some(largest.key));
      OverlappingMembers(v[level + 1], Some(smallest.key), Some(largest.key));
    }
  }

  lemma PickedWithin(v: Version, level: nat, picked: seq<Table>)
    requires level < NUM_LEVELS && Picked(v, level, picked)
    ensures forall f :: f in picked ==> f in v[level]
  {
    if level == 0 {
      var lo, hi :| picked == Overlapping(v[0], lo, hi) && forall f :: f in picked ==> Inside(f, lo, hi);
      OverlappingMembers(v[0], lo, hi);
    }
  }

  // ----- what readers notice -----

  /** A compaction with its merged input, and what else there is: newer data in memory, and the tables not
      taken. */
  ghost predicate Compacts(v: Version, level: nat, in0: seq<Table>, in1: seq<Table>, es: seq<Entry>, more: set<Entry>,
                           ss: nat) {
    && LevelsOk(v) && NoClash(more + AllEntries(v)) && Chosen(v, level, in0, in1) && ss < MAX_SEQUENCE
    && Sorted(es) && Elements(es) == EntriesOf(in0) + EntriesOf(in1) && Newer(more, AllEntries(v))
  }

  ghost function OtherEntries(v: Version, level: nat, in0: seq<Table>, in1: seq<Table>, more: set<Entry>): set<Entry>
    requires level + 1 < NUM_LEVELS
  {
    more + Untaken(v, level, in0, in1)
  }

  lemma InputsParse(v: Version, level: nat, in0: seq<Table>, in1: seq<Table>, e: Entry)
    requires LevelsOk(v) && Chosen(v, level, in0, in1) && e in EntriesOf(in0) + EntriesOf(in1)
    ensures Parses(e) && e in AllEntries(v)
  {
    hide LevelsOk, Chosen, EntriesOf, AllEntries, TableOk;
    var m, g := InputTable(v, level, in0, in1, e);
    InAll(v, m, g, e);
    TableIsOk(v, m, g);
    EntryParses(g, e);
  }

  lemma EntryParses(f: Table, e: Entry)
    requires TableOk(f) && e in f.contents
    ensures Parses(e)
  {
  }

  lemma AllInputsParse(v: Version, level: nat, in0: seq<Table>, in1: seq<Table>, es: seq<Entry>)
    requires LevelsOk(v) && Chosen(v, level, in0, in1) && Elements(es) == EntriesOf(in0) + EntriesOf(in1)
    ensures AllParse(es) && Elements(es) <= AllEntries(v)
  {
    hide LevelsOk, Chosen, EntriesOf, AllEntries;
    forall e | e in Elements(es) ensures Parses(e) && e in AllEntries(v) {
      InputsParse(v, level, in0, in1, e);
    }
    forall i | 0 <= i < |es| ensures Parses(es[i]) {
      assert es[i] in Elements(es);
    }
  }

  lemma UntakenWithin(v: Version, level: nat, in0: seq<Table>, in1: seq<Table>)
    requires level + 1 < NUM_LEVELS
    ensures Untaken(v, level, in0, in1) <= AllEntries(v)
  {
    forall l | 0 <= l < NUM_LEVELS ensures EntriesOf(LeftOf(v, level, in0, in1, l)) <= EntriesOf(v[l]) {
      EntriesWithin(v[l], LeftOf(v, level, in0, in1, l));
    }
  }

  /** A value that a dropped deletion uncovers stands at the beginning of the table right behind those taken
      of the next level. */
  lemma UncoveredIsSplitOff(v: Version, level: nat, in0: seq<Table>, in1: seq<Table>, es: seq<Entry>, more: set<Entry>,
                            ss: nat, t: Entry, w: Entry)
    requires Compacts(v, level, in0, in1, es, more, ss)
    requires C.Uncovers(OtherEntries(v, level, in0, in1, more), es, ss, k => IsBase(v, level, k), t, w)
    ensures SplitOff(v[level + 1], in1, w)
  {
    assert level + 1 < NUM_LEVELS;
    hide LevelsOk, Chosen, AllEntries, SplitOff, LeftOf, Sorted, EntriesOf, Elements, NoClash, Newer, IsBase, Deeper,
      C.Uncovers, C.Exposed, AllParse;
    assert NoClash(AllEntries(v)) by { hide *; NoClashPart(v, level, in0, in1, es, more, ss); }
    var others, isBase := OtherEntries(v, level, in0, in1, more), (k: UserKey) => IsBase(v, level, k);
    AllInputsParse(v, level, in0, in1, es);
    UncoveredParts(others, es, ss, isBase, t, w);
    assert t in AllEntries(v);
    if w in more {
      NewerAt(more, AllEntries(v), w, t);
      assert false;
    }
    var l: nat :| l < NUM_LEVELS && w in EntriesOf(LeftOf(v, level, in0, in1, l));
    var f := TableOf(LeftOf(v, level, in0, in1, l), w);
    OlderOutside(v, level, in0, in1, l, f, w, t);
    if Deeper(v, level, w) {
      DeeperIsNotBase(v, level, w);
      assert false;
    }
  }

  lemma NoClashPart(v: Version, level: nat, in0: seq<Table>, in1: seq<Table>, es: seq<Entry>, more: set<Entry>, ss: nat)
    requires Compacts(v, level, in0, in1, es, more, ss)
    ensures NoClash(AllEntries(v))
  {
    hide LevelsOk, AllEntries;
  }

  /** What the condition says where all keys parse. */
  lemma UncoveredParts(others: set<Entry>, es: seq<Entry>, ss: nat, isBase: UserKey -> bool, t: Entry, w: Entry)
    requires C.Uncovers(others, es, ss, isBase, t, w) && AllParse(es)
    ensures t in Elements(es) && isBase(t.key) && w in others && w.key == t.key && w.sn < t.sn
  {
  }

  lemma DeeperIsNotBase(v: Version, level: nat, w: Entry)
    requires LevelsOk(v) && Deeper(v, level, w)
    ensures !IsBase(v, level, w.key)
  {
    var l :| level + 2 <= l < NUM_LEVELS && w in EntriesOf(v[l]);
    var f :| f in v[l] && w in f.contents;
    TableIsOk(v, l, f);
    WithinTable(f, w);
  }

  /** Whatever tables are chosen: readers from the smallest snapshot on notice the compaction if and only if
      it drops a deletion that is the newest version there, no deeper table contains its user key, and the
      newest version under it is a value with which the table right behind the chosen ones of the next
      level begins. */
  lemma ChoiceReadsExactly(v: Version, level: nat, in0: seq<Table>, in1: seq<Table>, es: seq<Entry>, more: set<Entry>,
                           ss: nat)
    requires Compacts(v, level, in0, in1, es, more, ss)
    ensures var isBase, others := (k: UserKey) => IsBase(v, level, k), OtherEntries(v, level, in0, in1, more);
      (forall k, s: nat :: ss <= s ==>
         Read(others + Elements(es), k, s) == Read(others + Elements(C.Kept(es, C.INIT, ss, isBase)), k, s))
      <==> !exists t, w :: C.Uncovers(others, es, ss, isBase, t, w) && SplitOff(v[level + 1], in1, w)
  {
    var isBase, others := (k: UserKey) => IsBase(v, level, k), OtherEntries(v, level, in0, in1, more);
    assert NoClash(others + Elements(es)) by { OthersApart(v, level, in0, in1, es, more, ss); }
    forall t, w | C.Uncovers(others, es, ss, isBase, t, w) ensures SplitOff(v[level + 1], in1, w) {
      UncoveredIsSplitOff(v, level, in0, in1, es, more, ss, t, w);
    }
    assert Sorted(es) && ss < MAX_SEQUENCE;
    hide Compacts, C.Uncovers, C.Kept, Sorted, NoClash, SplitOff, OtherEntries;
    C.ReadsPreservedExactly(others, es, ss, isBase);
  }

  lemma OthersApart(v: Version, level: nat, in0: seq<Table>, in1: seq<Table>, es: seq<Entry>, more: set<Entry>, ss: nat)
    requires Compacts(v, level, in0, in1, es, more, ss)
    ensures NoClash(OtherEntries(v, level, in0, in1, more) + Elements(es))
  {
    AllInputsParse(v, level, in0, in1, es);
    UntakenWithin(v, level, in0, in1);
    hide LevelsOk, Chosen, AllEntries, Untaken;
    assert OtherEntries(v, level, in0, in1, more) + Elements(es) <= more + AllEntries(v);
  }

  /** So no reader notices anything when the tables taken of the next level are closed under the boundary
      rule too. */
  lemma ClosedChoiceKeepsReads(v: Version, level: nat, in0: seq<Table>, in1: seq<Table>, es: seq<Entry>,
                               more: set<Entry>, ss: nat, k: UserKey, s: nat)
    requires Compacts(v, level, in0, in1, es, more, ss) && ss <= s
    requires Closed(v[level + 1], in1)
    ensures var others := OtherEntries(v, level, in0, in1, more);
      Read(others + Elements(es), k, s)
      == Read(others + Elements(C.Kept(es, C.INIT, ss, k => IsBase(v, level, k))), k, s)
  {
    ChoiceReadsExactly(v, level, in0, in1, es, more, ss);
    var files := v[level + 1];
    forall w ensures !SplitOff(files, in1, w) {
    }
    hide Compacts, Closed, SplitOff, OtherEntries, C.Uncovers, C.Kept, Read;
  }

  // ----- a deleted value that comes back -----

  lemma FewTables(f: Table, g: Table)
    ensures EntriesOf([]) == {} && EntriesOf([f]) == Elements(f.contents)
    ensures EntriesOf([f, g]) == Elements(f.contents) + Elements(g.contents)
  {
    assert f in [f] && f in [f, g] && g in [f, g];
  }

  lemma OverlappingFew(f: Table, g: Table, lo: Option<UserKey>, hi: Option<UserKey>)
    ensures Overlapping([f], lo, hi) == if Overlaps(f, lo, hi) then [f] else []
    ensures Overlapping([f, g], lo, hi) == Overlapping([f], lo, hi) + if Overlaps(g, lo, hi) then [g] else []
  {
    hide Overlaps;
    OverlappingAppend([], f, lo, hi);
    OverlappingAppend([f], g, lo, hi);
    assert [] + [f] == [f] && [f] + [g] == [f, g];
  }

  /** One table above two others, and nothing else. */
  predicate ThreeTables(v: Version, f: Table, g: Table, h: Table) {
    v[1] == [f] && v[2] == [g, h] && forall n :: 0 <= n < NUM_LEVELS && n != 1 && n != 2 ==> v[n] == []
  }

  lemma ThreeTablesOk(v: Version, f: Table, g: Table, h: Table)
    requires ThreeTables(v, f, g, h) && TableOk(f) && TableOk(g) && TableOk(h) && Before(g.Largest(), h.Smallest())
    requires Newer(Elements(f.contents), Elements(g.contents) + Elements(h.contents))
    ensures LevelsOk(v) && AllEntries(v) == Elements(f.contents) + Elements(g.contents) + Elements(h.contents)
  {
    hide TableOk, EntriesOf, Elements;
    FewTables(f, f);
    FewTables(g, h);
    assert forall l :: 0 <= l < NUM_LEVELS ==> EntriesOf(v[l]) == if l == 1 then Elements(f.contents)
        else if l == 2 then Elements(g.contents) + Elements(h.contents) else {};
  }

  /** The upper table alone is chosen, and of the two others the one whose range overlaps its own. */
  lemma ThreeTablesChoice(v: Version, f: Table, g: Table, h: Table, x: Entry)
    requires ThreeTables(v, f, g, h) && f.contents == [x]
    requires g.Smallest().key <= x.key <= g.Largest().key && x.key < h.Smallest().key
    ensures Chosen(v, 1, [f], [g])
  {
    assert v[1][0..1] == [f] && f in [f];
    assert IsRange([f], x, x);
    OverlappingFew(g, h, Some(x.key), Some(x.key));
    assert Picked(v, 1, [f]) && Closed(v[1], [f]);
  }

  lemma ThreeTablesSplit(v: Version, f: Table, g: Table, h: Table, x: Entry)
    requires ThreeTables(v, f, g, h) && h.contents == [x] && g != h
    requires Before(g.Largest(), x) && g.Largest().key == x.key
    ensures SplitOff(v[2], [g], x) && IsBase(v, 1, x.key)
  {
    assert g in [g] && h in v[2];
    assert IsLargest([g], g.Largest()) && Boundary(h, g.Largest());
  }

  lemma ThreeTablesUntaken(v: Version, f: Table, g: Table, h: Table)
    requires ThreeTables(v, f, g, h) && g != h
    ensures Untaken(v, 1, [f], [g]) == Elements(h.contents)
  {
    FewTables(h, h);
    assert Remaining([f], [f]) == [] by { assert [f][1..] == []; }
    assert Remaining([g, h], [g]) == [h] by {
      assert [g, h][1..] == [h] && [h][1..] == [] && [g, h][0] in [g];
      assert Remaining([h], [g]) == [h];
    }
    assert forall l :: 0 <= l < NUM_LEVELS ==> LeftOf(v, 1, [f], [g], l) == if l == 2 then [h] else [];
    assert EntriesOf(LeftOf(v, 1, [f], [g], 2)) == Elements(h.contents);
    hide EntriesOf, Elements, Remaining;
  }

  /** A level-1 table with a newer version of one user key, and under it two tables of level 2: one that ends
      with the deletion of another user key, and one that begins with the value it deleted. */
  predicate SplitKey(v: Version, f: Table, g: Table, h: Table, upper: Entry, lower: Entry, deletion: Entry,
                     deleted: Entry) {
    && ThreeTables(v, f, g, h) && f.contents == [upper] && g.contents == [lower, deletion] && h.contents == [deleted]
    && upper.key == lower.key < deletion.key == deleted.key
    && lower.sn < upper.sn <= MAX_SEQUENCE && deleted.sn < deletion.sn <= MAX_SEQUENCE
    && Parses(upper) && Parses(lower) && deletion.kind.Deletion? && deleted.kind.Put?
  }

  lemma SplitKeyTables(v: Version, f: Table, g: Table, h: Table, upper: Entry, lower: Entry, deletion: Entry,
                       deleted: Entry)
    requires SplitKey(v, f, g, h, upper, lower, deletion, deleted)
    ensures TableOk(f) && TableOk(g) && TableOk(h) && g != h && Before(g.Largest(), h.Smallest())
    ensures Elements(f.contents) == {upper} && Elements(g.contents) == {lower, deletion}
    ensures Elements(h.contents) == {deleted} && Newer(Elements(f.contents), {lower, deletion, deleted})
    ensures Sorted([upper, lower, deletion]) && Elements([upper, lower, deletion]) == {upper, lower, deletion}
    ensures NoClash({upper, lower, deletion, deleted})
  {
  }

  lemma SplitKeyLevels(v: Version, f: Table, g: Table, h: Table, upper: Entry, lower: Entry, deletion: Entry,
                       deleted: Entry)
    requires SplitKey(v, f, g, h, upper, lower, deletion, deleted)
    ensures LevelsOk(v) && AllEntries(v) == {upper, lower, deletion, deleted}
    ensures EntriesOf([f]) + EntriesOf([g]) == {upper, lower, deletion}
  {
    hide ThreeTables, TableOk, LevelsOk, Elements, Sorted, AllEntries, EntriesOf, NoClash;
    SplitKeyTables(v, f, g, h, upper, lower, deletion, deleted);
    assert Elements(g.contents) + Elements(h.contents) == {lower, deletion, deleted};
    ThreeTablesOk(v, f, g, h);
    FewTables(f, f);
    FewTables(g, g);
  }

  lemma SplitKeyCompacts(v: Version, f: Table, g: Table, h: Table, upper: Entry, lower: Entry, deletion: Entry,
                         deleted: Entry, ss: nat)
    requires SplitKey(v, f, g, h, upper, lower, deletion, deleted) && ss < MAX_SEQUENCE
    ensures Compacts(v, 1, [f], [g], [upper, lower, deletion], {}, ss) && SplitOff(v[2], [g], deleted)
    ensures IsBase(v, 1, deletion.key) && OtherEntries(v, 1, [f], [g], {}) == {deleted}
    ensures AllEntries(v) == {upper, lower, deletion, deleted}
  {
    hide ThreeTables, TableOk, LevelsOk, Chosen, Elements, Sorted, SplitOff, IsBase, Untaken, AllEntries, EntriesOf,
      NoClash, Newer;
    SplitKeyTables(v, f, g, h, upper, lower, deletion, deleted);
    SplitKeyLevels(v, f, g, h, upper, lower, deletion, deleted);
    ThreeTablesChoice(v, f, g, h, upper);
    ThreeTablesSplit(v, f, g, h, deleted);
    ThreeTablesUntaken(v, f, g, h);
    NoneNewer(AllEntries(v));
    hide SplitKey;
    assert {} + AllEntries(v) == {upper, lower, deletion, deleted};
  }

  lemma NoneNewer(es: set<Entry>)
    ensures Newer({}, es)
  {
  }

  /** That comes about when a compaction had to keep the value for a snapshot older than its deletion, and wrote
      the two to different tables. Once the snapshot is gone, the tables `f` and `g` are compacted: the deletion
      goes, and what it deleted is read again. */
  lemma SplitKeyBringsBack(v: Version, f: Table, g: Table, h: Table, upper: Entry, lower: Entry, deletion: Entry,
                           deleted: Entry, ss: nat)
    requires SplitKey(v, f, g, h, upper, lower, deletion, deleted) && deletion.sn <= ss < MAX_SEQUENCE
    ensures var es, isBase := [upper, lower, deletion], (k: UserKey) => IsBase(v, 1, k);
      && Compacts(v, 1, [f], [g], es, {}, ss)
      && Read(AllEntries(v), deleted.key, ss) == None
      && Read(OtherEntries(v, 1, [f], [g], {}) + Elements(C.Kept(es, C.INIT, ss, isBase)), deleted.key, ss)
         == Some(deleted.value)
  {
    hide *;
    var es, isBase, others := [upper, lower, deletion], (k: UserKey) => IsBase(v, 1, k), {deleted};
    SplitKeyCompacts(v, f, g, h, upper, lower, deletion, deleted, ss);
    SplitKeyUncovers(v, f, g, h, upper, lower, deletion, deleted, ss, isBase);
    C.UncoveredIsRead(others, es, ss, isBase, deletion, deleted);
  }

  lemma SplitKeyUncovers(v: Version, f: Table, g: Table, h: Table, upper: Entry, lower: Entry, deletion: Entry,
                         deleted: Entry, ss: nat, isBase: UserKey -> bool)
    requires SplitKey(v, f, g, h, upper, lower, deletion, deleted) && deletion.sn <= ss && isBase(deletion.key)
    ensures var es := [upper, lower, deletion];
      && C.Uncovers({deleted}, es, ss, isBase, deletion, deleted) && deletion.key == deleted.key
      && {deleted} + Elements(es) == {upper, lower, deletion, deleted} && Sorted(es)
      && NoClash({deleted} + Elements(es))
  {
    hide TableOk, ThreeTables, Elements, Sorted, NoClash, C.Uncovers;
    SplitKeyTables(v, f, g, h, upper, lower, deletion, deleted);
    UncoveredByHand([upper, lower, deletion], {deleted}, upper, lower, deletion, deleted, ss, isBase);
  }

  lemma UncoveredByHand(es: seq<Entry>, others: set<Entry>, upper: Entry, lower: Entry, deletion: Entry,
                        deleted: Entry, ss: nat, isBase: UserKey -> bool)
    requires es == [upper, lower, deletion] && others == {deleted}
    requires others + Elements(es) == {upper, lower, deletion, deleted}
    requires upper.key == lower.key < deletion.key == deleted.key && deleted.sn < deletion.sn <= ss
    requires Parses(upper) && Parses(lower) && deletion.kind.Deletion? && deleted.kind.Put? && isBase(deletion.key)
    ensures C.Uncovers(others, es, ss, isBase, deletion, deleted)
  {
    assert deletion == es[2];
    assert forall w :: !C.Exposed(es, w);
    hide C.Exposed, Elements;
  }

  /** Such tables there are, as a compaction leaves them that runs while there is a snapshot at 7. */
  lemma SplitKeyExists(isBase: UserKey -> bool) returns (v: Version, f: Table, g: Table, h: Table)
    ensures var deletion, deleted := Entry(2.0, 10, Deletion, ""), Entry(2.0, 5, Put, "old");
      && SplitKey(v, f, g, h, Entry(1.0, 12, Put, "second"), Entry(1.0, 3, Put, "first"), deletion, deleted)
      && C.Kept(g.contents + h.contents, C.INIT, 7, isBase) == g.contents + h.contents
  {
    var first, deletion := Entry(1.0, 3, Put, "first"), Entry(2.0, 10, Deletion, "");
    var deleted := Entry(2.0, 5, Put, "old");
    f := TableFile(30, [Entry(1.0, 12, Put, "second")]);
    g, h := TableFile(20, [first, deletion]), TableFile(21, [deleted]);
    v := [[], [f], [g, h], [], [], [], []];
    assert g.contents + h.contents == [first] + ([deletion] + ([deleted] + []));
    hide C.Kept;
    C.KeptCons(first, [deletion] + ([deleted] + []), C.INIT, 7, isBase);
    C.KeptCons(deletion, [deleted] + [], C.DropState(true, 1.0, 3), 7, isBase);
    C.KeptCons(deleted, [], C.DropState(true, 2.0, 10), 7, isBase);
    C.KeptNil(C.DropState(true, 2.0, 5), 7, isBase);
  }

  // ----- installing what was compacted -----

  function PlacedAll(files: seq<Table>, added: seq<Table>): (more: seq<Table>)
    ensures forall f :: f in more <==> f in files || f in added
    decreases |added|
  {
    if added == [] then files else PlacedAll(Placed(files, added[0]), added[1..])
  }

  lemma {:induction false} RemainingOrdered(files: seq<Table>, gone: seq<Table>)
    requires TablesSorted(files)
    ensures TablesSorted(Remaining(files, gone)) && (Ordered(files) ==> Ordered(Remaining(files, gone)))
  {
    if files != [] && Ordered(files) {
      var first, rest := files[0], files[1..];
      assert files == [first] + rest;
      OrderedCons(first, rest);
      assert forall f :: f in rest ==> f in files;
      RemainingOrdered(rest, gone);
      OrderedCons(first, Remaining(rest, gone));
    }
  }

  /** Two tables of an ordered level are apart. */
  lemma OrderedApart(files: seq<Table>, f: Table, g: Table)
    requires Ordered(files) && f in files && g in files && f != g
    ensures Apart(f, g)
  {
    var i :| 0 <= i < |files| && files[i] == f;
    var j :| 0 <= j < |files| && files[j] == g;
  }

  /** The outputs find room in a level exactly if none overlaps what is there. */
  lemma {:induction false} PlacedAllOrdered(files: seq<Table>, added: seq<Table>)
    requires TablesSorted(files) && Ordered(files) && TablesSorted(added) && Ordered(added)
    requires forall o :: o in added ==> o !in files
    ensures Ordered(PlacedAll(files, added)) <==> forall f, o :: f in files && o in added ==> Apart(f, o)
    decreases |added|
  {
    hide TableOk, Apart, Ordered, Placed;
    if Ordered(PlacedAll(files, added)) {
      forall f, o | f in files && o in added ensures Apart(f, o) {
        OrderedApart(PlacedAll(files, added), f, o);
      }
    } else if added != [] && forall f, o :: f in files && o in added ==> Apart(f, o) {
      var first, rest, with := added[0], added[1..], Placed(files, added[0]);
      assert added == [first] + rest;
      OrderedCons(first, rest);
      PlacedOrdered(files, first);
      PlacedEntries(files, first);
      forall f, o | f in with && o in rest ensures Apart(f, o) && o !in with {
        assert o in added;
        if f == first {
          FirstApart(first, o);
        }
        NotBeforeItself(first, o);
      }
      PlacedAllOrdered(with, rest);
    }
  }

  lemma FirstApart(f: Table, g: Table)
    requires Before(f.Largest(), g.Smallest())
    ensures Apart(f, g)
  {
  }

  lemma NotBeforeItself(f: Table, g: Table)
    requires TableOk(f) && Before(f.Largest(), g.Smallest())
    ensures f != g
  {
    WithinTable(f, f.Smallest());
  }

  /** `w` is `v` after memtables were flushed. */
  ghost predicate Grown(v: Version, w: Version) {
    forall l :: 0 <= l < NUM_LEVELS ==>
      && (forall f :: f in v[l] ==> f in w[l])
      && forall f :: f in w[l] && f !in v[l] ==> Newer(Elements(f.contents), AllEntries(v))
  }

  /** InstallCompactionResults: the inputs are deleted, the outputs go to the next level. */
  function Installed(w: Version, level: nat, in0: seq<Table>, in1: seq<Table>, outs: seq<Table>): Version
    requires level + 1 < NUM_LEVELS
  {
    w[level := Remaining(w[level], in0)][level + 1 := PlacedAll(Remaining(w[level + 1], in1), outs)]
  }

  /** What a compaction is about to install, made of its inputs. */
  ghost predicate Installs(v: Version, w: Version, level: nat, in0: seq<Table>, in1: seq<Table>, outs: seq<Table>) {
    && LevelsOk(v) && NoClash(AllEntries(v)) && Chosen(v, level, in0, in1) && LevelsOk(w) && Grown(v, w)
    && TablesSorted(outs) && Ordered(outs) && EntriesOf(outs) <= EntriesOf(in0) + EntriesOf(in1)
    && forall o :: o in outs ==> o !in w[level + 1]
  }

  /** A table of the next level that does not overlap the inputs is before all of them or behind. */
  lemma BesideInputs(files: seq<Table>, smallest: Entry, largest: Entry, in0: seq<Table>, f: Table, g: Table, y: Entry)
    requires TablesSorted(files) && Ordered(files) && f in files && TableOk(g) && y in g.contents
    requires IsRange(in0, smallest, largest) && !Overlaps(f, Some(smallest.key), Some(largest.key))
    requires g in in0 || (g in files && Overlaps(g, Some(smallest.key), Some(largest.key)))
    ensures f.Largest().key < smallest.key ==> Before(f.Largest(), y)
    ensures largest.key < f.Smallest().key ==> Before(y, f.Smallest())
    ensures f.Largest().key < smallest.key || largest.key < f.Smallest().key
  {
    WithinTable(g, y);
    WithinTable(f, f.Smallest());
    if g in in0 {
      assert !Before(g.Smallest(), smallest) && !Before(largest, g.Largest());
    } else {
      var i: nat :| i < |files| && files[i] == f;
      var j: nat :| j < |files| && files[j] == g;
      if i < j {
        OrderedEntries(files, i, j, f.Largest(), y);
        OrderedEntries(files, i, j, f.Smallest(), g.Smallest());
      } else if j < i {
        OrderedEntries(files, j, i, y, f.Smallest());
        OrderedEntries(files, j, i, g.Largest(), f.Largest());
      }
    }
  }

  /** So it is apart from whatever is made of them. */
  lemma OldTableApart(v: Version, level: nat, in0: seq<Table>, in1: seq<Table>, f: Table, o: Table)
    requires LevelsOk(v) && Chosen(v, level, in0, in1) && f in v[level + 1] && f !in in1
    requires Elements(o.contents) <= EntriesOf(in0) + EntriesOf(in1)
    ensures Apart(f, o)
  {
    hide LevelsOk, Chosen, Picked, Closed, EntriesOf, TableOk, Ordered, TablesSorted, IsRange, Overlaps;
    var smallest, largest := ChosenParts(v, level, in0, in1);
    LevelParts(v, level + 1, level + 1);
    var first, last := o.Smallest(), o.Largest();
    assert first in Elements(o.contents) && last in Elements(o.contents);
    var m, g := InputTable(v, level, in0, in1, first);
    var n, h := InputTable(v, level, in0, in1, last);
    TableIsOk(v, m, g);
    TableIsOk(v, n, h);
    BesideInputs(v[level + 1], smallest, largest, in0, f, g, first);
    BesideInputs(v[level + 1], smallest, largest, in0, f, h, last);
  }

  /** What the level of the compaction keeps is newer than what is made of its inputs, also what was flushed
      to it meanwhile. */
  lemma KeptAboveOutputs(v: Version, w: Version, level: nat, in0: seq<Table>, in1: seq<Table>, outs: seq<Table>)
    requires Installs(v, w, level, in0, in1, outs)
    ensures Newer(EntriesOf(Remaining(w[level], in0)), EntriesOf(outs))
  {
    hide LevelsOk, Chosen, TableOk, Ordered, TablesSorted, NoClash, AllEntries, EntriesOf, Newer, Picked, Closed;
    assert Grown(v, w);
    var smallest, largest := ChosenParts(v, level, in0, in1);
    forall x, y | x in EntriesOf(Remaining(w[level], in0)) && y in EntriesOf(outs) && x.key == y.key
      ensures x.sn > y.sn
    {
      var f := TableOf(Remaining(w[level], in0), x);
      var m, g := InputTable(v, level, in0, in1, y);
      InAll(v, m, g, y);
      InAll(w, level, f, x);
      InAll(w, m, g, y);
      if f !in v[level] {
        NewerAt(Elements(f.contents), AllEntries(v), x, y);
      } else if m == level {
        LeftBehindIsNewer(v, level, in0, f, g, x, y);
      } else {
        LevelParts(w, level, m);
        NewerAt(EntriesOf(w[level]), EntriesOf(w[m]), x, y);
      }
    }
    NewerByEntry(EntriesOf(Remaining(w[level], in0)), EntriesOf(outs));
  }

  lemma TableOf(files: seq<Table>, x: Entry) returns (f: Table)
    requires x in EntriesOf(files)
    ensures f in files && x in f.contents && x in Elements(f.contents)
  {
    f :| f in files && x in f.contents;
  }

  lemma NewerByEntry(above: set<Entry>, below: set<Entry>)
    requires forall x, y :: x in above && y in below && x.key == y.key ==> x.sn > y.sn
    ensures Newer(above, below)
  {
  }

  /** The outputs hold nothing but what was in the two levels before. */
  lemma OutputsWithin(v: Version, w: Version, level: nat, in0: seq<Table>, in1: seq<Table>, outs: seq<Table>)
    requires Installs(v, w, level, in0, in1, outs)
    ensures level + 1 < NUM_LEVELS && EntriesOf(outs) <= EntriesOf(w[level]) + EntriesOf(w[level + 1])
  {
    assert level + 1 < NUM_LEVELS;
    hide LevelsOk, Chosen, TableOk, Ordered, TablesSorted, NoClash, AllEntries, EntriesOf, Newer, Picked, Closed;
    assert Grown(v, w);
    forall y | y in EntriesOf(outs) ensures y in EntriesOf(w[level]) + EntriesOf(w[level + 1]) {
      var m, g := InputTable(v, level, in0, in1, y);
      InAll(w, m, g, y);
    }
  }

  lemma InstalledEntries(w: Version, level: nat, in0: seq<Table>, in1: seq<Table>, outs: seq<Table>)
    requires level + 1 < NUM_LEVELS
    ensures var n := Installed(w, level, in0, in1, outs);
      && n[level] == Remaining(w[level], in0)
      && EntriesOf(n[level + 1]) == EntriesOf(Remaining(w[level + 1], in1)) + EntriesOf(outs)
      && EntriesOf(n[level]) <= EntriesOf(w[level])
      && EntriesOf(Remaining(w[level + 1], in1)) <= EntriesOf(w[level + 1])
      && forall l :: 0 <= l < NUM_LEVELS && l != level && l != level + 1 ==> n[l] == w[l]
  {
  }

  lemma InstalledNewer(v: Version, w: Version, level: nat, in0: seq<Table>, in1: seq<Table>, outs: seq<Table>, l: int,
                       m: int)
    requires Installs(v, w, level, in0, in1, outs) && 0 <= l < m < NUM_LEVELS
    ensures var n := Installed(w, level, in0, in1, outs); Newer(EntriesOf(n[l]), EntriesOf(n[m]))
  {
    hide Installs, EntriesOf, Installed, LevelsOk, Newer;
    KeptAboveOutputs(v, w, level, in0, in1, outs);
    OutputsWithin(v, w, level, in0, in1, outs);
    InstalledEntries(w, level, in0, in1, outs);
    assert LevelsOk(w) by { InstallsOk(v, w, level, in0, in1, outs); }
    var a, b := EntriesOf(w[level]), EntriesOf(w[level + 1]);
    var n := Installed(w, level, in0, in1, outs);
    var k, r, o := EntriesOf(n[level]), EntriesOf(Remaining(w[level + 1], in1)), EntriesOf(outs);
    LevelParts(w, l, m);
    if l == level && m == level + 1 {
      NewerPart(k, a, r, b);
      NewerThanBoth(k, r, o);
    } else if l == level || l == level + 1 {
      LevelParts(w, level, m);
      LevelParts(w, level + 1, m);
      BothNewer(a, b, EntriesOf(w[m]));
      NewerPart(EntriesOf(n[l]), a + b, EntriesOf(w[m]), EntriesOf(w[m]));
    } else if m == level || m == level + 1 {
      LevelParts(w, l, level);
      LevelParts(w, l, level + 1);
      NewerThanBoth(EntriesOf(w[l]), a, b);
      NewerPart(EntriesOf(w[l]), EntriesOf(w[l]), EntriesOf(n[m]), a + b);
    }
  }

  lemma InstallsOk(v: Version, w: Version, level: nat, in0: seq<Table>, in1: seq<Table>, outs: seq<Table>)
    requires Installs(v, w, level, in0, in1, outs)
    ensures LevelsOk(w) && TablesSorted(outs) && Ordered(outs) && level + 1 < NUM_LEVELS
  {
  }

  lemma NewerPart(a': set<Entry>, a: set<Entry>, b': set<Entry>, b: set<Entry>)
    requires Newer(a, b) && a' <= a && b' <= b
    ensures Newer(a', b')
  {
  }

  /** All but the order of the next level is as before. */
  lemma InstalledRest(w: Version, level: nat, in0: seq<Table>, in1: seq<Table>, outs: seq<Table>)
    requires LevelsOk(w) && level + 1 < NUM_LEVELS && TablesSorted(outs)
    ensures var n := Installed(w, level, in0, in1, outs);
      && (forall l :: 0 <= l < NUM_LEVELS ==> TablesSorted(n[l])) && NumberedByAge(n[0])
      && forall l :: 1 <= l < NUM_LEVELS && l != level + 1 ==> Ordered(n[l])
  {
    hide TableOk, Ordered, Newer;
    RemainingOrdered(w[level], in0);
    RemainingOrdered(w[level + 1], in1);
  }

  /** After a compaction the levels are what lookups rely on if and only if no table that was flushed to the
      next level meanwhile overlaps an output. */
  lemma InstallKeepsLevels(v: Version, w: Version, level: nat, in0: seq<Table>, in1: seq<Table>, outs: seq<Table>)
    requires Installs(v, w, level, in0, in1, outs)
    ensures LevelsOk(Installed(w, level, in0, in1, outs))
      <==> forall f, o :: f in w[level + 1] && f !in v[level + 1] && o in outs ==> Apart(f, o)
  {
    hide Installs, EntriesOf, Apart, Newer, Ordered, TablesSorted, NumberedByAge;
    InstallsOk(v, w, level, in0, in1, outs);
    var n := Installed(w, level, in0, in1, outs);
    InstalledRest(w, level, in0, in1, outs);
    NextLevelOrdered(v, w, level, in0, in1, outs);
    forall l, m | 0 <= l < m < NUM_LEVELS ensures Newer(EntriesOf(n[l]), EntriesOf(n[m])) {
      InstalledNewer(v, w, level, in0, in1, outs, l, m);
    }
    assert n[level + 1] == PlacedAll(Remaining(w[level + 1], in1), outs);
    hide Installed;
  }

  lemma NextLevelOrdered(v: Version, w: Version, level: nat, in0: seq<Table>, in1: seq<Table>, outs: seq<Table>)
    requires Installs(v, w, level, in0, in1, outs)
    ensures Ordered(PlacedAll(Remaining(w[level + 1], in1), outs))
      <==> forall f, o :: f in w[level + 1] && f !in v[level + 1] && o in outs ==> Apart(f, o)
  {
    var rest := Remaining(w[level + 1], in1);
    assert LevelsOk(v) && Chosen(v, level, in0, in1) && TablesSorted(outs) && Ordered(outs);
    assert TablesSorted(w[level + 1]) && Ordered(w[level + 1]);
    hide LevelsOk, Chosen, TableOk, NoClash, AllEntries, EntriesOf, Newer, Ordered, TablesSorted, Apart;
    RemainingOrdered(w[level + 1], in1);
    PlacedAllOrdered(rest, outs);
    var smallest, largest := ChosenParts(v, level, in0, in1);
    assert Grown(v, w);
    forall f, o | f in rest && o in outs && f in v[level + 1] ensures Apart(f, o) {
      OneOfMany(outs, o);
      OldTableApart(v, level, in0, in1, f, o);
    }
    assert forall f :: f in w[level + 1] && f !in v[level + 1] ==> f in rest;
  }

  lemma OneOfMany(files: seq<Table>, f: Table)
    requires f in files
    ensures Elements(f.contents) <= EntriesOf(files)
  {
  }

  /** A table between whose user keys and those of tables without gap there is no overlap is before all of
      them or behind. */
  lemma OneSide(files: seq<Table>, f: Table, g: Table, h: Table)
    requires NoGap(files) && TableOk(f) && (forall c :: c in files ==> TableOk(c)) && g in files && h in files
    requires NoneOverlaps(files, f.Smallest().key, f.Largest().key)
    ensures (g.Largest().key < f.Smallest().key && h.Largest().key < f.Smallest().key)
      || (f.Largest().key < g.Smallest().key && f.Largest().key < h.Smallest().key)
  {
    WithinTable(f, f.Smallest());
    WithinTable(g, g.Smallest());
    WithinTable(h, h.Smallest());
    assert !Overlaps(g, Some(f.Smallest().key), Some(f.Largest().key));
    assert !Overlaps(h, Some(f.Smallest().key), Some(f.Largest().key));
    forall c | c in files ensures !Covers(c, f.Smallest().key) {
      assert !Overlaps(c, Some(f.Smallest().key), Some(f.Largest().key));
    }
    assert !InSpan(files, f.Smallest().key);
  }

  /** When the inputs leave no gap, as those of PickCompaction, the levels stay fit for lookups whatever was
      flushed meanwhile: it overlapped no input. */
  lemma NoGapKeepsLevels(v: Version, w: Version, level: nat, in0: seq<Table>, in1: seq<Table>, outs: seq<Table>)
    requires Installs(v, w, level, in0, in1, outs) && NoGap(in0 + in1)
    requires forall f :: f in w[level + 1] && f !in v[level + 1] ==>
               NoneOverlaps(in0 + in1, f.Smallest().key, f.Largest().key)
    ensures LevelsOk(Installed(w, level, in0, in1, outs))
  {
    assert LevelsOk(v) && LevelsOk(w) && Chosen(v, level, in0, in1) && TablesSorted(outs);
    assert EntriesOf(outs) <= EntriesOf(in0) + EntriesOf(in1);
    InstallKeepsLevels(v, w, level, in0, in1, outs);
    hide Installs, LevelsOk, Chosen, TableOk, EntriesOf, NoGap, NoneOverlaps, Apart, Installed, TablesSorted;
    forall f, o | f in w[level + 1] && f !in v[level + 1] && o in outs ensures Apart(f, o) {
      OneOfMany(outs, o);
      TableIsOk(w, level + 1, f);
      NewTableApart(v, level, in0, in1, f, o);
    }
  }

  lemma NewTableApart(v: Version, level: nat, in0: seq<Table>, in1: seq<Table>, f: Table, o: Table)
    requires LevelsOk(v) && Chosen(v, level, in0, in1) && NoGap(in0 + in1) && TableOk(f)
    requires NoneOverlaps(in0 + in1, f.Smallest().key, f.Largest().key)
    requires Elements(o.contents) <= EntriesOf(in0) + EntriesOf(in1)
    ensures Apart(f, o)
  {
    hide LevelsOk, EntriesOf, NoGap, NoneOverlaps, TableOk, Picked, Closed;
    PickedWithin(v, level, in0);
    var smallest, largest := ChosenParts(v, level, in0, in1);
    AllTablesOk(v, level, in0, in1);
    hide Chosen;
    var first, last := o.Smallest(), o.Largest();
    assert first in Elements(o.contents) && last in Elements(o.contents);
    var m, g := InputTable(v, level, in0, in1, first);
    var n, h := InputTable(v, level, in0, in1, last);
    WithinOk(g, first);
    WithinOk(h, last);
    OneSide(in0 + in1, f, g, h);
  }

  lemma WithinOk(f: Table, e: Entry)
    requires TableOk(f) && e in f.contents
    ensures f.Smallest().key <= e.key <= f.Largest().key
  {
    WithinTable(f, e);
  }

  // ----- a memtable flushed into a gap -----

  /** Two tables of level 1 with a gap between them, and nothing else. */
  predicate Gap(v: Version, f: Table, g: Table, x: Entry, z: Entry) {
    && v[1] == [f, g] && (forall l :: 0 <= l < NUM_LEVELS && l != 1 ==> v[l] == [])
    && f.contents == [x] && g.contents == [z] && x.key < z.key && Parses(x) && Parses(z)
    && x.sn <= MAX_SEQUENCE && z.sn <= MAX_SEQUENCE
  }

  lemma GapTables(f: Table, g: Table, x: Entry, z: Entry)
    requires f.contents == [x] && g.contents == [z] && x.key < z.key && Parses(x) && Parses(z)
    requires x.sn <= MAX_SEQUENCE && z.sn <= MAX_SEQUENCE
    ensures TableOk(f) && TableOk(g) && f != g && TablesSorted([f, g]) && Ordered([f, g])
    ensures EntriesOf([f, g]) == {x, z} && NoClash({x, z}) && EntriesOf([]) == {}
  {
    FewTables(f, g);
    assert f.contents[0] == x && g.contents[0] == z;
  }

  lemma GapOk(v: Version, f: Table, g: Table, x: Entry, z: Entry)
    requires Gap(v, f, g, x, z)
    ensures LevelsOk(v) && NoClash(AllEntries(v)) && AllEntries(v) == {x, z}
  {
    GapTables(f, g, x, z);
    hide EntriesOf, TableOk, TablesSorted, Ordered, NoClash;
    assert TablesSorted([]) by { NoTablesSorted(); }
    assert Ordered([]) by { NoTablesSorted(); }
    assert forall l :: 0 <= l < NUM_LEVELS ==> EntriesOf(v[l]) == if l == 1 then {x, z} else {};
  }

  lemma NoTablesSorted()
    ensures TablesSorted([]) && Ordered([])
  {
  }

  lemma GapChoice(v: Version, f: Table, g: Table, x: Entry, z: Entry)
    requires Gap(v, f, g, x, z)
    ensures Chosen(v, 1, [f, g], [])
  {
    assert v[1][0..2] == [f, g];
    assert f in [f, g] && g in [f, g] && IsRange([f, g], x, z);
    assert Overlapping(v[2], Some(x.key), Some(z.key)) == [];
    assert Picked(v, 1, [f, g]) && Closed(v[1], [f, g]);
  }

  /** A table whose user keys lie in the gap. */
  predicate InGap(v: Version, f: Table, g: Table, t: Table, o: Table, x: Entry, y: Entry, z: Entry) {
    Gap(v, f, g, x, z) && x.key < y.key < z.key && y.kind.Put? && y.sn <= MAX_SEQUENCE
    && t.contents == [y] && o.contents == [x, z]
  }

  lemma {:induction false} GapPlaced(v: Version, f: Table, g: Table, t: Table, o: Table, x: Entry, y: Entry, z: Entry)
    requires InGap(v, f, g, t, o, x, y, z)
    ensures v[2] == [] && Placed(v[2], t) == [t]
    ensures TablesSorted([o]) && Ordered([o]) && EntriesOf([o]) == {x, z} && Elements(t.contents) == {y} && TableOk(t)
    ensures forall l :: 0 <= l <= 2 ==> NoneOverlaps(v[l], t.Smallest().key, t.Largest().key)
  {
    FewTables(o, o);
    assert o.contents[0] == x && o.contents[1] == z && t.contents[0] == y;
  }

  /** The table may go to level 2, beside a compaction of the two tables it lies between. */
  lemma {:induction false} GapFlush(v: Version, f: Table, g: Table, t: Table, o: Table, x: Entry, y: Entry, z: Entry,
                                    w: Version)
    requires InGap(v, f, g, t, o, x, y, z) && w == v[2 := Placed(v[2], t)]
    ensures w[2] == [t] && LevelsOk(v) && Chosen(v, 1, [f, g], []) && Installs(v, w, 1, [f, g], [], [o])
  {
    hide LevelsOk, Chosen, NoClash, TableOk, EntriesOf, Elements, AllEntries, Ordered, TablesSorted, Placed,
      NoneOverlaps, Grown, Newer;
    GapPlaced(v, f, g, t, o, x, y, z);
    GapOk(v, f, g, x, z);
    GapChoice(v, f, g, x, z);
    GapTables(f, g, x, z);
    GapGrown(v, w, t, y, {x, z});
    FlushKeepsLevels(v, t, 2);
  }

  lemma GapGrown(v: Version, w: Version, t: Table, y: Entry, others: set<Entry>)
    requires v[2] == [] && w == v[2 := [t]] && Elements(t.contents) == {y} && AllEntries(v) == others
    requires forall e :: e in others ==> e.key != y.key
    ensures Grown(v, w) && Newer(Elements(t.contents), AllEntries(v))
  {
    hide AllEntries, Elements;
  }

  lemma {:induction false} GapInstalled(t: Table, o: Table, x: Entry, y: Entry, z: Entry)
    requires x.key < y.key < z.key && t.contents == [y] && o.contents == [x, z]
    ensures PlacedAll(Remaining([t], []), [o]) == [o, t] && !Apart(t, o)
  {
    assert Remaining([t], []) == [t] by { assert [t][1..] == []; }
    assert [o][1..] == [] && Placed([t], o) == [o, t];
  }

  /** A manual compaction takes both tables of the level. While it runs, a memtable whose keys lie in the gap
      is flushed; no table of levels 0 to 2 overlaps it, so it may go to level 2. The output of the compaction,
      installed there too, spans it: a lookup of its user key finds the output first, and nothing in it. */
  lemma {:induction false} FlushIntoGap(v: Version, f: Table, g: Table, t: Table, o: Table, x: Entry, y: Entry,
                                        z: Entry, s: nat, w: Version)
    requires InGap(v, f, g, t, o, x, y, z) && w == v[2 := Placed(v[2], t)] && y.sn <= s
    ensures LevelsOk(v) && Chosen(v, 1, [f, g], []) && Installs(v, w, 1, [f, g], [], [o])
    ensures forall l :: 0 <= l <= 2 ==> NoneOverlaps(v[l], t.Smallest().key, t.Largest().key)
    ensures var n := Installed(w, 1, [f, g], [], [o]);
      && !LevelsOk(n) && n[2] == [o, t] && EndsSplitAt(n[2], SeekKey(y.key, s), 0)
      && NothingVisible(Elements(o.contents), y.key, s) && IsNewest(Elements(t.contents), y.key, s, y)
  {
    hide LevelsOk, Chosen, Installs, Gap, TableOk, EntriesOf, NoneOverlaps, Placed, PlacedAll, Remaining, Apart,
      Ordered, TablesSorted, EndsSplitAt, NothingVisible, IsNewest, Elements;
    GapPlaced(v, f, g, t, o, x, y, z);
    GapFlush(v, f, g, t, o, x, y, z, w);
    GapInstalled(t, o, x, y, z);
    GapSearch(t, o, x, y, z, s);
    InstallKeepsLevels(v, w, 1, [f, g], [], [o]);
    assert t in w[2] && t !in v[2] && o in [o];
  }

  /** The binary search for the lookup key ends at the first of the two. */
  lemma GapSearch(t: Table, o: Table, x: Entry, y: Entry, z: Entry, s: nat)
    requires x.key < y.key < z.key && y.kind.Put? && y.sn <= s && t.contents == [y] && o.contents == [x, z]
    ensures EndsSplitAt([o, t], SeekKey(y.key, s), 0)
    ensures NothingVisible(Elements(o.contents), y.key, s) && IsNewest(Elements(t.contents), y.key, s, y)
  {
    assert t.contents[0] == y;
  }
}
