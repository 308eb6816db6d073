/**
  The levels of the version set under the store: lookups in the tables, and compactions whose inputs the
  version set chose.
 */
module StoreLevels {
  import opened Format
  import opened Store
  import opened StoreInvariant
  import opened StoreSteps
  import opened StoreTheorems
  import opened Versions
  import opened InputChoice
  import opened LevelTheorems
  import M = MemTable
  import C = Compaction

  function Numbers(files: seq<Table>): set<nat> {
    set f | f in files :: f.number
  }

  /** Every table of `v` is on disk under its number, and no two have the same. */
  ghost predicate OnDisk(files: map<nat, set<Entry>>, v: Version) {
    && (forall l, f :: 0 <= l < NUM_LEVELS && f in v[l] ==>
          f.number in files && files[f.number] == Elements(f.contents))
    && forall l, m, f, g :: 0 <= l < NUM_LEVELS && 0 <= m < NUM_LEVELS && f in v[l] && g in v[m] ==>
         (f.number == g.number ==> l == m && f == g)
  }

  /** `v` is the current version, level by level. */
  ghost predicate Describes(d: Db, v: Version) {
    && (forall n :: n in d.current <==> exists l :: 0 <= l < NUM_LEVELS && n in Numbers(v[l]))
    && OnDisk(d.files, v)
  }

  lemma ByTable(d: Db, v: Version, l: int, f: Table)
    requires Describes(d, v) && 0 <= l < NUM_LEVELS && f in v[l]
    ensures f.number in d.current && f.number in d.files && d.files[f.number] == Elements(f.contents)
    ensures forall e :: e in Elements(f.contents) <==> e in f.contents
  {
    assert f.number in Numbers(v[l]);
  }

  lemma ByNumber(d: Db, v: Version, n: nat) returns (l: int, f: Table)
    requires Describes(d, v) && n in d.current
    ensures 0 <= l < NUM_LEVELS && f in v[l] && f.number == n
  {
    l :| 0 <= l < NUM_LEVELS && n in Numbers(v[l]);
    f :| f in v[l] && f.number == n;
  }

  /** Some tables of a level, by number and by what they hold. */
  lemma DescribedTables(d: Db, v: Version, l: int, some: seq<Table>)
    requires Describes(d, v) && 0 <= l < NUM_LEVELS && forall f :: f in some ==> f in v[l]
    ensures TableEntries(Numbers(some), d.files) == EntriesOf(some) && Numbers(some) <= d.current
  {
    hide Describes, Elements;
    forall n | n in Numbers(some) ensures n in d.current {
      var f :| f in some && f.number == n;
      ByTable(d, v, l, f);
    }
    forall e | e in EntriesOf(some) ensures e in TableEntries(Numbers(some), d.files) {
      var f :| f in some && e in f.contents;
      ByTable(d, v, l, f);
      assert f.number in Numbers(some);
    }
    forall e | e in TableEntries(Numbers(some), d.files) ensures e in EntriesOf(some) {
      var n :| n in Numbers(some) && n in d.files && e in d.files[n];
      var f :| f in some && f.number == n;
      ByTable(d, v, l, f);
    }
  }

  lemma DescribedAll(d: Db, v: Version)
    requires Describes(d, v)
    ensures TableEntries(d.current, d.files) == AllEntries(v)
  {
    hide Describes, Elements, Numbers;
    forall e | e in AllEntries(v) ensures e in TableEntries(d.current, d.files) {
      var l :| 0 <= l < NUM_LEVELS && e in EntriesOf(v[l]);
      var f :| f in v[l] && e in f.contents;
      ByTable(d, v, l, f);
    }
    forall e | e in TableEntries(d.current, d.files) ensures e in AllEntries(v) {
      var n :| n in d.current && n in d.files && e in d.files[n];
      var l, f := ByNumber(d, v, n);
      ByTable(d, v, l, f);
      assert e in EntriesOf(v[l]);
    }
  }

  // ----- looking up -----

  /** DBImpl::Get with the tables searched level by level: one map. */
  lemma LevelsAreFlat(d: Db, v: Version, k: UserKey, s: nat, inMem: M.Lookup, inImm: M.Lookup, inTables: M.Lookup)
    requires Inv(d) && Describes(d, v)
    requires M.Answers(d.mem, k, s, inMem)
    requires inMem.Absent? ==> M.Answers(ImmOf(d), k, s, inImm)
    requires inMem.Absent? && inImm.Absent? ==> M.Answers(AllEntries(v), k, s, inTables)
    ensures M.AsRead(if !inMem.Absent? then inMem else if !inImm.Absent? then inImm else inTables)
         == Read(View(d), k, s)
  {
    hide Inv, Describes, M.Answers, View, Read, TableEntries, AllEntries;
    DescribedAll(d, v);
    GetIsFlat(d, k, s, inMem, inImm, inTables);
  }

  // ----- starting a compaction -----

  /** The tables below the next level. */
  function Below2(v: Version, level: nat): set<nat> {
    set l, f | level + 2 <= l < NUM_LEVELS && f in v[l] :: f.number
  }

  /** The inputs by number, and what the loop keeps of them. */
  function Inputs(in0: seq<Table>, in1: seq<Table>): set<nat> {
    Numbers(in0) + Numbers(in1)
  }

  ghost function KeptOf(d: Db, v: Version, level: nat, es: seq<Entry>): set<Entry> {
    Elements(C.Kept(es, C.INIT, SmallestSnapshot(d), k => IsBase(v, level, k)))
  }

  /** A moment at which BackgroundCompaction takes tables the version set has chosen. */
  ghost predicate Starts(d: Db, v: Version, level: nat, in0: seq<Table>, in1: seq<Table>, es: seq<Entry>) {
    && Inv(d) && Describes(d, v) && LevelsOk(v) && Chosen(v, level, in0, in1)
    && Sorted(es) && Elements(es) == EntriesOf(in0) + EntriesOf(in1) && SmallestSnapshot(d) < MAX_SEQUENCE
    && d.imm.None? && d.flush.NoFlush? && d.comp.NoCompaction? && !d.bgError
  }

  lemma InputTables(d: Db, v: Version, level: nat, in0: seq<Table>, in1: seq<Table>)
    requires Describes(d, v) && Chosen(v, level, in0, in1)
    ensures level + 1 < NUM_LEVELS && Inputs(in0, in1) <= d.current
    ensures TableEntries(Inputs(in0, in1), d.files) == EntriesOf(in0) + EntriesOf(in1)
  {
    hide Describes, Picked, Closed, EntriesOf, TableEntries, Numbers;
    PickedWithin(v, level, in0);
    var smallest, largest := ChosenParts(v, level, in0, in1);
    DescribedTables(d, v, level, in0);
    DescribedTables(d, v, level + 1, in1);
    TableUnion(Numbers(in0), Numbers(in1), d.files);
  }

  /** The other tables of the current version hold what was not taken. */
  lemma OtherTables(d: Db, v: Version, level: nat, in0: seq<Table>, in1: seq<Table>)
    requires Describes(d, v) && Chosen(v, level, in0, in1)
    ensures level + 1 < NUM_LEVELS
    ensures TableEntries(d.current - Inputs(in0, in1), d.files) == Untaken(v, level, in0, in1)
  {
    PickedWithin(v, level, in0);
    var smallest, largest := ChosenParts(v, level, in0, in1);
    hide Describes, Chosen, Picked, Closed, Inputs, LeftOf, EntriesOf, Elements, Numbers;
    var rest := d.current - Inputs(in0, in1);
    forall e | e in Untaken(v, level, in0, in1) ensures e in TableEntries(rest, d.files) {
      var l :| 0 <= l < NUM_LEVELS && e in EntriesOf(LeftOf(v, level, in0, in1, l));
      var f := TableOf(LeftOf(v, level, in0, in1, l), e);
      LeftIsThere(v, level, in0, in1, l, f);
      ByTable(d, v, l, f);
      TakenByNumber(d, v, level, in0, in1, l, f);
    }
    forall e | e in TableEntries(rest, d.files) ensures e in Untaken(v, level, in0, in1) {
      var n :| n in rest && n in d.files && e in d.files[n];
      var l, f := ByNumber(d, v, n);
      ByTable(d, v, l, f);
      TakenByNumber(d, v, level, in0, in1, l, f);
      InEntries(LeftOf(v, level, in0, in1, l), f, e);
    }
  }

  lemma InEntries(files: seq<Table>, f: Table, e: Entry)
    requires f in files && e in f.contents
    ensures e in EntriesOf(files)
  {
  }

  lemma LeftIsThere(v: Version, level: nat, in0: seq<Table>, in1: seq<Table>, l: int, f: Table)
    requires 0 <= l < NUM_LEVELS && f in LeftOf(v, level, in0, in1, l)
    ensures f in v[l]
  {
  }

  lemma TakenByNumber(d: Db, v: Version, level: nat, in0: seq<Table>, in1: seq<Table>, l: int, f: Table)
    requires Describes(d, v) && level + 1 < NUM_LEVELS && 0 <= l < NUM_LEVELS && f in v[l]
    requires (forall g :: g in in0 ==> g in v[level]) && forall g :: g in in1 ==> g in v[level + 1]
    ensures f.number in Inputs(in0, in1) <==> f !in LeftOf(v, level, in0, in1, l)
  {
    if f.number in Numbers(in0) {
      var g :| g in in0 && g.number == f.number;
    }
    if f.number in Numbers(in1) {
      var g :| g in in1 && g.number == f.number;
    }
  }

  /** Everything in memory is newer than what is in tables, and nothing clashes. */
  lemma StartCompacts(d: Db, v: Version, level: nat, in0: seq<Table>, in1: seq<Table>, es: seq<Entry>)
    requires Starts(d, v, level, in0, in1, es)
    ensures Compacts(v, level, in0, in1, es, d.mem, SmallestSnapshot(d))
    ensures C.GoodInput(es, SmallestSnapshot(d)) && Elements(es) <= AllEntries(v)
  {
    hide Inv, Describes, LevelsOk, Chosen, Elements, EntriesOf, AllEntries, TableEntries, Below, NoClash, Sorted,
      SmallestSnapshot;
    DescribedAll(d, v);
    LayersOrdered(d);
    assert ImmOf(d) + AllEntries(v) == AllEntries(v);
    AllInputsParse(v, level, in0, in1, es);
    BelowIsNewer(d.mem, AllEntries(v));
    NoClashSubset(Elements(es), View(d));
  }

  lemma BelowIsNewer(above: set<Entry>, below: set<Entry>)
    requires Below(below, above)
    ensures Newer(above, below)
  {
  }

  /** The state after that. */
  ghost function StartedOn(d: Db, v: Version, level: nat, in0: seq<Table>, in1: seq<Table>, es: seq<Entry>): Db {
    d.(comp := Compacting(Inputs(in0, in1), Below2(v, level), SmallestSnapshot(d), KeptOf(d, v, level, es), {}, None))
  }

  /** What the version set chooses, and what the loop keeps of it, meets the guard of the protocol. */
  lemma ChoiceMayStart(d: Db, v: Version, level: nat, in0: seq<Table>, in1: seq<Table>, es: seq<Entry>)
    requires Starts(d, v, level, in0, in1, es)
    ensures StepOf(d, StartCompaction(Inputs(in0, in1), Below2(v, level), KeptOf(d, v, level, es)),
                   StartedOn(d, v, level, in0, in1, es))
  {
    hide Inv, Describes, LevelsOk, Chosen, Inputs, Below2, KeptOf, TableEntries, EntriesOf, AllEntries, C.GoodDrop,
      SmallestSnapshot, Readable, Elements, Sorted;
    ChoiceIsGood(d, v, level, in0, in1, es);
  }

  lemma ChoiceIsGood(d: Db, v: Version, level: nat, in0: seq<Table>, in1: seq<Table>, es: seq<Entry>)
    requires Starts(d, v, level, in0, in1, es)
    ensures Inputs(in0, in1) + Below2(v, level) <= d.current && Inputs(in0, in1) !! Below2(v, level)
    ensures TableEntries(Inputs(in0, in1), d.files) == Elements(es)
    ensures C.GoodDrop(Elements(es), KeptOf(d, v, level, es), TableEntries(Below2(v, level), d.files),
                       SmallestSnapshot(d))
  {
    assert Describes(d, v) && LevelsOk(v) && Chosen(v, level, in0, in1);
    StartCompacts(d, v, level, in0, in1, es);
    InputTables(d, v, level, in0, in1);
    DeepTables(d, v, level, in0, in1);
    assert Elements(es) == EntriesOf(in0) + EntriesOf(in1);
    hide Starts, Describes, LevelsOk, Chosen, Inputs, Below2, TableEntries, EntriesOf, Compacts, IsBase, C.Kept,
      C.GoodDrop, C.GoodInput, SmallestSnapshot, Elements;
    C.KeptIsGoodDrop(es, TableEntries(Below2(v, level), d.files), SmallestSnapshot(d), k => IsBase(v, level, k));
  }

  lemma NotTaken(d: Db, v: Version, level: nat, in0: seq<Table>, in1: seq<Table>, l: int, f: Table)
    requires Describes(d, v) && Chosen(v, level, in0, in1) && level + 2 <= l < NUM_LEVELS && f in v[l]
    ensures f.number in d.current && f.number !in Inputs(in0, in1)
  {
    hide Describes, Picked, Closed, IsRange, Overlapping, Inputs;
    PickedWithin(v, level, in0);
    var smallest, largest := ChosenParts(v, level, in0, in1);
    ByTable(d, v, l, f);
    TakenByNumber(d, v, level, in0, in1, l, f);
  }

  lemma DeepTables(d: Db, v: Version, level: nat, in0: seq<Table>, in1: seq<Table>)
    requires Describes(d, v) && LevelsOk(v) && Chosen(v, level, in0, in1)
    ensures Below2(v, level) <= d.current && Inputs(in0, in1) !! Below2(v, level)
    ensures forall e :: e in TableEntries(Below2(v, level), d.files) ==> !IsBase(v, level, e.key)
  {
    hide Describes, LevelsOk, Chosen, Inputs, IsBase, Elements, EntriesOf, Numbers;
    forall n | n in Below2(v, level) ensures n in d.current && n !in Inputs(in0, in1) {
      var l, f :| level + 2 <= l < NUM_LEVELS && f in v[l] && f.number == n;
      NotTaken(d, v, level, in0, in1, l, f);
    }
    forall e | e in TableEntries(Below2(v, level), d.files) ensures !IsBase(v, level, e.key) {
      var n :| n in Below2(v, level) && n in d.files && e in d.files[n];
      var l, f :| level + 2 <= l < NUM_LEVELS && f in v[l] && f.number == n;
      ByTable(d, v, l, f);
      InEntries(v[l], f, e);
      assert Deeper(v, level, e);
      DeeperIsNotBase(v, level, e);
    }
  }

  /** The rest of the store, as the theorem about the choice sees it. */
  lemma StartedParts(d: Db, v: Version, level: nat, in0: seq<Table>, in1: seq<Table>, es: seq<Entry>)
    requires Starts(d, v, level, in0, in1, es)
    ensures var e := StartedOn(d, v, level, in0, in1, es);
      && level + 1 < NUM_LEVELS && Others(e) == OtherEntries(v, level, in0, in1, d.mem)
      && TableEntries(e.comp.inputs, e.files) == Elements(es) && NoClash(Others(e) + Elements(es))
  {
    hide Inv, Describes, Chosen, LevelsOk, Inputs, Below2, KeptOf, TableEntries, EntriesOf, Untaken, Elements, NoClash,
      Compacts, SmallestSnapshot;
    assert Describes(d, v) && Chosen(v, level, in0, in1);
    StartCompacts(d, v, level, in0, in1, es);
    InputTables(d, v, level, in0, in1);
    OtherTables(d, v, level, in0, in1);
    OthersApart(v, level, in0, in1, es, d.mem, SmallestSnapshot(d));
  }

  /** Whether it brings a value back is known when it starts: it does if and only if a value with which the
      table right behind the chosen ones of the next level begins is uncovered. */
  lemma ChoiceSpoilsExactly(d: Db, v: Version, level: nat, in0: seq<Table>, in1: seq<Table>, es: seq<Entry>)
    requires Starts(d, v, level, in0, in1, es)
    ensures level + 1 < NUM_LEVELS
    ensures var e, isBase := StartedOn(d, v, level, in0, in1, es), (k: UserKey) => IsBase(v, level, k);
      var others, files := Others(e), v[level + 1];
      Spoils(e) <==> exists t, w :: C.Uncovers(others, es, e.comp.ss, isBase, t, w) && SplitOff(files, in1, w)
  {
    hide Starts, Others, OtherEntries, Inputs, Below2, TableEntries, EntriesOf, AllEntries, SmallestSnapshot, Compacts,
      C.GoodInput, C.GoodDrop, C.BringsBack, C.Uncovers, SplitOff, NoClash, Read, C.Kept, IsBase, Elements;
    var e, ss := StartedOn(d, v, level, in0, in1, es), SmallestSnapshot(d);
    StartedParts(d, v, level, in0, in1, es);
    StartCompacts(d, v, level, in0, in1, es);
    ChoiceIsGood(d, v, level, in0, in1, es);
    ChoiceReadsExactly(v, level, in0, in1, es, d.mem, ss);
    C.GoodDropPreservesReads(Others(e), Elements(es), e.comp.kept, TableEntries(Below2(v, level), d.files), ss);
  }

  lemma ClosedNeverSpoils(d: Db, v: Version, level: nat, in0: seq<Table>, in1: seq<Table>, es: seq<Entry>)
    requires Starts(d, v, level, in0, in1, es) && level + 1 < NUM_LEVELS && Closed(v[level + 1], in1)
    ensures !Spoils(StartedOn(d, v, level, in0, in1, es))
  {
    var files := v[level + 1];
    forall w ensures !SplitOff(files, in1, w) {
    }
    hide Starts, Closed, SplitOff, Spoils, C.Uncovers, Others, StartedOn;
    ChoiceSpoilsExactly(d, v, level, in0, in1, es);
  }

  /** Over a run: a compaction of tables that were chosen at step `i` and are closed in both levels is installed
      at step `j` without any read from its snapshot on changing. */
  lemma ClosedCompactionUnnoticed(run: seq<Db>, evs: seq<Event>, i: nat, j: nat, v: Version, level: nat,
                                  in0: seq<Table>, in1: seq<Table>, es: seq<Entry>, k: UserKey, s: nat)
    requires Calm(run, evs, i, j + 1) && i < j && Starts(run[i], v, level, in0, in1, es)
    requires run[i + 1] == StartedOn(run[i], v, level, in0, in1, es)
    requires level + 1 < NUM_LEVELS && Closed(v[level + 1], in1)
    requires forall n :: i < n <= j ==> run[n].comp.Compacting?
    requires evs[j].CompactionInstalled? && evs[j].installed && run[j].comp.ss <= s
    ensures Read(View(run[j + 1]), k, s) == Read(View(run[j]), k, s)
  {
    hide Inv, Enabled, Apply, Starts, StartedOn, Closed, Spoils, View, Read;
    ClosedNeverSpoils(run[i], v, level, in0, in1, es);
    SpoilsFromStart(run, evs, i + 1, j);
    RunsAreSafe(run, evs, j);
    assert StepOf(run[j], evs[j], run[j + 1]);
    hide StepOf;
    CompactionReadsExactly(run[j], evs[j].committed, run[j + 1]);
  }
}
