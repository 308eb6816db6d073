/**
  What the store promises, over every run.
 */
module StoreTheorems {
  import opened Format
  import opened Store
  import opened StoreInvariant
  import opened StoreSteps
  import opened MemTable
  import C = Compaction

  /** A new database: NewDB's descriptor, opened once. */
  ghost function Created(): Db {
    Db([], Ready, 0, {}, None, 3, false, [], {}, 3, [], {}, 4, NoFlush, NoCompaction,
       map[3 := []], map[], map[], Manifest({}, 3, 0, 4), {}, 0, [], {}, 0, [], [], [], [], [], 0, 0,
       false)
  }

  lemma CreatedData()
    ensures Data(Created())
  {
    var d := Created();
    TableOne(0, d.files);
    assert Logged([]) == {} && LogsBetween(d.logs, 3, 3) == {} && LogsFrom(d.logs, 3) == {};
    hide TableEntries, Logged, LogsBetween, LogsFrom, Read;
    assert Rest(d) == {} && Unapplied(d) == {} && View(d) == {} && Durable(d) == {};
    assert Intended(d) == {} && Secured(d) == {};
    hide Rest, Unapplied, View, Durable, Intended, Secured;
  }

  lemma CreatedInv()
    ensures Inv(Created())
  {
    hide Data, TableEntries, UpTo;
    var d := Created();
    CreatedData();
    TableOne(0, d.files);
    assert AttemptedOps([]) == [] && TakenOps([], []) == [];
    assert Kept([], [], 0, 4) == [] == Kept([], [], 3, 4) && Applied([], [], Ready) == [];
    assert UpTo({}, 0) by { NothingAbove(); }
    hide Kept, Applied;
  }

  lemma NothingAbove()
    ensures UpTo({}, 0)
  {
  }

  lemma EventKeeps(d: Db, ev: Event)
    requires Inv(d) && Enabled(d, ev)
    ensures Inv(Apply(d, ev))
  {
    hide Inv, Enabled, Apply;
    match ev
    case Enqueue(w) => EnqueueKeeps(d, w);
    case Refuse => RefuseKeeps(d);
    case Switch => SwitchKeeps(d);
    case Begin => BeginKeeps(d);
    case Append(o) => AppendKeeps(d, o);
    case InsertNext => InsertKeeps(d);
    case Finish => FinishKeeps(d);
    case GetSnapshot => GetSnapshotKeeps(d);
    case ReleaseSnapshot(i) => ReleaseSnapshotKeeps(d, i);
    case OpenReader => OpenReaderKeeps(d);
    case CloseReader(i) => CloseReaderKeeps(d, i);
    case StartFlush => StartFlushKeeps(d);
    case FlushBuilt(built) => FlushBuiltKeeps(d, built);
    case FlushInstalled(installed, committed) => FlushInstalledKeeps(d, installed, committed);
    case StartCompaction(inputs, deeper, kept) => StartCompactionKeeps(d, inputs, deeper, kept);
    case CompactionOutput(entries) => OutputKeeps(d, entries);
    case SealCompaction => SealCompactionKeeps(d);
    case AbortCompaction => AbortCompactionKeeps(d);
    case CompactionInstalled(installed, committed) => CompactionInstalledKeeps(d, installed, committed);
    case CrashAndReopen(found, rebuilt, newLog) => ReopenKeeps(d, found, rebuilt, newLog);
  }

  /** A run from a new database: states and the events between them. */
  ghost predicate IsRun(run: seq<Db>, evs: seq<Event>) {
    && |run| == |evs| + 1 && run[0] == Created()
    && forall i :: 0 <= i < |evs| ==> StepOf(run[i], evs[i], run[i + 1])
  }

  ghost predicate StepOf(d: Db, ev: Event, e: Db) {
    Enabled(d, ev) && e == Apply(d, ev)
  }

  /** Every state of every run, crashes included, satisfies the invariant. */
  lemma {:induction false} RunsAreSafe(run: seq<Db>, evs: seq<Event>, i: nat)
    requires IsRun(run, evs) && i < |run|
    ensures Inv(run[i])
  {
    hide Inv, Enabled, Apply;
    if i == 0 {
      CreatedInv();
    } else {
      RunsAreSafe(run, evs, i - 1);
      assert StepOf(run[i - 1], evs[i - 1], run[i]);
      EventKeeps(run[i - 1], evs[i - 1]);
    }
  }

  /** A stretch of a run without a crash. */
  ghost predicate Calm(run: seq<Db>, evs: seq<Event>, i: nat, j: nat) {
    IsRun(run, evs) && i <= j < |run| && forall n :: i <= n < j ==> !evs[n].CrashAndReopen?
  }

  // ----- snapshots -----

  /** No event but a crash changes which entries numbered up to LastSequence readers must see. */
  lemma IntendedStable(d: Db, ev: Event)
    requires Inv(d) && Enabled(d, ev) && !ev.CrashAndReopen?
    ensures forall x: Entry :: x.sn <= d.lastSequence ==> (x in Intended(d) <==> x in Intended(Apply(d, ev)))
    ensures d.horizon <= Apply(d, ev).horizon && d.lastSequence <= Apply(d, ev).lastSequence
  {
    hide Inv, Intended, Enabled, Settled, Inserted;
    match ev
    case Append(o) => AppendIntended(d, o);
    case InsertNext => InsertIntended(d);
    case Finish => FinishIntended(d);
    case _ => RestIntended(d, ev);
  }

  lemma RestIntended(d: Db, ev: Event)
    requires Enabled(d, ev) && !ev.CrashAndReopen? && !ev.Append? && !ev.InsertNext? && !ev.Finish?
    ensures var e := Apply(d, ev);
      Intended(e) == Intended(d) && d.horizon <= e.horizon && d.lastSequence <= e.lastSequence
  {
    hide Enabled, Apply, Logged, Suffix;
    RestSame(d, ev);
  }

  lemma InsertIntended(d: Db)
    requires Inv(d) && Enabled(d, InsertNext)
    ensures var e := Inserted(d); var x := EntryOf(d.phase.r, d.phase.i);
      && Intended(e) == Intended(d) + {x} && x.sn > d.lastSequence
      && e.horizon == d.horizon && e.lastSequence == d.lastSequence
  {
    hide Order, Meaning, Control, Queue, Coverage, Placement, Journal, UpTo, Unique, Disjoint, Intended, Logged,
      Unapplied;
    var x := InsertSets(d);
  }

  lemma FinishIntended(d: Db)
    requires Inv(d) && Enabled(d, Finish)
    ensures Intended(Finished(d)) == Intended(d)
  {
    hide Control, Queue, Coverage, Journal, Meaning, Logged, Unapplied, Order, Placement, Numbering, Refusals;
    FinishOrder(d);
  }

  lemma AppendIntended(d: Db, o: Outcome)
    requires Inv(d) && Enabled(d, Append(o))
    ensures var e := Settled(d, o);
      Intended(e) == Intended(d) && e.horizon == d.horizon && e.lastSequence == d.lastSequence
  {
    hide Order, Meaning, Control, Queue, Coverage, Journal;
    if Stored(o) {
      AppendPlacement(d, o);
    }
    hide Numbering, Refusals, Placement, Logged;
  }

  /** The events of writers and readers that neither log nor insert. */
  predicate Foreground(ev: Event) {
    ev.Enqueue? || ev.Refuse? || ev.Switch? || ev.Begin? || ev.GetSnapshot? || ev.ReleaseSnapshot? || ev.OpenReader?
    || ev.CloseReader?
  }

  ghost predicate SameRecords(d: Db, e: Db) {
    && e.origin == d.origin && e.records == d.records && e.refused == d.refused
    && (e.phase == d.phase || !(e.phase.Applying? || d.phase.Applying?))
    && d.horizon <= e.horizon && d.lastSequence <= e.lastSequence
    && ((e.logNumber == d.logNumber && e.mem == d.mem) || (e.logNumber == d.nextFile && e.mem == {}))
  }

  /** A compaction that goes on is the same one. */
  ghost predicate SameInputs(d: Db, e: Db) {
    d.comp.Compacting? && e.comp.Compacting? ==>
      e.comp.inputs == d.comp.inputs && e.comp.kept == d.comp.kept && e.comp.ss == d.comp.ss
  }

  /** No table is touched; at most the memtable becomes the immutable one. */
  ghost predicate SameTables(d: Db, e: Db) {
    && e.current == d.current && e.files == d.files && d.logs.Keys <= e.logs.Keys
    && ((e.mem == d.mem && e.imm == d.imm) || (d.imm.None? && e.imm == Some(d.mem) && e.mem == {}))
  }

  lemma ForegroundSame(d: Db, ev: Event)
    requires Enabled(d, ev) && Foreground(ev)
    ensures var e := Apply(d, ev); SameRecords(d, e) && SameInputs(d, e) && SameTables(d, e)
  {
    hide GroupOps, GroupEnd, AllTaken, TableEntries, C.GoodDrop, C.BringsBack, Readable, SmallestSnapshot;
  }

  /** Deleting files changes nothing else. */
  lemma CollectSame(d: Db)
    ensures var e := Collect(d); e == d.(files := e.files, logs := e.logs, torn := e.torn)
    ensures var e := Collect(d); forall n :: n in d.logs && d.versionLog <= n ==> n in e.logs && e.logs[n] == d.logs[n]
  {
    hide Live;
  }

  lemma FlushSame(d: Db, ev: Event)
    requires Enabled(d, ev) && (ev.StartFlush? || ev.FlushBuilt? || ev.FlushInstalled?)
    ensures var e := Apply(d, ev); SameRecords(d, e) && SameInputs(d, e)
  {
    hide TableEntries, AfterFlush, FlushTables, Collect, Readable, SmallestSnapshot, C.GoodDrop, FlushDone, Built;
    if ev.FlushInstalled? && ev.installed {
      FlushDoneSame(d);
      CollectSame(FlushDone(d));
    } else if ev.FlushBuilt? && ev.built {
      BuiltSame(d);
    }
  }

  lemma FlushDoneSame(d: Db)
    requires d.flush.Installing?
    ensures SameRecords(d, FlushDone(d)) && SameInputs(d, FlushDone(d))
  {
    hide AfterFlush, FlushTables;
  }

  lemma BuiltSame(d: Db)
    requires d.flush.Building? && d.imm.Some?
    ensures SameRecords(d, Built(d)) && SameInputs(d, Built(d))
  {
  }

  lemma CompactionSame(d: Db, ev: Event)
    requires Enabled(d, ev)
    requires ev.StartCompaction? || ev.CompactionOutput? || ev.SealCompaction? || ev.AbortCompaction?
      || ev.CompactionInstalled?
    ensures var e := Apply(d, ev);
      SameRecords(d, e) && SameInputs(d, e) && (ev.CompactionInstalled? ==> !e.comp.Compacting?)
  {
    hide TableEntries, AfterCompaction, Spoils, Collect, Readable, SmallestSnapshot, C.GoodDrop;
    if ev.CompactionInstalled? && ev.installed {
      CollectSame(CompactionDone(d));
    }
  }

  lemma RestSame(d: Db, ev: Event)
    requires Enabled(d, ev) && !ev.CrashAndReopen? && !ev.Append? && !ev.InsertNext? && !ev.Finish?
    ensures var e := Apply(d, ev);
      SameRecords(d, e) && SameInputs(d, e) && (ev.CompactionInstalled? ==> !e.comp.Compacting?)
  {
    hide Enabled, Apply, SameRecords, SameInputs;
    if Foreground(ev) {
      ForegroundSame(d, ev);
    } else if ev.StartFlush? || ev.FlushBuilt? || ev.FlushInstalled? {
      FlushSame(d, ev);
    } else {
      CompactionSame(d, ev);
    }
  }

  /** The events that leave what readers search as it is; only files come and go, or a memtable changes places. */
  predicate Rearranges(ev: Event) {
    !ev.CrashAndReopen? && !ev.InsertNext? && !(ev.CompactionInstalled? && ev.installed)
  }

  /** What readers search besides the tables `gone`. */
  ghost function Without(d: Db, gone: set<nat>): set<Entry> {
    d.mem + ImmOf(d) + TableEntries(d.current - gone, d.files)
  }

  lemma WithoutNone(d: Db)
    ensures Without(d, {}) == View(d)
    ensures d.comp.Compacting? ==> Without(d, d.comp.inputs) == Others(d)
  {
    assert d.current - {} == d.current;
    hide TableEntries;
  }

  lemma BuiltView(d: Db, gone: set<nat>)
    requires Inv(d) && d.flush.Building? && d.imm.Some?
    ensures Without(Built(d), gone) == Without(d, gone)
  {
    hide Data, Queue, Coverage, Journal, Edits, Guard, Listed, Snaps, CompactionFiles;
    assert Files(d) && Flushing(d) && CompactionFiles(d) && d.flush.number !in d.current + d.manifest.tables;
    hide Control, Files, Flushing, TableEntries;
    NewFileUnseen(d, d.flush.number, d.imm.value);
  }

  lemma OutputView(d: Db, entries: set<Entry>, gone: set<nat>)
    requires Inv(d) && d.comp.Compacting?
    ensures Without(OutputWritten(d, entries), gone) == Without(d, gone)
  {
    hide Data, Queue, Coverage, Journal, Edits, Guard, Listed, Snaps, CompactionFiles;
    assert Files(d) && Flushing(d) && CompactionFiles(d) && d.nextFile !in d.current + d.manifest.tables;
    hide Control, Files, Flushing, TableEntries;
    NewFileUnseen(d, d.nextFile, entries);
  }

  lemma FlushDoneView(d: Db, gone: set<nat>)
    requires Inv(d) && d.flush.Installing? && gone <= d.current
    ensures Without(Collect(FlushDone(d)), gone) == Without(d, gone)
  {
    hide Data, Queue, Coverage, Journal, Edits, Files, Guard, Listed, Snaps, CompactionFiles, Flushing;
    assert Flushing(d);
    hide Control, Collect, TableEntries;
    var add := FlushTables(d, d.flush.number);
    assert TableEntries(add, d.files) == ImmOf(d) && add !! gone by { FlushTable(d); }
    hide Flushing, FlushTables;
    assert d.current + add - gone == (d.current - gone) + add;
    TableUnion(d.current - gone, add, d.files);
    CollectedView(FlushDone(d), gone);
  }

  lemma FlushTable(d: Db)
    requires Flushing(d) && d.flush.Installing?
    ensures var add := FlushTables(d, d.flush.number); TableEntries(add, d.files) == ImmOf(d) && add !! d.current
  {
    TableOne(d.flush.number, d.files);
  }

  lemma SameLayers(d: Db, e: Db, gone: set<nat>)
    requires SameTables(d, e)
    ensures Without(e, gone) == Without(d, gone)
  {
    hide TableEntries;
  }

  lemma CollectedView(d: Db, gone: set<nat>)
    ensures Without(Collect(d), gone) == Without(d, gone)
  {
    hide TableEntries, Live;
    if !d.bgError {
      assert d.current <= Live(d) + d.pending by { CurrentIsLive(d); }
      CollectKeepsFiles(d, d.current - gone);
    }
  }

  lemma CurrentIsLive(d: Db)
    ensures d.current <= Live(d)
  {
  }

  lemma RearrangedView(d: Db, ev: Event, e: Db, gone: set<nat>)
    requires Inv(d) && StepOf(d, ev, e) && Rearranges(ev) && gone <= d.current
    ensures Without(e, gone) == Without(d, gone)
  {
    hide Inv, Without;
    if Foreground(ev) {
      hide Enabled, Apply, SameRecords, SameInputs;
      ForegroundSame(d, ev);
      SameLayers(d, e, gone);
    } else if ev.Append? || ev.Finish? {
      hide Enabled, Apply, SameInputs;
      WriteSame(d, ev);
      SameLayers(d, e, gone);
    } else {
      hide Foreground, TableEntries, Readable, AfterFlush, AfterCompaction, SmallestSnapshot, Spoils, C.GoodDrop, Built,
        FlushDone, Collect, OutputWritten;
      match ev
      case FlushBuilt(built) => {
        if built {
          BuiltView(d, gone);
        } else {
          SameLayers(d, e, gone);
        }
      }
      case FlushInstalled(installed, committed) => {
        if installed {
          FlushDoneView(d, gone);
        } else {
          SameLayers(d, e, gone);
        }
      }
      case CompactionOutput(entries) => OutputView(d, entries, gone);
      case _ => SameLayers(d, e, gone);
    }
  }

  /** What a compaction's installation does to readers is decided by what it dropped. */
  lemma InstalledView(d: Db)
    requires Inv(d) && Installable(d)
    ensures SameReads(View(d), View(Collect(CompactionDone(d))), d.comp.ss) <==> !Spoils(d)
  {
    hide Data, Control, Queue, Coverage, Journal, CompactionDone, Spoils, SameReads, View, Collect;
    CompactionParts(d);
    InstalledReads(d);
    CollectedView(CompactionDone(d), {});
    WithoutNone(CompactionDone(d));
    WithoutNone(Collect(CompactionDone(d)));
  }

  /** Readers from its snapshot on notice the installation of a compaction if and only if it brings a value
      back. */
  lemma CompactionReadsExactly(d: Db, committed: bool, e: Db)
    requires Inv(d) && StepOf(d, CompactionInstalled(true, committed), e)
    ensures d.comp.Compacting?
    ensures (forall k, s: nat :: d.comp.ss <= s ==> Read(View(e), k, s) == Read(View(d), k, s)) <==> !Spoils(d)
  {
    hide Inv, CompactionDone, Spoils, View, Collect, Read;
    InstalledView(d);
  }

  /** A read at a published sequence number is not changed by any event but a crash: not by writes half
      done, switches, flushes or collected files, and from its snapshot on not by a compaction either,
      unless that brings a value back. */
  lemma ReadsAreStable(d: Db, ev: Event, e: Db, k: UserKey, s: nat)
    requires Inv(d) && StepOf(d, ev, e) && !ev.CrashAndReopen? && s <= d.lastSequence
    requires ev.CompactionInstalled? && ev.installed ==> e.horizon <= s && !Spoils(d)
    ensures Read(View(e), k, s) == Read(View(d), k, s)
  {
    hide Inv, StepOf, View, Spoils, NoClash, Without, Others;
    if Rearranges(ev) {
      RearrangedView(d, ev, e, {});
      WithoutNone(d);
      WithoutNone(e);
    } else if ev.InsertNext? {
      InsertedView(d, e);
      ReadDependsOnVisible(View(d), View(e), k, s);
    } else {
      CompactionReadsExactly(d, ev.committed, e);
      assert d.comp.ss <= s by { HorizonRises(d, ev.committed, e); }
    }
  }

  lemma HorizonRises(d: Db, committed: bool, e: Db)
    requires StepOf(d, CompactionInstalled(true, committed), e)
    ensures d.comp.Compacting? && d.comp.ss <= e.horizon
  {
    hide AfterCompaction, Spoils, Live;
  }

  lemma InsertStep(d: Db, e: Db)
    requires StepOf(d, InsertNext, e)
    ensures d.phase.Applying? && d.phase.i < |d.phase.r.ops| && e == Inserted(d)
  {
    hide Inserted;
  }

  lemma InsertedView(d: Db, e: Db)
    requires Inv(d) && StepOf(d, InsertNext, e)
    ensures forall x: Entry :: x.sn <= d.lastSequence ==> (x in View(d) <==> x in View(e))
    ensures NoClash(View(d)) && NoClash(View(e))
  {
    hide Control, Queue, Coverage, Journal, Meaning, Order, View, Intended, NoClash, StepOf, Inserted;
    InsertStep(d, e);
    var x := InsertViews(d);
    NextIsLater(d);
    hide Data;
    NoClashSubset(View(d), Intended(e));
    NoClashSubset(View(e), Intended(e));
  }

  /** What readers find in memory and tables is what was written, as long as no compaction has brought
      a value back. */
  lemma IntendedReads(d: Db, k: UserKey, s: nat)
    requires Inv(d) && !d.spoilt && d.horizon <= s
    ensures Read(View(d), k, s) == Read(Intended(d), k, s) && NoClash(Intended(d))
  {
    hide Control, Queue, Coverage, Journal, Placement, Order;
    DataMeaning(d);
    KnownUnique(d);
    IntendedApart(d);
    NoClashSubset(Intended(d), Known(d));
  }

  // ----- compactions that bring a value back -----

  /** What is added to the rest of the store above the smallest snapshot is not asked. */
  lemma BringsBackBelow(others: set<Entry>, more: set<Entry>, es: set<Entry>, kept: set<Entry>, ss: nat)
    requires forall x: Entry :: x.sn <= ss ==> (x in others <==> x in more)
    ensures C.BringsBack(others, es, kept, ss) == C.BringsBack(more, es, kept, ss)
  {
    forall t: Entry ensures IsNewest(others + es, t.key, ss, t) == IsNewest(more + es, t.key, ss, t) {
    }
    forall t: Entry, v: Entry | t.sn <= ss ensures C.Covered(others, t, v) == C.Covered(more, t, v) {
    }
    hide C.Covered;
  }

  /** The events of the writer in front change no compaction, and only the insertion a memtable. */
  lemma WriteSame(d: Db, ev: Event)
    requires Enabled(d, ev) && (ev.Append? || ev.InsertNext? || ev.Finish?)
    ensures var e := Apply(d, ev);
      SameInputs(d, e) && d.logs.Keys <= e.logs.Keys && (ev.InsertNext? || SameTables(d, e))
  {
    hide Inserted, Finished, Settled;
    match ev
    case Append(o) => SettledSame(d, o);
    case InsertNext => InsertedSame(d);
    case Finish => FinishedSame(d);
  }

  ghost predicate SameMemTable(d: Db, e: Db) {
    e.mem == d.mem && e.logNumber == d.logNumber && d.lastSequence <= e.lastSequence
  }

  lemma SettledSame(d: Db, o: Outcome)
    requires d.phase.Logging? && d.logNumber in d.logs
    ensures var e := Settled(d, o); e.comp == d.comp && SameTables(d, e) && SameMemTable(d, e)
  {
    hide AllOf, Tears, Applies, Stored;
  }

  lemma InsertedSame(d: Db)
    requires d.phase.Applying? && d.phase.i < |d.phase.r.ops|
    ensures var e := Inserted(d); e.comp == d.comp && e.logs == d.logs
  {
  }

  lemma FinishedSame(d: Db)
    requires !d.phase.Ready?
    ensures var e := Finished(d); e.comp == d.comp && SameTables(d, e) && SameMemTable(d, e)
  {
  }

  lemma SameCompaction(d: Db, ev: Event, e: Db)
    requires StepOf(d, ev, e) && !ev.CrashAndReopen? && d.comp.Compacting? && e.comp.Compacting?
    ensures SameInputs(d, e) && (Rearranges(ev) || ev.InsertNext?)
  {
    hide Enabled, Apply, SameRecords, SameInputs;
    if ev.Append? || ev.InsertNext? || ev.Finish? {
      WriteSame(d, ev);
    } else {
      RestSame(d, ev);
    }
  }

  lemma InputsListed(d: Db)
    requires Inv(d) && d.comp.Compacting?
    ensures d.comp.inputs <= d.current && d.comp.ss <= d.lastSequence
  {
    hide Data, Queue, Coverage, Journal, Edits, Files, Flushing, Listed, Snaps, C.GoodDrop, TableEntries;
  }

  lemma CompactionGoesOn(d: Db, ev: Event, e: Db)
    requires Inv(d) && StepOf(d, ev, e) && !ev.CrashAndReopen? && d.comp.Compacting? && e.comp.Compacting?
    ensures e.comp.inputs == d.comp.inputs <= d.current && e.comp.kept == d.comp.kept
      && e.comp.ss == d.comp.ss <= d.lastSequence
    ensures Rearranges(ev) || ev.InsertNext?
    ensures TableEntries(d.comp.inputs, e.files) == TableEntries(d.comp.inputs, d.files)
  {
    hide Inv, Enabled, Apply, TableEntries;
    SameCompaction(d, ev, e);
    EventKeeps(d, ev);
    InputsListed(d);
    InputsListed(e);
    NoLiveFileCollected(d, ev);
    CurrentIsLive(e);
    FilesInUseExist(d);
    CurrentIsLive(d);
    hide Live;
    TableFrame(d.comp.inputs, d.files, e.files);
  }

  lemma OthersSettled(d: Db, ev: Event, e: Db)
    requires Inv(d) && StepOf(d, ev, e) && !ev.CrashAndReopen? && d.comp.Compacting? && e.comp.Compacting?
    ensures e.comp.ss == d.comp.ss <= d.lastSequence
    ensures forall x: Entry :: x.sn <= d.lastSequence ==> (x in Others(d) <==> x in Others(e))
  {
    hide Inv, StepOf, Others, Without;
    CompactionGoesOn(d, ev, e);
    WithoutNone(d);
    WithoutNone(e);
    if Rearranges(ev) {
      RearrangedView(d, ev, e, d.comp.inputs);
    } else {
      InsertStep(d, e);
      NextIsLater(d);
      InsertedOthers(d);
    }
  }

  lemma NextIsLater(d: Db)
    requires Inv(d) && d.phase.Applying? && d.phase.i < |d.phase.r.ops|
    ensures EntryOf(d.phase.r, d.phase.i).sn > d.lastSequence
  {
    hide Refusals, Placement, Order, Meaning, Control, Queue, Coverage, Journal;
  }

  lemma InsertedOthers(d: Db)
    requires d.comp.Compacting? && d.phase.Applying? && d.phase.i < |d.phase.r.ops|
    ensures Others(Inserted(d)) == Others(d) + {EntryOf(d.phase.r, d.phase.i)}
  {
    hide TableEntries;
  }

  /** Whether a compaction brings a value back is settled when it starts: nothing that is written, flushed
      or collected while it runs changes it. */
  lemma {:induction false} SpoilsFromStart(run: seq<Db>, evs: seq<Event>, i: nat, j: nat)
    requires Calm(run, evs, i, j) && forall n :: i <= n <= j ==> run[n].comp.Compacting?
    ensures Spoils(run[j]) == Spoils(run[i])
    decreases j - i
  {
    hide Inv, StepOf, Others, TableEntries, C.BringsBack;
    if i < j {
      RunsAreSafe(run, evs, i);
      var d, e := run[i], run[i + 1];
      CompactionGoesOn(d, evs[i], e);
      OthersSettled(d, evs[i], e);
      BringsBackBelow(Others(d), Others(e), TableEntries(d.comp.inputs, d.files), d.comp.kept, d.comp.ss);
      SpoilsFromStart(run, evs, i + 1, j);
    }
  }

  lemma SnapshotAboveHorizon(d: Db, s: nat)
    requires Inv(d) && s in d.snapshots
    ensures d.horizon <= s
  {
  }

  /** In no step of the stretch a compaction that brings a value back is installed. */
  ghost predicate Unspoilt(run: seq<Db>, evs: seq<Event>, i: nat, j: nat)
    requires i <= j < |run| && j <= |evs|
  {
    forall n :: i <= n < j && evs[n].CompactionInstalled? && evs[n].installed ==> !Spoils(run[n])
  }

  /** A snapshot stays readable, and reads the same, for as long as it is held, if no compaction brings a
      value back meanwhile. */
  lemma {:induction false} SnapshotIsolation(run: seq<Db>, evs: seq<Event>, i: nat, j: nat, k: UserKey, s: nat)
    requires Calm(run, evs, i, j) && s <= run[i].lastSequence && (s in run[j].snapshots || run[j].horizon <= s)
    requires Unspoilt(run, evs, i, j)
    ensures Read(View(run[j]), k, s) == Read(View(run[i]), k, s)
    ensures run[i].lastSequence <= run[j].lastSequence && run[i].horizon <= run[j].horizon <= s
    decreases j - i
  {
    hide Inv, Enabled, Apply, View, Read;
    if i == j {
      RunsAreSafe(run, evs, j);
      if s in run[j].snapshots {
        SnapshotAboveHorizon(run[j], s);
      }
    } else {
      RunsAreSafe(run, evs, i);
      assert StepOf(run[i], evs[i], run[i + 1]);
      IntendedStable(run[i], evs[i]);
      SnapshotIsolation(run, evs, i + 1, j, k, s);
      ReadsAreStable(run[i], evs[i], run[i + 1], k, s);
    }
  }

  /** A compaction never works below a snapshot that is held, however late it was taken. */
  lemma SnapshotsProtected(run: seq<Db>, evs: seq<Event>, i: nat, s: nat)
    requires IsRun(run, evs) && i < |run| && s in run[i].snapshots
    ensures run[i].horizon <= s <= run[i].lastSequence && run[i].snapshots[0] <= s
    ensures run[i].comp.Compacting? ==> run[i].comp.ss <= s
  {
    RunsAreSafe(run, evs, i);
    var j :| 0 <= j < |run[i].snapshots| && run[i].snapshots[j] == s;
  }

  // ----- atomic groups -----

  /** A number at which no group was cut stays one: later groups are numbered behind it. */
  lemma {:induction false} UncutStays(run: seq<Db>, evs: seq<Event>, i: nat, j: nat, s: nat)
    requires Calm(run, evs, i, j) && (s == run[i].lastSequence || s in run[i].snapshots)
    ensures Uncut(run[j].records, s) && s <= run[j].lastSequence
    decreases j
  {
    hide Inv, Enabled, Apply, Uncut;
    if i == j {
      RunsAreSafe(run, evs, i);
      NumberUncut(run[i], s);
    } else {
      UncutStays(run, evs, i, j - 1, s);
      RunsAreSafe(run, evs, j - 1);
      assert StepOf(run[j - 1], evs[j - 1], run[j]);
      UncutStep(run[j - 1], evs[j - 1], s);
    }
  }

  lemma NumberUncut(d: Db, s: nat)
    requires Inv(d) && (s == d.lastSequence || s in d.snapshots)
    ensures Uncut(d.records, s) && s <= d.lastSequence
  {
    LastSequenceUncut(d);
    hide Refusals, Placement, Order, Meaning, Queue, Coverage, Journal, Uncut, Edits, Files, Flushing, CompactionFiles,
      Guard;
  }

  lemma UncutStep(d: Db, ev: Event, s: nat)
    requires Inv(d) && Enabled(d, ev) && !ev.CrashAndReopen? && Uncut(d.records, s) && s <= d.lastSequence
    ensures Uncut(Apply(d, ev).records, s) && s <= Apply(d, ev).lastSequence
  {
    hide Inv, Enabled;
    match ev
    case Append(o) => {
      assert d.phase.r.base == d.lastSequence + 1 by { NextBaseIs(d, o); }
      hide AllOf, Tears, Applies;
    }
    case InsertNext => {}
    case Finish => {}
    case _ => {
      hide Apply;
      RestSame(d, ev);
    }
  }

  lemma NextBaseIs(d: Db, o: Outcome)
    requires Inv(d) && Enabled(d, Append(o))
    ensures d.phase.Logging? && d.phase.r.base == d.lastSequence + 1
  {
    hide Refusals, Placement, Order, Meaning, Control, Queue, Coverage, Journal;
  }

  /** A reader takes LastSequence, or a snapshot, at step `i`. At every later step, also while a group
      is being inserted with the mutex released, and whether or not it holds a snapshot, it sees all
      of a logged group or none of it; a group that was refused is not seen at all until the store
      is reopened. */
  lemma GroupsAreAtomic(run: seq<Db>, evs: seq<Event>, i: nat, j: nat, r: Record, s: nat)
    requires Calm(run, evs, i, j) && (s == run[i].lastSequence || s in run[i].snapshots) && r in run[j].records
    ensures var d := run[j];
      && ((forall x :: x in AllOf(r) ==> x.sn > s) || AllOf(r) <= Intended(d) || AllOf(r) <= d.refused)
      && (AllOf(r) <= d.refused ==> AllOf(r) !! Intended(d))
  {
    hide Inv, IsRun, AllOf, Intended, Uncut;
    UncutStays(run, evs, i, j, s);
    RunsAreSafe(run, evs, j);
    GroupIsWhole(run[j], r, s);
  }

  lemma GroupIsWhole(d: Db, r: Record, s: nat)
    requires Inv(d) && r in d.records && Uncut(d.records, s) && s <= d.lastSequence
    ensures (forall x :: x in AllOf(r) ==> x.sn > s) || AllOf(r) <= Intended(d) || AllOf(r) <= d.refused
    ensures AllOf(r) <= d.refused ==> AllOf(r) !! Intended(d)
  {
    RecordNumbers(r, |r.ops|);
    IntendedApart(d);
    if d.phase.Applying? {
      RecordNumbers(d.phase.r, d.phase.i);
    }
    hide Order, Meaning, Placement, Control, Queue, Coverage, Journal, Disjoint, AllOf;
    assert r in d.records && AllOf(r) <= Logged(d.records);
  }

  // ----- layered lookup -----

  /** Every sequence number in the memtable is above those in the immutable memtable, and those
      above the ones in tables. */
  lemma LayersOrdered(d: Db)
    requires Inv(d)
    ensures var tables := TableEntries(d.current, d.files);
      && Below(tables, ImmOf(d)) && Below(ImmOf(d) + tables, d.mem)
      && View(d) == d.mem + (ImmOf(d) + tables) && NoClash(View(d)) && NoClash(ImmOf(d) + tables)
  {
    hide Meaning, Control, Queue, Coverage, Journal, TableEntries;
    KnownUnique(d);
    IntendedApart(d);
    NoClashSubset(View(d), Known(d));
    NoClashSubset(ImmOf(d) + TableEntries(d.current, d.files), View(d));
  }

  /** DBImpl::Get: asking the memtable, then the immutable one, then the tables, answers like one
      map of all there is, and like one map of everything written as long as no compaction has brought a
      value back. */
  lemma GetIsFlat(d: Db, k: UserKey, s: nat, inMem: Lookup, inImm: Lookup, inTables: Lookup)
    requires Inv(d)
    requires Answers(d.mem, k, s, inMem)
    requires inMem.Absent? ==> Answers(ImmOf(d), k, s, inImm)
    requires inMem.Absent? && inImm.Absent? ==> Answers(TableEntries(d.current, d.files), k, s, inTables)
    ensures var answer := AsRead(if !inMem.Absent? then inMem else if !inImm.Absent? then inImm else inTables);
      && answer == Read(View(d), k, s)
      && (!d.spoilt && d.horizon <= s ==> answer == Read(Intended(d), k, s))
  {
    if !d.spoilt && d.horizon <= s {
      IntendedReads(d, k, s);
    }
    LayersOrdered(d);
    hide Inv, TableEntries, Answers, Read, NoClash, Intended, View;
    var tables := TableEntries(d.current, d.files);
    var lower := ImmOf(d) + tables;
    if inMem.Absent? {
      LayeredIsFlat(ImmOf(d), tables, k, s, inImm, inTables);
    }
    LayeredIsFlat(d.mem, lower, k, s, inMem, if inImm.Absent? then inTables else inImm);
  }

  // ----- a reader that has let go of the mutex -----

  /** What the memtable that was current at step `i` of a run holds at step `j`: it grows until it is
      switched away, and a memtable goes with its log. */
  ghost function MemAt(run: seq<Db>, i: nat, j: nat): set<Entry>
    requires i <= j < |run|
    decreases j
  {
    if i == j then run[i].mem
    else if run[j].logNumber == run[i].logNumber then run[j].mem
    else MemAt(run, i, j - 1)
  }

  lemma MemStep(d: Db, ev: Event)
    requires Inv(d) && Enabled(d, ev) && !ev.CrashAndReopen?
    ensures var e := Apply(d, ev);
      && d.logNumber <= e.logNumber && d.lastSequence <= e.lastSequence
      && (e.logNumber == d.logNumber ==> d.mem <= e.mem && forall x :: x in e.mem - d.mem ==> x.sn > d.lastSequence)
  {
    hide Inv, Settled, Finished;
    match ev
    case Append(o) => SettledSame(d, o);
    case InsertNext => { hide Intended; InsertIntended(d); }
    case Finish => FinishedSame(d);
    case _ => {
      hide Enabled, Apply, SameInputs;
      RestSame(d, ev);
      LogIsOld(d);
    }
  }

  lemma LogIsOld(d: Db)
    requires Inv(d)
    ensures d.logNumber < d.nextFile
  {
    hide Order, Meaning, Numbering, Refusals, Queue, Coverage, Journal, Edits, Flushing, CompactionFiles, Guard, Snaps;
  }

  /** The memtable a reader holds only gains entries the reader does not ask for. */
  lemma {:induction false} MemGrows(run: seq<Db>, evs: seq<Event>, i: nat, j: nat)
    requires Calm(run, evs, i, j)
    ensures run[i].logNumber <= run[j].logNumber && run[i].lastSequence <= run[j].lastSequence
    ensures run[i].mem <= MemAt(run, i, j)
    ensures forall x :: x in MemAt(run, i, j) - run[i].mem ==> x.sn > run[i].lastSequence
    ensures Unique(MemAt(run, i, j))
    decreases j
  {
    hide Inv, Enabled, Apply, Unique;
    RunsAreSafe(run, evs, j);
    if i == j {
      MemUnique(run[j]);
    } else {
      MemGrows(run, evs, i, j - 1);
      RunsAreSafe(run, evs, j - 1);
      assert StepOf(run[j - 1], evs[j - 1], run[j]);
      MemStep(run[j - 1], evs[j - 1]);
      MemUnique(run[j]);
    }
  }

  lemma MemUnique(d: Db)
    requires Inv(d)
    ensures Unique(d.mem)
  {
    hide Order, Meaning, Control, Queue, Coverage, Journal, Logged;
    KnownUnique(d);
    IntendedApart(d);
    UniqueSubset(d.mem, Known(d));
  }

  /** A version a reader holds keeps its files, unchanged. */
  lemma {:induction false} VersionHeld(run: seq<Db>, evs: seq<Event>, i: nat, j: nat)
    requires Calm(run, evs, i, j)
    requires forall n :: i < n <= j ==> run[i].current in run[n].readers
    ensures run[i].current <= run[j].files.Keys
    ensures TableEntries(run[i].current, run[j].files) == TableEntries(run[i].current, run[i].files)
    decreases j
  {
    hide Inv, Enabled, Apply, TableEntries;
    RunsAreSafe(run, evs, j);
    FilesInUseExist(run[j]);
    if i < j {
      VersionHeld(run, evs, i, j - 1);
      RunsAreSafe(run, evs, j - 1);
      assert StepOf(run[j - 1], evs[j - 1], run[j]);
      NoLiveFileCollected(run[j - 1], evs[j - 1]);
      TableFrame(run[i].current, run[j - 1].files, run[j].files);
    }
  }

  /** DBImpl::Get as it is: the memtables, the version and the sequence number are taken at step
      `i`, and the three layers are read at later steps with the mutex released. Whatever is
      written, switched, flushed, compacted or collected meanwhile, also when a compaction has passed the
      number or has brought a value back, the answer is that of one map of what there was to see at
      step `i`; and that is what was written, unless a compaction brought a value back before. */
  lemma CapturedGetIsFlat(run: seq<Db>, evs: seq<Event>, i: nat, a: nat, c: nat, k: UserKey, s: nat,
                          inMem: Lookup, inImm: Lookup, inTables: Lookup)
    requires Calm(run, evs, i, c) && i <= a <= c
    requires forall n :: i < n <= c ==> run[i].current in run[n].readers
    requires s <= run[i].lastSequence
    requires Answers(MemAt(run, i, a), k, s, inMem)
    requires inMem.Absent? ==> Answers(ImmOf(run[i]), k, s, inImm)
    requires inMem.Absent? && inImm.Absent? ==> Answers(TableEntries(run[i].current, run[c].files), k, s, inTables)
    ensures var d := run[i];
      var answer := AsRead(if !inMem.Absent? then inMem else if !inImm.Absent? then inImm else inTables);
      && answer == Read(View(d), k, s)
      && (!d.spoilt && d.horizon <= s ==> answer == Read(Intended(d), k, s))
  {
    MemGrows(run, evs, i, a);
    VersionHeld(run, evs, i, c);
    RunsAreSafe(run, evs, i);
    LaterEntriesUnasked(run[i].mem, MemAt(run, i, a), k, s, inMem);
    hide Inv, Calm, Answers, TableEntries, MemAt, Unique;
    GetIsFlat(run[i], k, s, inMem, inImm, inTables);
  }

  /** Entries numbered above `s` do not change an answer at `s`. */
  lemma LaterEntriesUnasked(es: set<Entry>, fs: set<Entry>, k: UserKey, s: nat, r: Lookup)
    requires es <= fs && (forall x :: x in fs - es ==> x.sn > s) && Answers(fs, k, s, r)
    ensures Answers(es, k, s, r)
  {
    if !r.Absent? {
      var e :| IsNewest(fs, k, s, e) && r == if e.kind.Put? then Found(e.value) else Deleted;
      assert IsNewest(es, k, s, e);
    }
  }

  // ----- files -----

  /** The file of a flush between leaving `pending_outputs_` and being installed. */
  ghost function FlushFile(d: Db): set<nat> {
    if d.flush.Installing? then FlushTables(d, d.flush.number) else {}
  }

  /** No file in use is ever missing: not those of the current version or of a version a reader
      holds, not a finished compaction output, not a flushed table about to be installed. */
  lemma FilesInUseExist(d: Db)
    requires Inv(d)
    ensures Live(d) + CompactionOuts(d) + FlushFile(d) <= d.files.Keys && d.manifest.tables <= d.files.Keys
  {
    hide Data, Queue, Coverage, Guard, Snaps, TableEntries;
    forall n | n in Live(d) ensures n in d.files {
      if n !in d.current {
        var v :| v in d.readers && n in v;
      }
    }
  }

  ghost predicate SameFiles(d: Db, e: Db) {
    && (forall n :: n in d.files && n in e.files ==> e.files[n] == d.files[n])
    && (forall n :: n in d.logs && n in e.logs ==> d.logs[n] <= e.logs[n])
  }

  lemma ForegroundFiles(d: Db, ev: Event)
    requires d.nextFile !in d.logs && Enabled(d, ev) && Foreground(ev)
    ensures SameFiles(d, Apply(d, ev))
  {
    hide TableEntries, C.GoodDrop, C.BringsBack, GroupOps, GroupEnd, AllTaken, Readable, SmallestSnapshot;
  }

  lemma FlushFiles(d: Db, ev: Event)
    requires Files(d) && Flushing(d) && Enabled(d, ev) && (ev.StartFlush? || ev.FlushBuilt? || ev.FlushInstalled?)
    ensures SameFiles(d, Apply(d, ev))
  {
    hide TableEntries, C.GoodDrop, C.BringsBack, AfterFlush, Collect, Readable, SmallestSnapshot;
    if ev.FlushInstalled? && ev.installed {
      CollectedFiles(FlushDone(d));
    }
  }

  /** What is left after collection is as it was. */
  lemma CollectedFiles(d: Db)
    ensures SameFiles(d, Collect(d)) && d.manifest == Collect(d).manifest
    ensures forall n :: n in d.logs && d.versionLog <= n ==> n in Collect(d).logs
  {
    hide Live;
  }

  lemma CompactionFilesKept(d: Db, ev: Event)
    requires Files(d) && Enabled(d, ev)
    requires ev.StartCompaction? || ev.CompactionOutput? || ev.SealCompaction? || ev.AbortCompaction?
    ensures SameFiles(d, Apply(d, ev))
  {
    hide TableEntries, C.GoodDrop, C.BringsBack, AfterCompaction, Live, Max, Readable, SmallestSnapshot;
  }

  lemma InstalledFilesKept(d: Db, installed: bool, committed: bool)
    requires Enabled(d, CompactionInstalled(installed, committed))
    ensures SameFiles(d, Apply(d, CompactionInstalled(installed, committed)))
  {
    hide TableEntries, AfterCompaction, Collect, Max, Spoils;
    if installed {
      CollectedFiles(CompactionDone(d));
    }
  }

  lemma WriteFiles(d: Db, ev: Event)
    requires Enabled(d, ev) && (ev.Append? || ev.InsertNext? || ev.Finish?)
    ensures SameFiles(d, Apply(d, ev))
  {
    hide AllOf, Applies, Tears;
  }

  /** No file is ever rewritten, and logs only grow at the end. */
  lemma FilesUnchanged(d: Db, ev: Event)
    requires Control(d) && Enabled(d, ev) && !ev.CrashAndReopen?
    ensures SameFiles(d, Apply(d, ev))
  {
    assert Files(d) && Flushing(d) && d.nextFile !in d.logs;
    hide Control, Files, Flushing, Enabled, Apply, SameFiles;
    if Foreground(ev) {
      ForegroundFiles(d, ev);
    } else if ev.Append? || ev.InsertNext? || ev.Finish? {
      WriteFiles(d, ev);
    } else if ev.StartFlush? || ev.FlushBuilt? || ev.FlushInstalled? {
      FlushFiles(d, ev);
    } else if ev.CompactionInstalled? {
      InstalledFilesKept(d, ev.installed, ev.committed);
    } else {
      CompactionFilesKept(d, ev);
    }
  }

  /** Only the two installations delete logs. */
  lemma LogsKept(d: Db, ev: Event, e: Db)
    requires Files(d) && StepOf(d, ev, e) && !ev.CrashAndReopen? && !ev.FlushInstalled? && !ev.CompactionInstalled?
    ensures d.logs.Keys <= e.logs.Keys
  {
    hide Files;
    if Foreground(ev) {
      hide Enabled, Apply, SameRecords, SameInputs;
      ForegroundSame(d, ev);
    } else if ev.Append? || ev.InsertNext? || ev.Finish? {
      hide Enabled, Apply, SameInputs;
      WriteSame(d, ev);
    } else {
      hide Foreground, TableEntries, Readable, SmallestSnapshot, C.GoodDrop;
    }
  }

  /** No log that recovery would still read is deleted. */
  lemma NeededLogsKept(d: Db, ev: Event, e: Db)
    requires Files(d) && d.versionLog <= d.manifest.log <= d.logNumber && StepOf(d, ev, e) && !ev.CrashAndReopen?
    ensures forall n :: n in d.logs && e.manifest.log <= n ==> n in e.logs
  {
    if ev.FlushInstalled? && ev.installed {
      hide Files, Collect, TableEntries;
      CollectedFiles(FlushDone(d));
    } else if ev.CompactionInstalled? && ev.installed {
      hide Files, Collect, TableEntries, Spoils;
      CollectedFiles(CompactionDone(d));
    } else if !ev.FlushInstalled? && !ev.CompactionInstalled? {
      hide Files, StepOf;
      LogsKept(d, ev, e);
    } else {
      hide Files, Spoils, AfterFlush, AfterCompaction;
    }
  }

  /** No event deletes or rewrites a file that is still in use afterwards, nor a log that recovery
      would still read. */
  lemma NoLiveFileCollected(d: Db, ev: Event)
    requires Inv(d) && Enabled(d, ev) && !ev.CrashAndReopen?
    ensures var e := Apply(d, ev);
      && Live(e) + CompactionOuts(e) + FlushFile(e) <= e.files.Keys && e.manifest.tables <= e.files.Keys
      && (forall n :: n in d.files && n in e.files ==> e.files[n] == d.files[n])
      && (forall n :: n in d.logs && e.manifest.log <= n ==> n in e.logs && d.logs[n] <= e.logs[n])
  {
    assert Files(d) && Placement(d);
    hide Data, Control, Queue, Coverage, Enabled, Apply, Files, Placement, TableEntries;
    EventKeeps(d, ev);
    FilesInUseExist(Apply(d, ev));
    FilesUnchanged(d, ev);
    assert d.versionLog <= d.manifest.log <= d.logNumber by { LogNumbers(d); }
    NeededLogsKept(d, ev, Apply(d, ev));
  }

  /** And what is left after an installation is in use: no other table stays on disk, nor a log that is covered. */
  lemma UnusedFilesGo(d: Db, ev: Event, e: Db)
    requires StepOf(d, ev, e) && !d.bgError
    requires (ev.FlushInstalled? || ev.CompactionInstalled?) && ev.installed
    ensures forall n :: n in e.files ==> n in e.current || n in e.pending || exists v :: v in e.readers && n in v
    ensures forall n :: n in e.logs || n in e.torn ==> e.versionLog <= n
  {
    hide TableEntries, AfterFlush, AfterCompaction, FlushTables, Spoils, Max;
  }

  // ----- group commit -----

  /** A batch lies in `ops` between `lo` and `hi`; a null batch takes no room. */
  predicate LiesAt(batch: Option<seq<Op>>, ops: seq<Op>, lo: nat, hi: nat) {
    lo <= hi <= |ops| && if batch.None? then lo == hi else ops[lo..hi] == batch.value
  }

  /** Where `n` stretches meet that make up `ops`. */
  predicate Divides(at: seq<nat>, n: nat, ops: seq<Op>) {
    |at| == n + 1 && at[0] == 0 && at[n] == |ops|
  }

  lemma LiesInLonger(batch: Option<seq<Op>>, ops: seq<Op>, lo: nat, hi: nat, more: seq<Op>)
    requires LiesAt(batch, ops, lo, hi)
    ensures LiesAt(batch, ops + more, lo, hi)
  {
    assert (ops + more)[lo..hi] == ops[lo..hi];
  }

  lemma LiesBehind(batch: Option<seq<Op>>, ops: seq<Op>, more: seq<Op>)
    requires more == if batch.Some? then batch.value else []
    ensures LiesAt(batch, ops + more, |ops|, |ops| + |more|)
  {
    assert (ops + more)[|ops|..] == more;
  }

  lemma {:induction false} GroupLaidOut(ws: seq<Writer>) returns (at: seq<nat>)
    ensures Divides(at, |ws|, GroupOps(ws))
    ensures forall w :: 0 <= w < |ws| ==> LiesAt(ws[w].batch, GroupOps(ws), at[w], at[w + 1])
  {
    hide LiesAt;
    if ws == [] {
      at := [0];
    } else {
      var n := |ws| - 1;
      var was := GroupLaidOut(ws[..n]);
      var ops, more := GroupOps(ws[..n]), BatchOf(ws[n]);
      at := was + [|ops| + |more|];
      LiesBehind(ws[n].batch, ops, more);
      forall w | 0 <= w < n ensures LiesAt(ws[w].batch, ops + more, at[w], at[w + 1]) {
        assert ws[..n][w] == ws[w];
        LiesInLonger(ws[w].batch, ops, was[w], was[w + 1], more);
      }
    }
  }

  /** What a writer that arrived had taken of it. */
  function TakenOf(w: Writer, fate: Fate): Option<seq<Op>> {
    if fate.Taken? then w.batch else None
  }

  lemma TakenLast(arrived: seq<Writer>, fates: seq<Fate>)
    requires |fates| <= |arrived|
    ensures TakenOps(arrived, fates) ==
      if fates == [] then []
      else
        var n := |fates| - 1; var batch := TakenOf(arrived[n], fates[n]);
        TakenOps(arrived, fates[..n]) + if batch.Some? then batch.value else []
  {
  }

  lemma {:induction false} TakenLaidOut(arrived: seq<Writer>, fates: seq<Fate>) returns (at: seq<nat>)
    requires |fates| <= |arrived|
    ensures Divides(at, |fates|, TakenOps(arrived, fates))
    ensures forall w :: 0 <= w < |fates| ==>
      LiesAt(TakenOf(arrived[w], fates[w]), TakenOps(arrived, fates), at[w], at[w + 1])
  {
    hide LiesAt, TakenOps, TakenOf;
    TakenLast(arrived, fates);
    if fates == [] {
      at := [0];
    } else {
      var n := |fates| - 1;
      var was := TakenLaidOut(arrived, fates[..n]);
      var ops, batch := TakenOps(arrived, fates[..n]), TakenOf(arrived[n], fates[n]);
      var more := if batch.Some? then batch.value else [];
      at := was + [|ops| + |more|];
      LiesBehind(batch, ops, more);
      forall w | 0 <= w < n ensures LiesAt(TakenOf(arrived[w], fates[w]), ops + more, at[w], at[w + 1]) {
        assert fates[..n][w] == fates[w];
        LiesInLonger(TakenOf(arrived[w], fates[w]), ops, was[w], was[w + 1], more);
      }
    }
  }

  lemma {:induction false} AttemptsLaidOut(attempts: seq<Record>) returns (at: seq<nat>)
    ensures Divides(at, |attempts|, AttemptedOps(attempts))
    ensures forall a :: 0 <= a < |attempts| ==>
      LiesAt(Some(attempts[a].ops), AttemptedOps(attempts), at[a], at[a + 1])
  {
    hide LiesAt;
    if attempts == [] {
      at := [0];
    } else {
      var n := |attempts| - 1;
      var was := AttemptsLaidOut(attempts[..n]);
      var ops, more := AttemptedOps(attempts[..n]), attempts[n].ops;
      at := was + [|ops| + |more|];
      LiesBehind(Some(more), ops, more);
      forall a | 0 <= a < n ensures LiesAt(Some(attempts[a].ops), ops + more, at[a], at[a + 1]) {
        assert attempts[..n][a] == attempts[a];
        LiesInLonger(Some(attempts[a].ops), ops, was[a], was[a + 1], more);
      }
    }
  }

  /** Writers leave the queue in the order they came. The batches taken, one behind the other, are the
      operations of the attempts, one behind the other: every batch is attempted whole, once, and in order of
      arrival. No sequence number is handed out twice, whether or not the write succeeded. */
  lemma GroupCommit(run: seq<Db>, evs: seq<Event>, i: nat) returns (ops: seq<Op>, at: seq<nat>, from: seq<nat>)
    requires IsRun(run, evs) && i < |run|
    ensures var d := run[i]; var served := |d.fates| - InFlight(d.phase);
      && 0 <= served <= |d.arrived| && d.writers == d.arrived[served..] && |d.fates| <= |d.arrived|
      && Divides(at, |d.fates|, ops)
      && (forall w :: 0 <= w < |d.fates| ==>
            LiesAt(if d.fates[w].Taken? then d.arrived[w].batch else None, ops, at[w], at[w + 1]))
      && Divides(from, |d.attempts|, ops)
      && (forall a :: 0 <= a < |d.attempts| ==> LiesAt(Some(d.attempts[a].ops), ops, from[a], from[a + 1]))
      && (forall a, b :: 0 <= a < b < |d.attempts| ==> End(d.attempts[a]) <= d.attempts[b].base)
      && (d.phase.Ready? ==> forall a :: 0 <= a < |d.attempts| ==> End(d.attempts[a]) <= d.lastSequence + 1)
  {
    hide Data, Control, Coverage, Journal, TakenOps, AttemptedOps, IsRun, GroupOps, Consecutive, LiesAt;
    RunsAreSafe(run, evs, i);
    var d := run[i];
    AttemptsApart(d.attempts, Top(d.phase, d.lastSequence));
    ops := AttemptedOps(d.attempts);
    at := TakenLaidOut(d.arrived, d.fates);
    from := AttemptsLaidOut(d.attempts);
  }

  /** The logs from `lo` on, one behind the other in the order of their numbers. */
  function InNumberOrder(logs: map<nat, seq<Record>>, lo: nat, hi: nat): seq<Record>
    requires lo <= hi
    decreases hi
  {
    if lo == hi then [] else InNumberOrder(logs, lo, hi - 1) + if hi - 1 in logs then logs[hi - 1] else []
  }

  lemma KeptLast(attempts: seq<Record>, landings: seq<Landing>, lo: nat, hi: nat)
    requires landings != [] && |landings| <= |attempts|
    ensures var n := |landings| - 1;
      Kept(attempts, landings, lo, hi) == Kept(attempts, landings[..n], lo, hi)
        + if Stored(landings[n].outcome) && lo <= landings[n].log < hi then [attempts[n]] else []
  {
  }

  /** Since attempts go to ever later logs, those of a range of logs are a stretch of them. */
  lemma {:induction false} KeptSplit(attempts: seq<Record>, landings: seq<Landing>, lo: nat, mid: nat, hi: nat)
    requires |landings| <= |attempts| && lo <= mid <= hi
    requires forall i, j :: 0 <= i < j < |landings| ==> landings[i].log <= landings[j].log
    ensures Kept(attempts, landings, lo, hi) == Kept(attempts, landings, lo, mid) + Kept(attempts, landings, mid, hi)
  {
    if landings != [] {
      var n := |landings| - 1;
      var init := landings[..n];
      KeptSplit(attempts, init, lo, mid, hi);
      if landings[n].log < mid {
        KeptNone(attempts, init, mid, hi);
      }
      KeptLast(attempts, landings, lo, mid);
      KeptLast(attempts, landings, mid, hi);
      KeptLast(attempts, landings, lo, hi);
      hide Kept, Stored;
    }
  }

  lemma {:induction false} LogsConcatenate(d: Db, lo: nat, hi: nat)
    requires LogJournal(d) && d.versionLog <= lo <= hi
    ensures InNumberOrder(d.logs, lo, hi) == Kept(d.attempts, d.landings, lo, hi)
    decreases hi
  {
    hide Kept;
    if lo == hi {
      KeptEmpty(d.attempts, d.landings, lo);
    } else {
      LogsConcatenate(d, lo, hi - 1);
      KeptSplit(d.attempts, d.landings, lo, hi - 1, hi);
      if hi - 1 !in d.logs {
        KeptNone(d.attempts, d.landings, hi - 1, hi);
      }
    }
  }

  lemma KeptEmpty(attempts: seq<Record>, landings: seq<Landing>, n: nat)
    requires |landings| <= |attempts|
    ensures Kept(attempts, landings, n, n) == []
  {
    KeptNone(attempts, landings, n, n);
  }

  lemma DataLogs(d: Db)
    requires Data(d)
    ensures d.versionLog <= d.manifest.log <= d.logNumber && forall n :: n in d.logs ==> n <= d.logNumber
  {
    hide Numbering, Refusals, Order, Meaning, TableEntries;
  }

  /** What the log receives: the records of this opening of the store are those of the attempts
      whose append left the whole record, in order and once each; every log holds its stretch of
      them; and the logs still there, one behind the other, are the end of that list. */
  lemma LogReceivesAttempts(run: seq<Db>, evs: seq<Event>, i: nat, n: nat)
    requires IsRun(run, evs) && i < |run| && n in run[i].logs
    ensures var d := run[i]; var hi := d.logNumber + 1;
      && |d.landings| <= |d.attempts|
      && d.records == Kept(d.attempts, d.landings, 0, hi)
      && d.records == Kept(d.attempts, d.landings, 0, n) + d.logs[n] + Kept(d.attempts, d.landings, n + 1, hi)
      && d.versionLog <= hi
      && d.records == Kept(d.attempts, d.landings, 0, d.versionLog) + InNumberOrder(d.logs, d.versionLog, hi)
  {
    hide Kept, Enabled, Apply, Data, Control, Coverage, Queue, MemJournal, Blamed;
    RunsAreSafe(run, evs, i);
    var d := run[i];
    assert n <= d.logNumber && d.versionLog <= d.logNumber by { DataLogs(d); }
    KeptSplit(d.attempts, d.landings, 0, n, d.logNumber + 1);
    KeptSplit(d.attempts, d.landings, n, n + 1, d.logNumber + 1);
    KeptSplit(d.attempts, d.landings, 0, d.versionLog, d.logNumber + 1);
    LogsConcatenate(d, d.versionLog, d.logNumber + 1);
  }

  lemma {:induction false} AppliedAscends(attempts: seq<Record>, landings: seq<Landing>, p: Phase, top: nat)
    requires |landings| <= |attempts|
    requires forall a, b :: 0 <= a < b < |attempts| ==> End(attempts[a]) <= attempts[b].base
    requires forall a :: 0 <= a < |landings| ==> End(attempts[a]) <= top
    ensures Ascends(Applied(attempts, landings, p), top)
  {
    if landings != [] {
      var n := |landings| - 1;
      var r := attempts[n];
      assert End(r) <= top;
      AppliedAscends(attempts, landings[..n], Ready, r.base);
      hide Ascends;
      var init, last := Applied(attempts, landings[..n], Ready), Updates(r, Done(r, landings[n].outcome, p));
      assert Applied(attempts, landings, p) == init + last;
      AscendingJoin(init, last, r.base, top);
    }
  }

  /** Strictly rising sequence numbers, all below `top`. */
  ghost predicate Ascends(es: seq<Entry>, top: nat) {
    (forall i, j :: 0 <= i < j < |es| ==> es[i].sn < es[j].sn) && forall i :: 0 <= i < |es| ==> es[i].sn < top
  }

  lemma AscendingJoin(a: seq<Entry>, b: seq<Entry>, base: nat, top: nat)
    requires Ascends(a, base) && base + |b| <= top && forall i :: 0 <= i < |b| ==> b[i].sn == base + i
    ensures Ascends(a + b, top)
  {
    var c := a + b;
    forall i | 0 <= i < |c| ensures c[i] == if i < |a| then a[i] else b[i - |a|] {
    }
  }

  /** `x` is what an operation with number `sn` puts into a memtable. */
  predicate Spells(x: Entry, op: Op, sn: nat) {
    && x.sn == sn && x.key == op.key
    && match op case Write(_, v) => x.kind.Put? && x.value == v case Erase(_) => x.kind.Deletion? && x.value == ""
  }

  /** Between `lo` and `hi` are the first `n` operations of a batch, under consecutive numbers. */
  predicate SpelledAt(es: seq<Entry>, lo: nat, hi: nat, r: Record, n: nat) {
    lo + n == hi <= |es| && n <= |r.ops| && forall j :: 0 <= j < n ==> Spells(es[lo + j], r.ops[j], r.base + j)
  }

  /** A record stands for what its operations put into a memtable, and for nothing else. */
  lemma RecordSpells(r: Record, x: Entry)
    ensures x in AllOf(r) <==> exists j: nat :: j < |r.ops| && Spells(x, r.ops[j], r.base + j)
  {
    if j: nat :| j < |r.ops| && Spells(x, r.ops[j], r.base + j) {
      assert x == EntryOf(r, j);
    }
  }

  lemma UpdatesSpell(es: seq<Entry>, r: Record, n: nat)
    requires n <= |r.ops|
    ensures SpelledAt(es + Updates(r, n), |es|, |es| + n, r, n)
  {
  }

  lemma SpelledInLonger(es: seq<Entry>, lo: nat, hi: nat, r: Record, n: nat, more: seq<Entry>)
    requires SpelledAt(es, lo, hi, r, n)
    ensures SpelledAt(es + more, lo, hi, r, n)
  {
  }

  /** How much of attempt `a` is in the memtables. */
  function Inserts(attempts: seq<Record>, landings: seq<Landing>, p: Phase, a: nat): (n: nat)
    requires |landings| <= |attempts| && a < |landings|
    ensures n <= |attempts[a].ops|
  {
    Done(attempts[a], landings[a].outcome, if a == |landings| - 1 then p else Ready)
  }

  lemma AppliedLast(attempts: seq<Record>, landings: seq<Landing>, p: Phase)
    requires landings != [] && |landings| <= |attempts|
    ensures var n := |landings| - 1;
      Applied(attempts, landings, p)
      == Applied(attempts, landings[..n], Ready) + Updates(attempts[n], Inserts(attempts, landings, p, n))
  {
  }

  lemma {:induction false} AppliedLaidOut(attempts: seq<Record>, landings: seq<Landing>, p: Phase)
    returns (at: seq<nat>)
    requires |landings| <= |attempts|
    ensures |at| == |landings| + 1 && at[0] == 0 && at[|landings|] == |Applied(attempts, landings, p)|
    ensures forall a :: 0 <= a < |landings| ==>
      SpelledAt(Applied(attempts, landings, p), at[a], at[a + 1], attempts[a], Inserts(attempts, landings, p, a))
  {
    if landings == [] {
      at := [0];
    } else {
      hide Updates, Applied, SpelledAt, Done;
      var n := |landings| - 1;
      var init, m := landings[..n], Inserts(attempts, landings, p, n);
      var was := AppliedLaidOut(attempts, init, Ready);
      var es, more := Applied(attempts, init, Ready), Updates(attempts[n], m);
      at := was + [|es| + m];
      AppliedLast(attempts, landings, p);
      UpdatesSpell(es, attempts[n], m);
      forall a | 0 <= a < n
        ensures SpelledAt(es + more, at[a], at[a + 1], attempts[a], Inserts(attempts, landings, p, a))
      {
        assert init[a] == landings[a];
        SpelledInLonger(es, was[a], was[a + 1], attempts[a], Inserts(attempts, init, Ready, a), more);
      }
    }
  }

  /** What the memtable receives: what the operations of the attempts that were logged and synced put there, in order
      and once each, under ever higher numbers; the memtable holds what came since the last switch, the immutable one
      what came between the last two. */
  lemma MemTableReceivesBatches(run: seq<Db>, evs: seq<Event>, i: nat) returns (at: seq<nat>)
    requires IsRun(run, evs) && i < |run|
    ensures var d := run[i];
      && |d.landings| <= |d.attempts| && d.earlier <= d.switched <= |d.inserted|
      && |at| == |d.landings| + 1 && at[0] == 0 && at[|d.landings|] == |d.inserted|
      && (forall a :: 0 <= a < |d.landings| ==>
            SpelledAt(d.inserted, at[a], at[a + 1], d.attempts[a],
              if !(d.landings[a].outcome.Written? && d.landings[a].outcome.synced) then 0
              else if a == |d.landings| - 1 && d.phase.Applying? then d.phase.i
              else |d.attempts[a].ops|))
      && d.mem == Elements(d.inserted[d.switched..])
      && (d.imm.Some? ==> d.imm.value == Elements(d.inserted[d.earlier..d.switched]))
      && (forall a, b :: 0 <= a < b < |d.inserted| ==> d.inserted[a].sn < d.inserted[b].sn)
  {
    hide Inv, SpelledAt;
    RunsAreSafe(run, evs, i);
    var d := run[i];
    InsertedAscends(d);
    at := AppliedLaidOut(d.attempts, d.landings, d.phase);
    LastInserts(d);
  }

  lemma InsertedAscends(d: Db)
    requires Inv(d)
    ensures |d.landings| <= |d.attempts| && d.earlier <= d.switched <= |d.inserted|
    ensures d.inserted == Applied(d.attempts, d.landings, d.phase)
    ensures d.mem == Elements(d.inserted[d.switched..])
    ensures d.imm.Some? ==> d.imm.value == Elements(d.inserted[d.earlier..d.switched])
    ensures forall a, b :: 0 <= a < b < |d.inserted| ==> d.inserted[a].sn < d.inserted[b].sn
  {
    hide Data, Control, Coverage, Applied, EachTakenOnce, InOrder, LogJournal, Blamed;
    var top := Top(d.phase, d.lastSequence);
    AttemptsApart(d.attempts, top);
    AppliedAscends(d.attempts, d.landings, d.phase, top);
  }

  /** The operations of a group being inserted are counted by its phase. */
  lemma LastInserts(d: Db)
    requires Inv(d)
    ensures |d.landings| <= |d.attempts|
    ensures forall a :: 0 <= a < |d.landings| ==>
      Inserts(d.attempts, d.landings, d.phase, a)
      == if !(d.landings[a].outcome.Written? && d.landings[a].outcome.synced) then 0
         else if a == |d.landings| - 1 && d.phase.Applying? then d.phase.i
         else |d.attempts[a].ops|
  {
    assert d.phase.Applying? ==> d.phase.i <= |d.phase.r.ops| by { CountWithin(d); }
    hide Data, Control, Coverage, Queue, LogJournal, Blamed, Applied;
  }

  lemma CountWithin(d: Db)
    requires Inv(d)
    ensures d.phase.Applying? ==> d.phase.i <= |d.phase.r.ops|
  {
    hide Refusals, Placement, Order, Meaning, Control, Queue, Coverage, Journal;
  }

  /** Whatever is inserted next is newer than all the memtable holds, so it has no equal there:
      the skip list's demand on its caller is met. */
  lemma NextInsertIsNew(d: Db)
    requires Inv(d) && Enabled(d, InsertNext)
    ensures var x := EntryOf(d.phase.r, d.phase.i);
      && (forall e :: e in d.mem ==> e.sn < x.sn)
      && (forall e :: e in d.mem && e.key == x.key ==> Tag(e.sn, e.kind) != Tag(x.sn, x.kind))
  {
    hide Meaning, Control, Queue, Coverage, Journal, Refusals;
    InsertIsNewest(d);
    assert d.mem <= View(d) <= Intended(d);
    hide Numbering, Placement, Order, Intended;
  }

  lemma {:induction false} AttemptsApart(attempts: seq<Record>, top: nat)
    requires Consecutive(attempts, top)
    ensures forall a, b :: 0 <= a < b < |attempts| ==> End(attempts[a]) <= attempts[b].base
    ensures forall a :: 0 <= a < |attempts| ==> End(attempts[a]) <= top
  {
    if attempts != [] {
      var n := |attempts| - 1;
      var init := attempts[..n];
      ConsecutiveInit(attempts, top);
      hide Consecutive;
      AttemptsApart(init, attempts[n].base);
      forall a | 0 <= a < n ensures End(attempts[a]) <= attempts[n].base {
        assert init[a] == attempts[a];
      }
      forall a, b | 0 <= a < b < n ensures End(attempts[a]) <= attempts[b].base {
        assert init[a] == attempts[a] && init[b] == attempts[b];
      }
    }
  }

  lemma ConsecutiveInit(attempts: seq<Record>, top: nat)
    requires Consecutive(attempts, top) && attempts != []
    ensures var n := |attempts| - 1; Consecutive(attempts[..n], attempts[n].base) && End(attempts[n]) == top
  {
    var n := |attempts| - 1;
    var init := attempts[..n];
    assert attempts[n].base + |attempts[n].ops| == NextBase(attempts, n, top);
    forall i | 0 <= i < n ensures init[i].base + |init[i].ops| == NextBase(init, i, attempts[n].base) {
      assert attempts[i].base + |attempts[i].ops| == NextBase(attempts, i, top);
    }
  }

  /** A finished write pops exactly the writers whose batches it logged, each whole and in order. */
  lemma FinishPopsItsGroup(d: Db) returns (at: seq<nat>)
    requires Inv(d) && Enabled(d, Finish)
    ensures var n, ops := d.phase.n, d.phase.r.ops;
      && 1 <= n <= |d.writers| && Apply(d, Finish).writers == d.writers[n..]
      && Divides(at, n, ops) && forall w :: 0 <= w < n ==> LiesAt(d.writers[w].batch, ops, at[w], at[w + 1])
  {
    hide Inv, LiesAt, GroupOps, Apply;
    InFlightGroup(d);
    at := GroupLaidOut(d.writers[..d.phase.n]);
    FinishedQueue(d);
  }

  lemma InFlightGroup(d: Db)
    requires Inv(d) && !d.phase.Ready?
    ensures 1 <= d.phase.n <= |d.writers| && d.phase.r.ops == GroupOps(d.writers[..d.phase.n])
  {
    hide Data, Control, Coverage, InOrder, Consecutive, EachTakenOnce, GroupOps;
  }

  lemma FinishedQueue(d: Db)
    requires Enabled(d, Finish) && d.phase.n <= |d.writers|
    ensures Apply(d, Finish).writers == d.writers[d.phase.n..]
  {
  }

  function GroupBytes(ws: seq<Writer>): nat {
    if ws == [] then 0
    else GroupBytes(ws[..|ws| - 1]) + if ws[|ws| - 1].batch.Some? then ws[|ws| - 1].bytes else 0
  }

  /** A group of so many bytes is within the limit: 1 MiB, and at most 128 KiB more than a small leader's batch. */
  predicate WithinLimit(first: nat, bytes: nat) {
    bytes <= 0x10_0000 && (first <= 0x2_0000 ==> bytes <= first + 0x2_0000)
  }

  /** The size of a group: within the limit, unless no batch but the leader's is in it. */
  ghost predicate Fits(ws: seq<Writer>, n: nat)
    requires 1 <= n <= |ws|
  {
    WithinLimit(ws[0].bytes, GroupBytes(ws[..n])) || GroupBytes(ws[..n]) == ws[0].bytes
  }

  /** BuildBatchGroup: a non-sync leader takes no sync writer along, batches are only added while
      the group stays within the size limit, and it ends early only for one of these reasons. */
  lemma {:induction false} GroupWithinBounds(ws: seq<Writer>, i: nat)
    requires 1 <= i <= |ws| && Fits(ws, i)
    ensures var n := GroupEnd(ws, i, GroupBytes(ws[..i]));
      && (forall j :: i <= j < n && ws[j].sync ==> ws[0].sync) && Fits(ws, n)
      && (n < |ws| ==>
            || (ws[n].sync && !ws[0].sync)
            || (ws[n].batch.Some? && !WithinLimit(ws[0].bytes, GroupBytes(ws[..n + 1]))))
    decreases |ws| - i
  {
    if i < |ws| && !(ws[i].sync && !ws[0].sync) {
      assert ws[..i + 1][..i] == ws[..i];
      assert GroupBytes(ws[..i + 1]) == GroupBytes(ws[..i]) + if ws[i].batch.Some? then ws[i].bytes else 0;
      if ws[i].batch.None? || WithinLimit(ws[0].bytes, GroupBytes(ws[..i + 1])) {
        GroupWithinBounds(ws, i + 1);
      }
    }
  }
}
