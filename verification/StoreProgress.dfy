/**
  What can always be done: when the files can be written, a write is served and read back, a full memtable becomes a
  table, a compaction comes to its end, and after a crash the store can be opened.
 */
module StoreProgress {
  import opened Format
  import opened Store
  import opened StoreInvariant
  import opened StoreSteps
  import opened StoreTheorems
  import opened StoreWrites
  import C = Compaction

  /** A way from one state to another. */
  ghost predicate Path(way: seq<Db>, evs: seq<Event>, d: Db, e: Db) {
    && |way| == |evs| + 1 && way[0] == d && way[|evs|] == e
    && forall i :: 0 <= i < |evs| ==> StepOf(way[i], evs[i], way[i + 1])
  }

  lemma PathStep(d: Db, ev: Event, e: Db, way: seq<Db>, evs: seq<Event>, f: Db)
    requires StepOf(d, ev, e) && Path(way, evs, e, f)
    ensures Path([d] + way, [ev] + evs, d, f)
  {
    hide StepOf;
    var w, v := [d] + way, [ev] + evs;
    forall i | 0 <= i < |v| ensures StepOf(w[i], v[i], w[i + 1]) {
      if i > 0 {
        assert w[i] == way[i - 1] && w[i + 1] == way[i];
      }
    }
  }

  lemma PathJoin(way: seq<Db>, evs: seq<Event>, d: Db, e: Db, more: seq<Db>, then': seq<Event>, f: Db)
    requires Path(way, evs, d, e) && Path(more, then', e, f)
    ensures Path(way[..|evs|] + more, evs + then', d, f)
  {
    hide StepOf;
    var w, v := way[..|evs|] + more, evs + then';
    forall i | 0 <= i < |v| ensures StepOf(w[i], v[i], w[i + 1]) {
      if i >= |evs| {
        assert w[i] == more[i - |evs|] && w[i + 1] == more[i - |evs| + 1];
      }
    }
  }

  /** The rest of a group goes into the memtable, operation by operation. */
  lemma {:induction false} GroupIsInserted(d: Db) returns (way: seq<Db>, evs: seq<Event>, e: Db)
    requires Inv(d) && InMemTable(d) && d.phase.Applying?
    ensures Path(way, evs, d, e) && Inv(e) && InMemTable(e) && forall ev :: ev in evs ==> ev.InsertNext?
    ensures e.phase == d.phase.(i := |d.phase.r.ops|) && e == d.(mem := e.mem, inserted := e.inserted, phase := e.phase)
    decreases |d.phase.r.ops| - d.phase.i
  {
    hide Inv, InMemTable;
    assert d.phase.i <= |d.phase.r.ops| by { WithinGroup(d); }
    if d.phase.i == |d.phase.r.ops| {
      way, evs, e := [d], [], d;
    } else {
      var next := Inserted(d);
      InsertIsEnabled(d);
      EventKeeps(d, InsertNext);
      InMemTableStep(d, InsertNext);
      hide StepOf;
      way, evs, e := GroupIsInserted(next);
      PathStep(d, InsertNext, next, way, evs, e);
      way, evs := [d] + way, [InsertNext] + evs;
    }
  }

  lemma WithinGroup(d: Db)
    requires InMemTable(d) && d.phase.Applying?
    ensures d.phase.i <= |d.phase.r.ops|
  {
  }

  lemma InsertIsEnabled(d: Db)
    requires d.phase.Applying? && d.phase.i < |d.phase.r.ops|
    ensures StepOf(d, InsertNext, Inserted(d))
  {
    hide Inserted;
  }

  // ----- writers -----

  /** The append and the sync succeed. */
  const FINE := Append(Written(true, true))

  lemma BeginIsEnabled(d: Db)
    requires d.phase.Ready? && d.writers != [] && !d.bgError && d.writers[0].batch.Some?
    ensures var n := GroupEnd(d.writers, 1, d.writers[0].bytes);
      1 <= n <= |d.writers| && StepOf(d, Begin, Begun(d, n))
  {
    hide GroupOps, GroupEnd, AllTaken;
  }

  lemma AppendIsEnabled(d: Db)
    requires Inv(d) && d.phase.Logging?
    ensures d.logNumber in d.logs && StepOf(d, FINE, Settled(d, Written(true, true)))
    ensures var e := Settled(d, Written(true, true));
      e.phase == Applying(d.phase.r, d.phase.n, 0) && e.writers == d.writers && e.bgError == d.bgError
  {
    hide Inv, Settled;
    LogOpen(d);
    SettledFine(d);
  }

  lemma SettledFine(d: Db)
    requires d.phase.Logging? && d.logNumber in d.logs
    ensures var e := Settled(d, Written(true, true));
      e.phase == Applying(d.phase.r, d.phase.n, 0) && e.writers == d.writers && e.bgError == d.bgError
  {
    hide AllOf;
  }

  lemma LogOpen(d: Db)
    requires Inv(d)
    ensures d.logNumber in d.logs
  {
    hide Numbering, Refusals, Order, Meaning, Control, Queue, Coverage, Journal;
  }

  lemma FinishIsEnabled(d: Db)
    requires AllInserted(d)
    ensures StepOf(d, Finish, Finished(d))
    ensures var e := Finished(d); e.phase == Ready && e.bgError == d.bgError
  {
  }

  /** A group that the log takes is inserted, and its writers leave the queue. */
  lemma GroupIsApplied(d: Db) returns (way: seq<Db>, evs: seq<Event>, last: Db, e: Db)
    requires Inv(d) && InMemTable(d) && d.phase.Logging? && !d.bgError
    ensures Path(way, evs, d, e) && Inv(e) && e.phase == Ready && !e.bgError
    ensures Inv(last) && AllInserted(last) && StepOf(last, Finish, e) && last.writers == d.writers
  {
    hide Inv, InMemTable, StepOf, Settled, Finished;
    AppendIsEnabled(d);
    var a := Settled(d, Written(true, true));
    EventHolds(d, FINE, a);
    way, evs, last := GroupIsInserted(a);
    e := Finished(last);
    FinishIsEnabled(last);
    EventHolds(last, Finish, e);
    PathEnd(last, Finish, e);
    PathJoin(way, evs, a, last, [last, e], [Finish], e);
    way, evs := way[..|evs|] + [last, e], evs + [Finish];
    PathStep(d, FINE, a, way, evs, e);
    way, evs := [d] + way, [FINE] + evs;
  }

  lemma EventHolds(d: Db, ev: Event, e: Db)
    requires Inv(d) && InMemTable(d) && StepOf(d, ev, e)
    ensures Inv(e) && InMemTable(e)
  {
    hide Inv, InMemTable, Enabled, Apply;
    EventKeeps(d, ev);
    InMemTableStep(d, ev);
  }

  lemma PathEnd(d: Db, ev: Event, e: Db)
    requires StepOf(d, ev, e)
    ensures Path([d, e], [ev], d, e)
  {
    hide StepOf;
  }

  /** Whoever is in front of the queue with a batch is served, together with the group behind it, and what was written
      is read. */
  lemma FrontIsServed(d: Db) returns (way: seq<Db>, evs: seq<Event>, last: Db, e: Db)
    requires Inv(d) && d.phase.Ready? && d.writers != [] && !d.bgError && d.writers[0].batch.Some?
    ensures Path(way, evs, d, e) && Inv(e) && e.phase == Ready && !e.bgError && |e.writers| < |d.writers|
    ensures last.writers == d.writers && forall k :: ReadsWritten(last, e, k)
  {
    hide Inv, StepOf, ReadsWritten, GroupEnd, Begun;
    BeginIsEnabled(d);
    var b := Begun(d, GroupEnd(d.writers, 1, d.writers[0].bytes));
    assert InMemTable(d);
    EventHolds(d, Begin, b);
    BegunIs(d);
    way, evs, last, e := GroupIsApplied(b);
    PathStep(d, Begin, b, way, evs, e);
    way, evs := [d] + way, [Begin] + evs;
    forall k ensures ReadsWritten(last, e, k) {
      EndOfWriteReads(last, e, k);
    }
    Shorter(last, e, 0.0);
  }

  lemma BegunIs(d: Db)
    requires d.writers != []
    ensures var b := Begun(d, GroupEnd(d.writers, 1, d.writers[0].bytes));
      b.phase.Logging? && b.writers == d.writers && b.bgError == d.bgError
  {
  }

  lemma Shorter(d: Db, e: Db, k: UserKey)
    requires ReadsWritten(d, e, k)
    ensures |e.writers| < |d.writers|
  {
  }

  /** Nobody waits for ever: as long as the files can be written, the whole queue is served, one group after the
      other. A null batch leaves by itself. */
  lemma {:induction false} QueueDrains(d: Db) returns (way: seq<Db>, evs: seq<Event>, e: Db)
    requires Inv(d) && d.phase.Ready? && !d.bgError
    ensures Path(way, evs, d, e) && Inv(e) && e.phase == Ready && !e.bgError && e.writers == []
    decreases |d.writers|
  {
    hide Inv, StepOf, ReadsWritten;
    if d.writers == [] {
      way, evs, e := [d], [], d;
    } else if d.writers[0].batch.None? {
      var r := d.(writers := d.writers[1..], fates := d.fates + [Refused]);
      RefuseIsEnabled(d);
      EventHolds(d, Refuse, r);
      way, evs, e := QueueDrains(r);
      PathStep(d, Refuse, r, way, evs, e);
      way, evs := [d] + way, [Refuse] + evs;
    } else {
      var first, served, last, m := FrontIsServed(d);
      var then', rest, f := QueueDrains(m);
      PathJoin(first, served, d, m, then', rest, f);
      way, evs, e := first[..|served|] + then', served + rest, f;
    }
  }

  lemma RefuseIsEnabled(d: Db)
    requires d.phase.Ready? && d.writers != []
    ensures StepOf(d, Refuse, d.(writers := d.writers[1..], fates := d.fates + [Refused]))
  {
  }

  // ----- comings and goings -----

  /** Writers may always queue up, snapshots and versions be taken. */
  lemma EveryoneMayCome(d: Db, w: Writer)
    ensures StepOf(d, Enqueue(w), d.(writers := d.writers + [w], arrived := d.arrived + [w]))
    ensures StepOf(d, GetSnapshot, d.(snapshots := d.snapshots + [d.lastSequence]))
    ensures StepOf(d, OpenReader, d.(readers := d.readers + [d.current]))
  {
  }

  lemma OneLess<T>(xs: seq<T>, i: nat)
    requires i < |xs|
    ensures multiset(xs[..i] + xs[i + 1..]) + multiset{xs[i]} == multiset(xs)
  {
    assert xs == xs[..i] + [xs[i]] + xs[i + 1..];
  }

  /** And whoever holds a snapshot may let it go: that one and no other. */
  lemma SnapshotMayGo(d: Db, i: nat) returns (e: Db)
    requires i < |d.snapshots|
    ensures StepOf(d, ReleaseSnapshot(i), e) && e == d.(snapshots := e.snapshots)
    ensures multiset(e.snapshots) + multiset{d.snapshots[i]} == multiset(d.snapshots)
  {
    OneLess(d.snapshots, i);
    e := d.(snapshots := d.snapshots[..i] + d.snapshots[i + 1..]);
  }

  lemma VersionMayGo(d: Db, i: nat) returns (e: Db)
    requires i < |d.readers|
    ensures StepOf(d, CloseReader(i), e) && e == d.(readers := e.readers)
    ensures multiset(e.readers) + multiset{d.readers[i]} == multiset(d.readers)
  {
    OneLess(d.readers, i);
    e := d.(readers := d.readers[..i] + d.readers[i + 1..]);
  }

  // ----- background work -----

  lemma SwitchIsEnabled(d: Db)
    requires d.phase.Ready? && d.writers != [] && !d.bgError && d.imm.None?
    ensures StepOf(d, Switch, Switched(d))
    ensures Switched(d).imm == Some(d.mem) && Switched(d).mem == {}
  {
  }

  lemma FlushStarts(d: Db)
    requires d.imm.Some? && d.flush.NoFlush? && !d.bgError && (d.comp.Compacting? ==> d.comp.seal.None?)
    ensures var e := d.(flush := Building(d.nextFile), pending := d.pending + {d.nextFile}, nextFile := d.nextFile + 1);
      StepOf(d, StartFlush, e)
  {
  }

  lemma FlushBuilds(d: Db)
    requires d.flush.Building? && d.imm.Some?
    ensures StepOf(d, FlushBuilt(true), Built(d))
    ensures Built(d).flush.Installing? && Built(d).imm == d.imm && Built(d).bgError == d.bgError
  {
  }

  lemma FlushInstalls(d: Db)
    requires d.flush.Installing? && d.imm.Some?
    ensures var e := Collect(FlushDone(d));
      StepOf(d, FlushInstalled(true, true), e) && e.imm == None && e.flush == NoFlush && e.bgError == d.bgError
  {
    hide AfterFlush, FlushTables, Live;
  }

  /** A full memtable becomes a table, also while a compaction is under way, and nothing that is read changes. */
  lemma MemTableIsFlushed(d: Db) returns (way: seq<Db>, evs: seq<Event>, e: Db)
    requires Inv(d) && d.imm.Some? && d.flush.NoFlush? && !d.bgError && (d.comp.Compacting? ==> d.comp.seal.None?)
    ensures Path(way, evs, d, e) && Inv(e) && e.imm.None? && e.flush.NoFlush? && !e.bgError && View(e) == View(d)
  {
    hide Inv, StepOf, Built, FlushDone, Collect, View, Without;
    var b := d.(flush := Building(d.nextFile), pending := d.pending + {d.nextFile}, nextFile := d.nextFile + 1);
    FlushStarts(d);
    KeepsAndRearranges(d, StartFlush, b);
    var t := Built(b);
    FlushBuilds(b);
    KeepsAndRearranges(b, FlushBuilt(true), t);
    e := Collect(FlushDone(t));
    FlushInstalls(t);
    KeepsAndRearranges(t, FlushInstalled(true, true), e);
    PathEnd(t, FlushInstalled(true, true), e);
    PathStep(b, FlushBuilt(true), t, [t, e], [FlushInstalled(true, true)], e);
    way, evs := [b] + [t, e], [FlushBuilt(true)] + [FlushInstalled(true, true)];
    PathStep(d, StartFlush, b, way, evs, e);
    way, evs := [d] + way, [StartFlush] + evs;
  }

  lemma KeepsAndRearranges(d: Db, ev: Event, e: Db)
    requires Inv(d) && StepOf(d, ev, e) && Rearranges(ev)
    ensures Inv(e) && View(e) == View(d)
  {
    hide Inv, Enabled, Apply, View, Without;
    EventKeeps(d, ev);
    RearrangedView(d, ev, e, {});
    WithoutNone(d);
    WithoutNone(e);
  }

  lemma OutputIsEnabled(d: Db)
    requires d.comp.Compacting? && d.comp.seal.None? && d.comp.outs == {} && d.flush.NoFlush?
    ensures StepOf(d, CompactionOutput(d.comp.kept), OutputWritten(d, d.comp.kept))
    ensures var e := OutputWritten(d, d.comp.kept);
      && e.comp == d.comp.(outs := {d.nextFile}) && e.flush.NoFlush? && e.files == d.files[d.nextFile := d.comp.kept]
      && e.current == d.current && e.bgError == d.bgError
  {
    hide TableEntries;
  }

  lemma SealIsEnabled(d: Db, n: nat)
    requires d.comp.Compacting? && d.comp.seal.None? && d.flush.NoFlush?
    requires d.comp.outs == {n} && n in d.files && d.files[n] == d.comp.kept
    ensures StepOf(d, SealCompaction, d.(comp := d.comp.(seal := Some((d.lastSequence, d.nextFile)))))
    ensures TableEntries({n}, d.files) == d.comp.kept
  {
    TableOne(n, d.files);
  }

  lemma InstallIsEnabled(d: Db)
    requires d.comp.Compacting? && d.comp.seal.Some? && d.flush.NoFlush?
    ensures StepOf(d, CompactionInstalled(true, true), Collect(CompactionDone(d)))
    ensures var e := Collect(CompactionDone(d));
      e.comp.NoCompaction? && e.bgError == d.bgError && e.current == d.current - d.comp.inputs + d.comp.outs
  {
    hide AfterCompaction, Spoils, Live, Max;
  }

  lemma StartIsEnabled(d: Db, inputs: set<nat>, deeper: set<nat>, kept: set<Entry>)
    requires Enabled(d, StartCompaction(inputs, deeper, kept))
    ensures var e := d.(comp := Compacting(inputs, deeper, SmallestSnapshot(d), kept, {}, None));
      StepOf(d, StartCompaction(inputs, deeper, kept), e) && e.flush.NoFlush? && !e.bgError
  {
    hide TableEntries, C.GoodDrop;
  }

  /** A compaction that may start can come to its end: its inputs are replaced by a table of what it keeps. */
  lemma CompactionEnds(d: Db, inputs: set<nat>, deeper: set<nat>, kept: set<Entry>)
    returns (way: seq<Db>, evs: seq<Event>, e: Db)
    requires Inv(d) && Enabled(d, StartCompaction(inputs, deeper, kept))
    ensures Path(way, evs, d, e) && Inv(e) && e.comp.NoCompaction? && !e.bgError
    ensures e.current == d.current - inputs + {d.nextFile}
  {
    hide Inv, StepOf, SmallestSnapshot, OutputWritten, CompactionDone, Collect, Enabled;
    var start, seal := StartCompaction(inputs, deeper, kept), CompactionInstalled(true, true);
    var a := d.(comp := Compacting(inputs, deeper, SmallestSnapshot(d), kept, {}, None));
    StartIsEnabled(d, inputs, deeper, kept);
    Holds(d, start, a);
    var b := OutputWritten(a, kept);
    OutputIsEnabled(a);
    Holds(a, CompactionOutput(kept), b);
    var c := b.(comp := b.comp.(seal := Some((b.lastSequence, b.nextFile))));
    SealIsEnabled(b, d.nextFile);
    Holds(b, SealCompaction, c);
    e := Collect(CompactionDone(c));
    InstallIsEnabled(c);
    Holds(c, seal, e);
    PathEnd(c, seal, e);
    PathStep(b, SealCompaction, c, [c, e], [seal], e);
    way, evs := [b] + [c, e], [SealCompaction] + [seal];
    PathStep(a, CompactionOutput(kept), b, way, evs, e);
    way, evs := [a] + way, [CompactionOutput(kept)] + evs;
    PathStep(d, start, a, way, evs, e);
    way, evs := [d] + way, [start] + evs;
  }

  lemma Holds(d: Db, ev: Event, e: Db)
    requires Inv(d) && StepOf(d, ev, e)
    ensures Inv(e)
  {
    hide Inv, Enabled, Apply;
    EventKeeps(d, ev);
  }

  // ----- after a crash -----

  /** The store can be opened after a crash at any moment, whatever of the records behind a torn append is read back. */
  lemma CanReopen(d: Db, found: map<nat, seq<Record>>) returns (rebuilt: map<nat, set<Entry>>, newLog: nat, e: Db)
    requires Inv(d) && Readable(d, found)
    ensures StepOf(d, CrashAndReopen(found, rebuilt, newLog), e) && Inv(e) && e.phase.Ready? && !e.bgError
  {
    hide Inv, Readable, LogsFrom, Reopened;
    var top := Above(d.manifest.nextFile, d.logs.Keys);
    newLog := top + 2;
    rebuilt := map[top + 1 := LogsFrom(found, d.manifest.log)];
    TableOne(top + 1, rebuilt);
    assert rebuilt.Keys == {top + 1};
    e := Reopened(d, found, rebuilt, newLog);
    Holds(d, CrashAndReopen(found, rebuilt, newLog), e);
    FreshlyOpened(d, found, rebuilt, newLog);
  }

  lemma FreshlyOpened(d: Db, found: map<nat, seq<Record>>, rebuilt: map<nat, set<Entry>>, newLog: nat)
    ensures var e := Reopened(d, found, rebuilt, newLog); e.phase.Ready? && !e.bgError
  {
    hide Recovered, RecoveredEnd;
  }

  lemma {:induction false} PicksAll(rs: seq<Record>)
    ensures Picks(rs, rs)
  {
    if rs != [] {
      PicksAll(rs[1..]);
    }
  }

  /** And there is always something to read back: all that was logged. */
  lemma AllMayBeRead(d: Db)
    ensures Readable(d, d.logs)
  {
    forall n | n in d.logs && n in d.torn ensures Genuine(d, n, d.logs[n]) {
      PicksAll(Behind(d, n));
    }
  }
}
