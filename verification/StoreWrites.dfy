/**
  What writes and compactions do, said in terms of what callers handed over and of numbers handed out:
  a batch that is acknowledged is read from then on, one that is refused is not, and a compaction keeps no
  version that all readers prefer another one to.
 */
module StoreWrites {
  import opened Format
  import opened Store
  import opened StoreInvariant
  import opened StoreSteps
  import opened StoreTheorems
  import C = Compaction

  // ----- the operations of a group -----

  /** Operation `j` of the batch of writer `w` is the last one on `k` in the batches of `ws`. */
  ghost predicate LastOn(ws: seq<Writer>, k: UserKey, w: nat, j: nat) {
    && w < |ws| && ws[w].batch.Some? && j < |ws[w].batch.value| && ws[w].batch.value[j].key == k
    && (forall i :: j < i < |ws[w].batch.value| ==> ws[w].batch.value[i].key != k)
    && forall v, i :: w < v < |ws| && ws[v].batch.Some? && 0 <= i < |ws[v].batch.value| ==>
         ws[v].batch.value[i].key != k
  }

  ghost predicate NoneOn(ws: seq<Writer>, k: UserKey) {
    forall v, i :: 0 <= v < |ws| && ws[v].batch.Some? && 0 <= i < |ws[v].batch.value| ==> ws[v].batch.value[i].key != k
  }

  lemma {:induction false} StretchesAscend(ws: seq<Writer>, ops: seq<Op>, at: seq<nat>, v: nat, w: nat)
    requires |at| == |ws| + 1 && v <= w <= |ws|
    requires forall i :: 0 <= i < |ws| ==> LiesAt(ws[i].batch, ops, at[i], at[i + 1])
    ensures at[v] <= at[w]
    decreases w
  {
    if v < w {
      StretchesAscend(ws, ops, at, v, w - 1);
      assert LiesAt(ws[w - 1].batch, ops, at[w - 1], at[w]);
    }
  }

  /** Every operation is one of some batch. */
  lemma {:induction false} OwnerOf(ws: seq<Writer>, ops: seq<Op>, at: seq<nat>, t: nat, n: nat) returns (w: nat)
    requires |at| == |ws| + 1 && n <= |ws| && at[0] <= t < at[n]
    requires forall i :: 0 <= i < |ws| ==> LiesAt(ws[i].batch, ops, at[i], at[i + 1])
    ensures w < n && at[w] <= t < at[w + 1] <= |ops|
    ensures ws[w].batch.Some? && t - at[w] < |ws[w].batch.value| && ops[t] == ws[w].batch.value[t - at[w]]
    decreases n
  {
    if at[n - 1] <= t {
      w := n - 1;
      assert LiesAt(ws[w].batch, ops, at[w], at[w + 1]);
    } else {
      w := OwnerOf(ws, ops, at, t, n - 1);
    }
  }

  lemma LastOfAll(ws: seq<Writer>, ops: seq<Op>, at: seq<nat>, k: UserKey, w: nat, j: nat)
    requires Divides(at, |ws|, ops) && LastOn(ws, k, w, j)
    requires forall i :: 0 <= i < |ws| ==> LiesAt(ws[i].batch, ops, at[i], at[i + 1])
    ensures at[w] + j < |ops| && ops[at[w] + j] == ws[w].batch.value[j]
    ensures forall t :: at[w] + j < t < |ops| ==> ops[t].key != k
  {
    assert LiesAt(ws[w].batch, ops, at[w], at[w + 1]);
    forall t | at[w] + j < t < |ops| ensures ops[t].key != k {
      var v := OwnerOf(ws, ops, at, t, |ws|);
      if v < w {
        StretchesAscend(ws, ops, at, v + 1, w);
      }
    }
  }

  lemma NoneOfAll(ws: seq<Writer>, ops: seq<Op>, at: seq<nat>, k: UserKey)
    requires Divides(at, |ws|, ops) && NoneOn(ws, k)
    requires forall i :: 0 <= i < |ws| ==> LiesAt(ws[i].batch, ops, at[i], at[i + 1])
    ensures forall t :: 0 <= t < |ops| ==> ops[t].key != k
  {
    forall t | 0 <= t < |ops| ensures ops[t].key != k {
      var v := OwnerOf(ws, ops, at, t, |ws|);
    }
  }

  // ----- what is in the memtable when a write ends -----

  /** The operations of a group already inserted are in the memtable. */
  ghost predicate InMemTable(d: Db) {
    d.phase.Applying? ==> d.phase.i <= |d.phase.r.ops| && Prefix(d.phase.r, d.phase.i) <= d.mem
  }

  /** Nothing is written. */
  ghost predicate NothingWritten(d: Db, e: Db) {
    && e.mem == d.mem && e.inserted == d.inserted && (d.bgError ==> e.bgError)
    && e.phase == d.phase && e.attempts == d.attempts
  }

  lemma ForegroundWrites(d: Db, ev: Event)
    requires Enabled(d, ev) && Foreground(ev) && !ev.Switch? && !ev.Begin?
    ensures NothingWritten(d, Apply(d, ev))
  {
  }

  lemma FlushWrites(d: Db, ev: Event)
    requires Enabled(d, ev) && (ev.StartFlush? || ev.FlushBuilt? || ev.FlushInstalled?)
    ensures NothingWritten(d, Apply(d, ev))
  {
    hide AfterFlush, FlushTables, FlushDone, Built, Collect;
    if ev.FlushBuilt? && ev.built {
      BuiltWrites(d);
    } else if ev.FlushInstalled? && ev.installed {
      FlushDoneWrites(d);
    }
  }

  lemma BuiltWrites(d: Db)
    requires d.flush.Building? && d.imm.Some?
    ensures NothingWritten(d, Built(d))
  {
  }

  lemma FlushDoneWrites(d: Db)
    requires d.flush.Installing?
    ensures NothingWritten(d, Collect(FlushDone(d)))
  {
    hide AfterFlush, FlushTables, Live;
  }

  lemma CompactionWrites(d: Db, ev: Event)
    requires Enabled(d, ev)
    requires ev.StartCompaction? || ev.CompactionOutput? || ev.SealCompaction? || ev.AbortCompaction?
    ensures NothingWritten(d, Apply(d, ev))
  {
    hide TableEntries, SmallestSnapshot, C.GoodDrop;
  }

  lemma InstallationWrites(d: Db, ev: Event)
    requires Enabled(d, ev) && ev.CompactionInstalled?
    ensures NothingWritten(d, Apply(d, ev))
  {
    hide AfterCompaction, Spoils, Live, Max;
  }

  lemma RestWritesNothing(d: Db, ev: Event)
    requires Enabled(d, ev) && !ev.Switch? && !ev.Begin? && !ev.Append? && !ev.InsertNext? && !ev.Finish?
      && !ev.CrashAndReopen?
    ensures NothingWritten(d, Apply(d, ev))
  {
    hide Enabled, Apply, NothingWritten;
    if Foreground(ev) {
      ForegroundWrites(d, ev);
    } else if ev.StartFlush? || ev.FlushBuilt? || ev.FlushInstalled? {
      FlushWrites(d, ev);
    } else if ev.CompactionInstalled? {
      InstallationWrites(d, ev);
    } else {
      CompactionWrites(d, ev);
    }
  }

  lemma InMemTableStep(d: Db, ev: Event)
    requires InMemTable(d) && Enabled(d, ev)
    ensures InMemTable(Apply(d, ev))
  {
    hide Prefix;
    match ev
    case Switch => {}
    case Append(o) => {
      NothingInserted(d.phase.r);
      hide Tears, AllOf;
    }
    case InsertNext => OneMoreInserted(d.phase.r, d.phase.i);
    case Finish => {}
    case Begin => {}
    case CrashAndReopen(found, rebuilt, newLog) => {
      hide Enabled, Recovered, RecoveredEnd;
    }
    case _ => {
      RestWritesNothing(d, ev);
      hide Enabled, Apply;
    }
  }

  lemma NothingInserted(r: Record)
    ensures Prefix(r, 0) == {}
  {
  }

  lemma OneMoreInserted(r: Record, i: nat)
    requires i < |r.ops|
    ensures Prefix(r, i + 1) == Prefix(r, i) + {EntryOf(r, i)}
  {
  }

  lemma {:induction false} InsertedIsThere(run: seq<Db>, evs: seq<Event>, i: nat)
    requires IsRun(run, evs) && i < |run|
    ensures InMemTable(run[i])
  {
    hide InMemTable, Enabled, Apply;
    if i == 0 {
      NothingBegun();
    } else {
      InsertedIsThere(run, evs, i - 1);
      assert StepOf(run[i - 1], evs[i - 1], run[i]);
      InMemTableStep(run[i - 1], evs[i - 1]);
    }
  }

  lemma NothingBegun()
    ensures InMemTable(Created())
  {
  }

  /** What readers find is of the group in front, or was published before. */
  lemma ViewIsOldOrNew(d: Db, x: Entry)
    requires Inv(d) && x in View(d)
    ensures x.sn <= d.lastSequence || (!d.phase.Ready? && x in AllOf(d.phase.r) && d.phase.r.base == d.lastSequence + 1)
  {
    hide Order, Meaning, Control, Queue, Coverage, Journal, View, Disjoint, Unique;
    IntendedApart(d);
    if x in Logged(d.records) {
      var q :| q in d.records && x in AllOf(q);
      RecordNumbers(q, |q.ops|);
    }
  }

  /** When nobody is inserting, all that readers find is published. */
  lemma ViewIsPublished(d: Db, x: Entry)
    requires Inv(d) && !d.phase.Applying? && x in View(d)
    ensures x.sn <= d.lastSequence
  {
    hide Numbering, Placement, Refusals, Meaning, Control, Queue, Coverage, Journal, TableEntries;
  }

  // ----- what is read once a write has ended -----

  /** Reading the same set at two numbers with nothing on the user key between them. */
  lemma NothingBetween(es: set<Entry>, k: UserKey, s: nat, t: nat)
    requires NoClash(es) && s <= t && forall x :: x in es && x.key == k && x.sn <= t ==> x.sn <= s
    ensures Read(es, k, t) == Read(es, k, s)
  {
    if e :| IsNewest(es, k, s, e) {
      assert IsNewest(es, k, t, e);
      ReadIs(es, k, s, e);
      ReadIs(es, k, t, e);
    } else if e :| IsNewest(es, k, t, e) {
      assert IsNewest(es, k, s, e);
    }
  }

  ghost predicate AllInserted(d: Db) {
    d.phase.Applying? && d.phase.i == |d.phase.r.ops| && InMemTable(d)
  }

  lemma InsertedIsSeen(d: Db, t: nat)
    requires AllInserted(d) && t < |d.phase.r.ops|
    ensures EntryOf(d.phase.r, t) in View(d)
  {
    hide TableEntries;
    assert EntryOf(d.phase.r, t) in Prefix(d.phase.r, |d.phase.r.ops|);
  }

  lemma ViewsAgree(d: Db)
    requires Inv(d)
    ensures NoClash(View(d))
  {
    hide Inv, View, NoClash;
    LayersOrdered(d);
  }

  /** The last operation of the group on a user key is what is read. */
  lemma LastOpIsRead(d: Db, k: UserKey, t: nat)
    requires Inv(d) && AllInserted(d) && t < |d.phase.r.ops| && d.phase.r.ops[t].key == k
    requires forall u :: t < u < |d.phase.r.ops| ==> d.phase.r.ops[u].key != k
    ensures Read(View(d), k, d.lastSequence + |d.phase.r.ops|) ==
      match d.phase.r.ops[t] case Write(_, v) => Some(v) case Erase(_) => None
  {
    hide Inv, View, NoClash, InMemTable;
    var r, x, s := d.phase.r, EntryOf(d.phase.r, t), d.lastSequence + |d.phase.r.ops|;
    ViewsAgree(d);
    InsertedIsSeen(d, t);
    BaseIsNext(d);
    forall f | f in View(d) && f.key == k ensures f.sn <= x.sn {
      ViewIsOldOrNew(d, f);
      if f in AllOf(r) {
        var u :| 0 <= u < |r.ops| && f == EntryOf(r, u);
      }
    }
    assert IsNewest(View(d), k, s, x);
    ReadIs(View(d), k, s, x);
  }

  lemma BaseIsNext(d: Db)
    requires Inv(d) && !d.phase.Ready?
    ensures d.phase.r.base == d.lastSequence + 1
  {
    hide Refusals, Placement, Order, Meaning, Control, Queue, Coverage, Journal;
  }

  lemma NotOfGroup(r: Record, k: UserKey, x: Entry)
    requires x.key == k && forall t :: 0 <= t < |r.ops| ==> r.ops[t].key != k
    ensures x !in AllOf(r)
  {
  }

  lemma OthersUnchanged(d: Db, k: UserKey)
    requires Inv(d) && d.phase.Applying? && forall t :: 0 <= t < |d.phase.r.ops| ==> d.phase.r.ops[t].key != k
    ensures Read(View(d), k, d.lastSequence + |d.phase.r.ops|) == Read(View(d), k, d.lastSequence)
  {
    hide Inv, View, NoClash;
    var r := d.phase.r;
    ViewsAgree(d);
    forall x | x in View(d) && x.key == k ensures x.sn <= d.lastSequence {
      ViewIsOldOrNew(d, x);
      NotOfGroup(r, k, x);
    }
    NothingBetween(View(d), k, d.lastSequence, d.lastSequence + |r.ops|);
  }

  lemma RefusedUnseen(d: Db, k: UserKey)
    requires Inv(d) && d.phase.Failed?
    ensures Read(View(d), k, d.lastSequence + |d.phase.r.ops|) == Read(View(d), k, d.lastSequence)
  {
    hide Inv, View, NoClash;
    ViewsAgree(d);
    forall x | x in View(d) ensures x.sn <= d.lastSequence {
      ViewIsPublished(d, x);
    }
    NothingBetween(View(d), k, d.lastSequence, d.lastSequence + |d.phase.r.ops|);
  }

  lemma FinishView(d: Db, e: Db)
    requires StepOf(d, Finish, e)
    ensures View(e) == View(d) && e.lastSequence == d.lastSequence + |d.phase.r.ops|
    ensures d.phase.Failed? || (d.phase.Applying? && d.phase.i == |d.phase.r.ops|)
  {
    hide TableEntries;
  }

  /** Of each user key is read what the last operation on it made of it, in the batches of the writers that leave the
      queue; a user key in none of them reads as before. */
  ghost predicate ReadsWritten(d: Db, e: Db, k: UserKey) {
    && |e.writers| < |d.writers| && d.writers[|d.writers| - |e.writers|..] == e.writers
    && var popped, now := d.writers[..|d.writers| - |e.writers|], Read(View(e), k, e.lastSequence);
    && (forall w: nat, j: nat :: LastOn(popped, k, w, j) ==>
          now == match popped[w].batch.value[j] case Write(_, v) => Some(v) case Erase(_) => None)
    && (NoneOn(popped, k) ==> now == Read(View(d), k, d.lastSequence))
  }

  lemma EndOfWriteReads(d: Db, e: Db, k: UserKey)
    requires Inv(d) && AllInserted(d) && StepOf(d, Finish, e)
    ensures ReadsWritten(d, e, k)
  {
    hide Inv, View, NoneOn, LiesAt, InMemTable, StepOf;
    FinishView(d, e);
    var at := Popped(d, e);
    var n, ops := d.phase.n, d.phase.r.ops;
    var popped := d.writers[..n];
    forall w: nat, j: nat | LastOn(popped, k, w, j)
      ensures Read(View(e), k, e.lastSequence)
           == match popped[w].batch.value[j] case Write(_, v) => Some(v) case Erase(_) => None
    {
      LastOfAll(popped, ops, at, k, w, j);
      LastOpIsRead(d, k, at[w] + j);
    }
    if NoneOn(popped, k) {
      NoneOfAll(popped, ops, at, k);
      OthersUnchanged(d, k);
    }
  }

  /** When a write ends that was logged and synced, every reader that comes now reads what was written. */
  lemma WritesAreRead(run: seq<Db>, evs: seq<Event>, i: nat, k: UserKey)
    requires IsRun(run, evs) && i < |evs| && evs[i].Finish? && run[i].phase.Applying?
    ensures ReadsWritten(run[i], run[i + 1], k)
  {
    hide Inv, InMemTable, ReadsWritten;
    RunsAreSafe(run, evs, i);
    InsertedIsThere(run, evs, i);
    assert StepOf(run[i], Finish, run[i + 1]);
    hide StepOf;
    FinishView(run[i], run[i + 1]);
    EndOfWriteReads(run[i], run[i + 1], k);
  }

  lemma Popped(d: Db, e: Db) returns (at: seq<nat>)
    requires Inv(d) && StepOf(d, Finish, e)
    ensures 1 <= d.phase.n <= |d.writers| && e.writers == d.writers[d.phase.n..]
    ensures Divides(at, d.phase.n, d.phase.r.ops)
    ensures forall w :: 0 <= w < d.phase.n ==> LiesAt(d.writers[w].batch, d.phase.r.ops, at[w], at[w + 1])
  {
    hide Inv, Enabled, Apply, LiesAt;
    at := FinishPopsItsGroup(d);
  }

  /** When a write ends that failed, nobody reads anything of it. */
  lemma RefusedIsUnread(run: seq<Db>, evs: seq<Event>, i: nat, k: UserKey)
    requires IsRun(run, evs) && i < |evs| && evs[i].Finish? && run[i].phase.Failed?
    ensures Read(View(run[i + 1]), k, run[i + 1].lastSequence) == Read(View(run[i]), k, run[i].lastSequence)
  {
    hide Inv, View;
    RunsAreSafe(run, evs, i);
    assert StepOf(run[i], Finish, run[i + 1]);
    hide StepOf;
    FinishView(run[i], run[i + 1]);
    RefusedUnseen(run[i], k);
  }

  // ----- after a failed sync -----

  /** A sync has failed: the writer in front is about to leave with the error, or has left. */
  ghost predicate Shut(d: Db) {
    (d.phase.Failed? && d.phase.syncError) || (d.phase.Ready? && d.bgError)
  }

  lemma ShutStays(d: Db, ev: Event)
    requires Shut(d) && Enabled(d, ev) && !ev.CrashAndReopen?
    ensures Shut(Apply(d, ev)) && !ev.Begin? && !ev.Append? && !ev.InsertNext?
    ensures Apply(d, ev).inserted == d.inserted && Apply(d, ev).attempts == d.attempts
  {
    ShutOut(d, ev);
    if ev.Finish? {
      hide Enabled;
    } else {
      RestWritesNothing(d, ev);
      hide Enabled, Apply;
    }
  }

  lemma ShutOut(d: Db, ev: Event)
    requires Shut(d) && Enabled(d, ev)
    ensures !ev.Switch? && !ev.Begin? && !ev.Append? && !ev.InsertNext?
  {
  }

  /** Once a sync has failed, no write is begun, logged or inserted any more until the store is reopened: of what
      follows it could not be said whether a crash keeps it. */
  lemma {:induction false} NoWriteAfterSyncError(run: seq<Db>, evs: seq<Event>, i: nat, j: nat)
    requires Calm(run, evs, i, j) && i < j && evs[i].Append? && evs[i].outcome.Written? && !evs[i].outcome.synced
    ensures Shut(run[j]) && run[j].inserted == run[i].inserted && run[j].attempts == run[i].attempts
    ensures j < |evs| ==> !evs[j].Begin? && !evs[j].Append? && !evs[j].InsertNext?
    decreases j
  {
    hide Enabled, Apply;
    assert StepOf(run[j - 1], evs[j - 1], run[j]);
    if i + 1 == j {
      FailedSyncShuts(run[i], evs[i].outcome, run[j]);
    } else {
      NoWriteAfterSyncError(run, evs, i, j - 1);
      ShutStays(run[j - 1], evs[j - 1]);
    }
    if j < |evs| && !evs[j].CrashAndReopen? {
      assert StepOf(run[j], evs[j], run[j + 1]);
      ShutStays(run[j], evs[j]);
    }
  }

  lemma FailedSyncShuts(d: Db, o: Outcome, e: Db)
    requires StepOf(d, Append(o), e) && o.Written? && !o.synced
    ensures Shut(e) && e.inserted == d.inserted && e.attempts == d.attempts
  {
    hide AllOf, Tears;
  }

  // ----- files being written -----

  /** The outputs protected from collection are those of the flush and of the compaction that are writing. */
  ghost predicate PendingInUse(d: Db) {
    d.pending == (if d.flush.Building? then {d.flush.number} else {}) + (if d.comp.Compacting? then d.comp.outs else {})
  }

  lemma ForegroundPending(d: Db, ev: Event)
    requires PendingInUse(d) && Enabled(d, ev) && Foreground(ev)
    ensures PendingInUse(Apply(d, ev))
  {
    hide GroupOps, GroupEnd, AllTaken;
  }

  lemma WritePending(d: Db, ev: Event)
    requires PendingInUse(d) && Enabled(d, ev) && (ev.Append? || ev.InsertNext? || ev.Finish? || ev.CrashAndReopen?)
    ensures PendingInUse(Apply(d, ev))
  {
    hide AllOf, Tears, Recovered, RecoveredEnd, Readable, LogsFrom, TableEntries;
  }

  lemma FlushPending(d: Db, ev: Event)
    requires PendingInUse(d) && Flushing(d) && Enabled(d, ev)
    requires ev.StartFlush? || ev.FlushBuilt? || ev.FlushInstalled?
    ensures PendingInUse(Apply(d, ev))
  {
    hide AfterFlush, FlushTables, FlushDone, Collect, TableEntries;
    if ev.FlushInstalled? && ev.installed {
      FlushDonePending(d);
    }
  }

  lemma FlushDonePending(d: Db)
    requires PendingInUse(d) && d.flush.Installing?
    ensures PendingInUse(Collect(FlushDone(d)))
  {
    hide AfterFlush, FlushTables, Live;
  }

  lemma CompactionPending(d: Db, ev: Event)
    requires PendingInUse(d) && Enabled(d, ev)
    requires ev.StartCompaction? || ev.CompactionOutput? || ev.SealCompaction? || ev.AbortCompaction?
      || ev.CompactionInstalled?
    ensures PendingInUse(Apply(d, ev))
  {
    hide TableEntries, SmallestSnapshot, C.GoodDrop, AfterCompaction, Spoils, Live, Max;
  }

  /** Nothing stays protected that is not being written any more. */
  lemma {:induction false} PendingIsExact(run: seq<Db>, evs: seq<Event>, i: nat)
    requires IsRun(run, evs) && i < |run|
    ensures PendingInUse(run[i])
  {
    hide Inv, PendingInUse, Enabled, Apply;
    if i == 0 {
      NothingPending();
    } else {
      PendingIsExact(run, evs, i - 1);
      RunsAreSafe(run, evs, i - 1);
      var d, ev := run[i - 1], evs[i - 1];
      assert StepOf(d, ev, run[i]);
      if ev.StartFlush? || ev.FlushBuilt? || ev.FlushInstalled? {
        FlushHolds(d);
        FlushPending(d, ev);
      } else if Foreground(ev) {
        ForegroundPending(d, ev);
      } else if ev.Append? || ev.InsertNext? || ev.Finish? || ev.CrashAndReopen? {
        WritePending(d, ev);
      } else {
        CompactionPending(d, ev);
      }
    }
  }

  lemma NothingPending()
    ensures PendingInUse(Created())
  {
  }

  lemma FlushHolds(d: Db)
    requires Inv(d)
    ensures Flushing(d)
  {
    hide Data, Queue, Coverage, Journal, Flushing;
  }

  // ----- where a compaction may drop -----

  lemma StartedAt(d: Db, ev: Event, e: Db)
    requires Snaps(d) && StepOf(d, ev, e) && ev.StartCompaction?
    ensures e.comp.Compacting? && e.comp.kept == ev.kept && ev.inputs <= d.current
    ensures d.snapshots == [] ==> e.comp.ss == d.lastSequence
    ensures d.snapshots != [] ==> e.comp.ss in d.snapshots && forall s :: s in d.snapshots ==> e.comp.ss <= s
    ensures C.GoodDrop(TableEntries(ev.inputs, d.files), e.comp.kept, TableEntries(ev.deeper, d.files), e.comp.ss)
  {
    hide TableEntries, C.GoodDrop, Uncut;
    if d.snapshots != [] {
      assert d.snapshots[0] in d.snapshots;
    }
  }

  lemma InputsUnique(d: Db, inputs: set<nat>)
    requires Inv(d) && inputs <= d.current
    ensures NoClash(TableEntries(inputs, d.files))
  {
    assert TableEntries(inputs, d.files) <= View(d);
    hide Inv, View, TableEntries, NoClash;
    ViewsAgree(d);
    NoClashSubset(TableEntries(inputs, d.files), View(d));
  }

  lemma OneVersionKept(es: set<Entry>, kept: set<Entry>, deeper: set<Entry>, ss: nat)
    requires C.GoodDrop(es, kept, deeper, ss) && NoClash(es)
    ensures forall x, y | x in kept && y in kept && x.key == y.key :: x.sn <= ss && y.sn <= ss ==> x == y
  {
    forall x, y | x in kept && y in kept && x.key == y.key && x.sn <= ss && y.sn <= ss ensures x == y {
      assert x.sn < y.sn ==> C.Hidden(es, x, ss);
      assert y.sn < x.sn ==> C.Hidden(es, y, ss);
    }
  }

  /** A compaction drops at the number of the oldest snapshot held, or at LastSequence if none is held: of every user
      key it keeps at most one version that is within them all. */
  lemma CompactionStart(d: Db, ev: Event, e: Db)
    requires Inv(d) && StepOf(d, ev, e) && ev.StartCompaction?
    ensures e.comp.Compacting?
    ensures d.snapshots == [] ==> e.comp.ss == d.lastSequence
    ensures d.snapshots != [] ==> e.comp.ss in d.snapshots && forall s :: s in d.snapshots ==> e.comp.ss <= s
    ensures forall x, y | x in e.comp.kept && y in e.comp.kept && x.key == y.key ::
              (forall s :: s in d.snapshots + [d.lastSequence] ==> x.sn <= s && y.sn <= s) ==> x == y
  {
    assert Snaps(d) by { SnapsHold(d); }
    hide Inv, StepOf, Snaps, TableEntries, NoClash, C.GoodDrop;
    StartedAt(d, ev, e);
    InputsUnique(d, ev.inputs);
    assert e.comp.ss in d.snapshots + [d.lastSequence];
    OneVersionKept(TableEntries(ev.inputs, d.files), e.comp.kept, TableEntries(ev.deeper, d.files), e.comp.ss);
  }

  lemma SnapsHold(d: Db)
    requires Inv(d)
    ensures Snaps(d)
  {
    hide Data, Queue, Coverage, Journal;
  }
}
