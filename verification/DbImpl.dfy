/**
  The store as an object (class DBImpl, db/db_impl.cc): the fields are updated in place under
  the mutex, one method per section between two releases of it. Every method is one event of
  `Store`, so the invariant and all that follows from it hold of the object.
 */
module DbImpl {
  import opened Format
  import opened Store
  import opened StoreInvariant
  import opened StoreSteps
  import opened StoreTheorems
  import opened StoreRecovery
  import C = Compaction

  /** The least number of a finite set; Recover replays logs in the order they were written. */
  lemma {:induction false} LeastExists(s: set<nat>, m: nat)
    requires m in s
    ensures exists k :: k in s && forall n :: n in s ==> k <= n
    decreases m
  {
    if k :| k in s && k < m {
      LeastExists(s, k);
    }
  }

  /** `m` is the largest last number of the records met, or 0. */
  ghost predicate Highest(rs: seq<Record>, m: nat) {
    (forall r :: r in rs ==> End(r) <= m + 1) && (m == 0 || exists r :: r in rs && End(r) == m + 1)
  }

  lemma Regroup(a: set<Entry>, b: set<Entry>, c: set<Entry>, d: set<Entry>, more: set<Entry>)
    requires a + b == c + d
    ensures a + (b + more) == c + (d + more)
  {
    assert a + (b + more) == (a + b) + more;
  }

  lemma HighestAppend(rs: seq<Record>, r: Record, m: nat)
    requires Highest(rs, m)
    ensures Highest(rs + [r], if End(r) > m + 1 then End(r) - 1 else m)
  {
    if End(r) > m + 1 {
      assert r in rs + [r];
    } else if m != 0 {
      var q :| q in rs && End(q) == m + 1;
      assert q in rs + [r];
    }
  }

  lemma RecoveredIsHighest(m: Manifest, found: map<nat, seq<Record>>, rs: seq<Record>, max: nat)
    requires Highest(rs, max)
    requires forall r :: r in rs <==> exists n :: n in found && m.log <= n && r in found[n]
    ensures RecoveredEnd(m, found) == Max(m.lastSeq, max) + 1
  {
    var ends := Ends(m, found);
    forall x | x in ends ensures x <= max + 1 {
      var n, r :| n in found && m.log <= n && r in found[n] && x == End(r);
      assert r in rs;
    }
    if max != 0 {
      var r :| r in rs && End(r) == max + 1;
      assert max + 1 in ends;
    }
  }

  lemma TableAppended(rebuilt: map<nat, set<Entry>>, n: nat, mem: set<Entry>)
    requires n !in rebuilt
    ensures var tables := rebuilt[n := mem];
      TableEntries(tables.Keys, tables) == TableEntries(rebuilt.Keys, rebuilt) + mem
  {
    var tables := rebuilt[n := mem];
    assert n in tables.Keys && tables[n] == mem;
    forall e | e in mem ensures e in TableEntries(tables.Keys, tables) { }
    forall m, e | m in rebuilt && e in rebuilt[m] ensures e in TableEntries(tables.Keys, tables) {
      assert m in tables.Keys && tables[m] == rebuilt[m];
    }
  }

  /** The state DB::Open sets up, before it collects old files. */
  ghost function Opened(d: Db, got: set<Entry>, rebuilt: map<nat, set<Entry>>, last: nat, newLog: nat): Db {
    var tables := d.manifest.tables + rebuilt.Keys;
    Db([], Ready, last, {}, None, newLog, false, [], tables, newLog, [], {}, newLog + 1, NoFlush, NoCompaction,
       d.logs[newLog := []], d.torn, d.files + rebuilt, Manifest(tables, newLog, last, newLog + 1),
       got, last, [], {}, d.horizon, [], [], [], [], [], 0, 0, false)
  }

  lemma OpenedIsReopened(d: Db, found: map<nat, seq<Record>>, rebuilt: map<nat, set<Entry>>, last: nat, newLog: nat)
    requires last + 1 == RecoveredEnd(d.manifest, found) && forall n :: n in d.logs || n in d.torn ==> n < newLog
    ensures Collect(Opened(d, Recovered(d, found), rebuilt, last, newLog)) == Reopened(d, found, rebuilt, newLog)
  {
    hide RecoveredEnd, Recovered, Collect;
    var o := Opened(d, Recovered(d, found), rebuilt, last, newLog);
    CollectFresh(o);
    OnlyNewest(d.logs, [], newLog);
    assert (map n | n in o.torn && newLog <= n :: o.torn[n]) == map[];
  }

  lemma OnlyNewest(logs: map<nat, seq<Record>>, log: seq<Record>, newLog: nat)
    requires forall n :: n in logs ==> n < newLog
    ensures var all := logs[newLog := log]; (map n | n in all && newLog <= n :: all[n]) == map[newLog := log]
  {
  }

  /** Opening is the reopening step of the protocol. */
  lemma OpenIsStep(d: Db, found: map<nat, seq<Record>>, rebuilt: map<nat, set<Entry>>, last: nat, newLog: nat)
    requires Inv(d) && last + 1 == RecoveredEnd(d.manifest, found)
    requires forall n :: n in d.logs || n in d.torn ==> n < newLog
    requires Enabled(d, CrashAndReopen(found, rebuilt, newLog))
    ensures var e := Collect(Opened(d, Recovered(d, found), rebuilt, last, newLog));
      StepOf(d, CrashAndReopen(found, rebuilt, newLog), e) && Inv(e)
  {
    hide Inv, Enabled, Collect, Opened, Reopened;
    OpenedIsReopened(d, found, rebuilt, last, newLog);
    EventKeeps(d, CrashAndReopen(found, rebuilt, newLog));
  }

  lemma FoundAll(d: Db, found: map<nat, seq<Record>>)
    requires Readable(d, found)
    ensures found.Keys == d.logs.Keys
  {
  }

  lemma NewLogIsLast(d: Db, found: map<nat, seq<Record>>, newLog: nat)
    requires Inv(d) && found.Keys == d.logs.Keys
    requires d.manifest.nextFile < newLog && forall n :: n in d.logs && d.manifest.log <= n ==> n < newLog
    ensures forall n :: n in d.logs || n in d.torn ==> n < newLog
  {
    assert d.manifest.log < d.manifest.nextFile && d.torn.Keys <= d.logs.Keys;
  }

  /** What is left when tables but those in `live` and logs before the version's are deleted. */
  ghost function Keeping(d: Db, live: set<nat>): Db {
    d.(files := map n | n in d.files && n in live :: d.files[n],
       logs := map n | n in d.logs && d.versionLog <= n :: d.logs[n],
       torn := map n | n in d.torn && d.versionLog <= n :: d.torn[n])
  }

  /** What collection keeps, as the loops over the directory decide it. */
  lemma CollectKeeps(d: Db)
    ensures Collect(d) == if d.bgError then d else Keeping(d, d.pending + d.current + Held(d.readers))
  {
    hide Held;
    assert (map n | n in d.files && (n in Live(d) || n in d.pending) :: d.files[n])
        == (map n | n in d.files && n in d.pending + d.current + Held(d.readers) :: d.files[n]);
  }

  lemma CollectFresh(o: Db)
    requires !o.bgError && o.readers == [] && o.pending == {}
    ensures Collect(o) == o.(files := map n | n in o.files && n in o.current :: o.files[n],
                             logs := map n | n in o.logs && o.versionLog <= n :: o.logs[n],
                             torn := map n | n in o.torn && o.versionLog <= n :: o.torn[n])
  {
    assert Live(o) == o.current;
    hide Live;
  }

  /** What the helpers of the object compute is what the events of the protocol do. */
  lemma SwitchIsStep(d: Db)
    requires Inv(d) && Enabled(d, Switch)
    ensures StepOf(d, Switch, Switched(d)) && Inv(Switched(d))
  {
    hide Inv, Enabled, Switched;
    EventKeeps(d, Switch);
  }

  lemma AppendIsStep(d: Db, o: Outcome)
    requires Inv(d) && d.phase.Logging? && d.logNumber in d.logs
    ensures StepOf(d, Append(o), Settled(d, o)) && Inv(Settled(d, o))
  {
    hide Inv, Settled;
    EventKeeps(d, Append(o));
  }

  lemma InsertIsStep(d: Db)
    requires Inv(d) && d.phase.Applying? && d.phase.i < |d.phase.r.ops|
    ensures StepOf(d, InsertNext, Inserted(d)) && Inv(Inserted(d))
  {
    hide Inv, Inserted;
    EventKeeps(d, InsertNext);
  }

  lemma FinishIsStep(d: Db)
    requires Inv(d) && Enabled(d, Finish)
    ensures !d.phase.Ready? && d.phase.n <= |d.writers|
    ensures StepOf(d, Finish, Finished(d)) && Inv(Finished(d))
  {
    hide Inv, Finished;
    EventKeeps(d, Finish);
    InFlightGroup(d);
  }

  lemma StartFlushIsStep(d: Db)
    requires Inv(d) && Enabled(d, StartFlush)
    ensures var n := d.nextFile; var e := d.(flush := Building(n), pending := d.pending + {n}, nextFile := n + 1);
      StepOf(d, StartFlush, e) && Inv(e)
  {
    hide Inv, Enabled;
    EventKeeps(d, StartFlush);
  }

  lemma BuildIsStep(d: Db, built: bool)
    requires Inv(d) && d.flush.Building? && d.imm.Some?
    ensures var e := if built then Built(d)
                     else d.(pending := d.pending - {d.flush.number}, flush := NoFlush, bgError := true);
      StepOf(d, FlushBuilt(built), e) && Inv(e)
  {
    hide Inv, Built;
    EventKeeps(d, FlushBuilt(built));
  }

  /** Installing a flush, step by step, is the event of the protocol. */
  lemma FlushIsStep(d: Db, installed: bool, committed: bool)
    requires Inv(d) && d.flush.Installing? && d.imm.Some?
    ensures var e := if installed then Collect(FlushDone(d)) else FlushUncertain(d, committed);
      StepOf(d, FlushInstalled(installed, committed), e) && Inv(e)
  {
    hide Inv, Collect, FlushDone, AfterFlush;
    EventKeeps(d, FlushInstalled(installed, committed));
  }

  /** And so is installing a compaction. */
  lemma CompactionIsStep(d: Db, installed: bool, committed: bool)
    requires Inv(d) && Installable(d)
    ensures var e := if installed then Collect(CompactionDone(d)) else CompactionUncertain(d, committed);
      StepOf(d, CompactionInstalled(installed, committed), e) && Inv(e)
  {
    hide Inv, Collect, CompactionDone, AfterCompaction, Spoils;
    EventKeeps(d, CompactionInstalled(installed, committed));
  }

  /** What `Db` remembers of the past, in one piece. */
  datatype History = History(
    origin: set<Entry>, start: nat, records: seq<Record>, refused: set<Entry>, horizon: nat, arrived: seq<Writer>,
    fates: seq<Fate>, attempts: seq<Record>, landings: seq<Landing>, inserted: seq<Entry>, earlier: nat, switched: nat,
    spoilt: bool)

  class DBImpl {
    var writers: seq<Writer>
    var phase: Phase
    var lastSequence: nat
    var mem: set<Entry>
    var imm: Option<set<Entry>>
    var logNumber: nat
    var bgError: bool
    var snapshots: seq<nat>
    var current: set<nat>
    var versionLog: nat
    var readers: seq<set<nat>>
    var pending: set<nat>
    var nextFile: nat
    var flush: Flush
    var comp: Compacting
    var logs: map<nat, seq<Record>>
    ghost var torn: map<nat, nat>
    var files: map<nat, set<Entry>>
    var manifest: Manifest
    ghost var past: History

    ghost function State(): Db
      reads this
    {
      Db(writers, phase, lastSequence, mem, imm, logNumber, bgError, snapshots, current, versionLog, readers, pending,
         nextFile, flush, comp, logs, torn, files, manifest, past.origin, past.start, past.records, past.refused,
         past.horizon, past.arrived, past.fates, past.attempts, past.landings, past.inserted, past.earlier,
         past.switched, past.spoilt)
    }

    /** DB::Open on a directory that does not exist yet. */
    constructor ()
      ensures State() == Created() && Inv(State())
    {
      writers, phase, lastSequence := [], Ready, 0;
      mem, imm, logNumber := {}, None, 3;
      bgError, snapshots, current, versionLog, readers := false, [], {}, 3, [];
      pending, nextFile, flush, comp := {}, 4, NoFlush, NoCompaction;
      logs, torn, files, manifest := map[3 := []], map[], map[], Manifest({}, 3, 0, 4);
      past := History({}, 0, [], {}, 0, [], [], [], [], [], 0, 0, false);
      new;
      CreatedInv();
    }

    // ----- Open -----

    /** MemTableInserter over one record. */
    static method InsertInto(r: Record, before: set<Entry>) returns (m: set<Entry>)
      ensures m == before + AllOf(r)
    {
      m := before;
      var i := 0;
      while i < |r.ops|
        invariant i <= |r.ops| && m == before + Prefix(r, i)
      {
        m := m + {EntryOf(r, i)};
        i := i + 1;
      }
    }

    /** RecoverLogFile: replay one log, writing a table whenever the memtable is full and at the end. */
    static method RecoverLogFile(rs: seq<Record>, rebuilt: map<nat, set<Entry>>, next: nat, max: nat,
      ghost before: seq<Record>)
      returns (tables: map<nat, set<Entry>>, free: nat, last: nat)
      requires Highest(before, max) && forall n :: n in rebuilt ==> n < next
      ensures TableEntries(tables.Keys, tables) == TableEntries(rebuilt.Keys, rebuilt) + Logged(rs)
      ensures next <= free && (forall n :: n in tables ==> n in rebuilt || next <= n)
      ensures forall n :: n in tables ==> n < free
      ensures Highest(before + rs, last)
    {
      assert Logged([]) == {};
      hide TableEntries, Logged, AllOf, Highest;
      tables, free, last := rebuilt, next, max;
      var mem: Option<set<Entry>> := None;
      var i := 0;
      assert before + rs[..0] == before;
      while i < |rs|
        invariant i <= |rs| && Highest(before + rs[..i], last)
        invariant TableEntries(tables.Keys, tables) + Contents(mem)
          == TableEntries(rebuilt.Keys, rebuilt) + Logged(rs[..i])
        invariant next <= free && (forall n :: n in tables ==> n in rebuilt || next <= n)
        invariant forall n :: n in tables ==> n < free
      {
        LoggedAppend(rs[..i], rs[i]);
        assert rs[..i + 1] == rs[..i] + [rs[i]] && before + rs[..i + 1] == before + rs[..i] + [rs[i]];
        ghost var held := TableEntries(tables.Keys, tables);
        Regroup(held, Contents(mem), TableEntries(rebuilt.Keys, rebuilt), Logged(rs[..i]), AllOf(rs[i]));
        var m := InsertInto(rs[i], Contents(mem));
        mem := Some(m);
        HighestAppend(before + rs[..i], rs[i], last);
        if End(rs[i]) > last + 1 {
          last := End(rs[i]) - 1;
        }
        var full: bool := *;
        if full {
          tables, free := WriteRecovered(m, tables, free);
          mem := None;
        }
        i := i + 1;
      }
      assert rs[..|rs|] == rs;
      if mem.Some? {
        tables, free := WriteRecovered(mem.value, tables, free);
      }
    }

    static function Contents(mem: Option<set<Entry>>): set<Entry> {
      if mem.Some? then mem.value else {}
    }

    /** WriteLevel0Table during recovery. */
    static method WriteRecovered(mem: set<Entry>, rebuilt: map<nat, set<Entry>>, next: nat)
      returns (tables: map<nat, set<Entry>>, free: nat)
      requires forall n :: n in rebuilt ==> n < next
      ensures TableEntries(tables.Keys, tables) == TableEntries(rebuilt.Keys, rebuilt) + mem
      ensures free == next + 1 && (forall n :: n in tables ==> n in rebuilt || n == next)
    {
      hide *;
      tables, free := rebuilt, next + 1;
      if mem != {} {
        TableAppended(rebuilt, next, mem);
        tables := tables[next := mem];
      }
    }

    /** Recover: replay every log from the descriptor's LogNumber on, in the order written. */
    static method Recover(logs: map<nat, seq<Record>>, manifest: Manifest)
      returns (rebuilt: map<nat, set<Entry>>, last: nat, next: nat, ghost met: seq<Record>)
      ensures TableEntries(rebuilt.Keys, rebuilt) == LogsFrom(logs, manifest.log)
      ensures manifest.nextFile < next && forall n :: n in rebuilt ==> manifest.nextFile < n < next
      ensures forall n :: n in logs && manifest.log <= n ==> n < next
      ensures forall r :: r in met <==> exists n :: n in logs && manifest.log <= n && r in logs[n]
      ensures Highest(met, last)
    {
      hide TableEntries, Logged;
      rebuilt, last, next, met := map[], 0, manifest.nextFile + 1, [];
      var left := set n | n in logs && manifest.log <= n;
      ghost var done := {};
      TableOne(0, rebuilt);
      assert rebuilt.Keys == {};
      while left != {}
        invariant left + done == (set n | n in logs && manifest.log <= n)
        invariant TableEntries(rebuilt.Keys, rebuilt) == set n, e | n in done && n in logs && e in Logged(logs[n]) :: e
        invariant manifest.nextFile < next && forall n :: n in rebuilt ==> manifest.nextFile < n < next
        invariant forall n :: n in done ==> n < next
        invariant forall r :: r in met <==> exists n :: n in done && n in logs && r in logs[n]
        invariant Highest(met, last)
        decreases left
      {
        var some :| some in left;
        LeastExists(left, some);
        var log: nat :| log in left && forall n :: n in left ==> log <= n;
        rebuilt, next, last := RecoverLogFile(logs[log], rebuilt, next, last, met);
        met := met + logs[log];
        if next <= log {
          next := log + 1;
        }
        left, done := left - {log}, done + {log};
      }
      assert forall n :: n in logs && manifest.log <= n ==> n in done;
    }

    /** DB::Open on what a crash in state `d` leaves on disk; `found` is what the log readers return. */
    constructor Open(found: map<nat, seq<Record>>, onDisk: map<nat, seq<Record>>, tables: map<nat, set<Entry>>,
                     descriptor: Manifest, ghost d: Db)
      requires Inv(d) && Readable(d, found) && onDisk == d.logs && tables == d.files && descriptor == d.manifest
      ensures Inv(State()) && exists rebuilt, newLog :: StepOf(d, CrashAndReopen(found, rebuilt, newLog), State())
    {
      hide Inv, Readable, TableEntries, LogsFrom, RecoveredEnd, Recovered, Highest, C.GoodDrop, C.BringsBack, Reopened,
        Collect;
      assert found.Keys == d.logs.Keys by { FoundAll(d, found); }
      var rebuilt, last, next, met := DBImpl.Recover(found, descriptor);
      var newLog := next;
      NewLogIsLast(d, found, newLog);
      var live := descriptor.tables + rebuilt.Keys;
      RecoveredIsHighest(descriptor, found, met, last);
      last := Max(descriptor.lastSeq, last);
      OpenIsStep(d, found, rebuilt, last, newLog);
      hide Max;
      writers, phase, lastSequence := [], Ready, last;
      mem, imm, logNumber := {}, None, newLog;
      bgError, snapshots, current, versionLog, readers := false, [], live, newLog, [];
      pending, nextFile, flush, comp := {}, newLog + 1, NoFlush, NoCompaction;
      logs, torn, files := onDisk[newLog := []], d.torn, tables + rebuilt;
      manifest := Manifest(live, newLog, last, newLog + 1);
      past := History(Recovered(d, found), last, [], {}, d.horizon, [], [], [], [], [], 0, 0, false);
      new;
      assert State() == Opened(d, Recovered(d, found), rebuilt, last, newLog);
      hide Opened;
      DeleteObsoleteFiles();
    }

    // ----- Write -----

    method Enqueue(w: Writer)
      requires Inv(State())
      modifies this
      ensures StepOf(old(State()), Event.Enqueue(w), State()) && Inv(State())
    {
      hide Inv, TableEntries, LogsFrom, RecoveredEnd, C.GoodDrop, C.BringsBack;
      EventKeeps(State(), Event.Enqueue(w));
      writers := writers + [w];
      past := past.(arrived := past.arrived + [w]);
    }

    /** BuildBatchGroup: take along what fits behind the writer at the front. */
    static method BuildBatchGroup(queue: seq<Writer>) returns (n: nat, ops: seq<Op>, ghost at: seq<nat>)
      requires queue != [] && queue[0].batch.Some?
      ensures n == GroupEnd(queue, 1, queue[0].bytes) && 1 <= n <= |queue|
      ensures ops == GroupOps(queue[..n])
      ensures Divides(at, n, ops) && forall w :: 0 <= w < n ==> LiesAt(queue[w].batch, ops, at[w], at[w + 1])
    {
      var first := queue[0];
      var size: nat := first.bytes;
      var maxSize: nat := 0x10_0000;
      if size <= 0x2_0000 {
        maxSize := size + 0x2_0000;
      }
      ops, n := first.batch.value, 1;
      assert GroupOps(queue[..1]) == ops by {
        assert queue[..0] == [];
        GroupStep(queue, 0);
      }
      hide GroupOps, LiesAt;
      while n < |queue|
        invariant 1 <= n <= |queue|
        invariant GroupEnd(queue, n, size) == GroupEnd(queue, 1, first.bytes)
        invariant ops == GroupOps(queue[..n])
      {
        var w := queue[n];
        if w.sync && !first.sync {
          break;
        }
        GroupStep(queue, n);
        if w.batch.Some? {
          if size + w.bytes > maxSize {
            break;
          }
          size := size + w.bytes;
          ops := ops + w.batch.value;
        }
        n := n + 1;
      }
      at := GroupLaidOut(queue[..n]);
    }

    /** Write at the front of the queue, once MakeRoomForWrite has returned OK. */
    method BeginWrite()
      requires Inv(State()) && Enabled(State(), Begin)
      modifies this
      ensures StepOf(old(State()), Begin, State()) && Inv(State())
    {
      hide Inv, TableEntries, LogsFrom, RecoveredEnd, C.GoodDrop, C.BringsBack;
      EventKeeps(State(), Begin);
      var n, ops, _ := BuildBatchGroup(writers);
      var r := Record(lastSequence + 1, ops);
      phase := Logging(r, n);
      past := past.(attempts := past.attempts + [r], fates := past.fates + AllTaken(n));
    }

    /** MakeRoomForWrite's error return, or a null batch: the writer leaves alone. */
    method RefuseFront()
      requires Inv(State()) && Enabled(State(), Refuse)
      modifies this
      ensures StepOf(old(State()), Refuse, State()) && Inv(State())
    {
      hide Inv, TableEntries, LogsFrom, RecoveredEnd, C.GoodDrop, C.BringsBack;
      EventKeeps(State(), Refuse);
      writers := writers[1..];
      past := past.(fates := past.fates + [Refused]);
    }

    /** MakeRoomForWrite's last branch. */
    method NewLogAndMemTable()
      modifies this`nextFile, this`logs, this`logNumber, this`imm, this`mem, this`past
      ensures past == old(past).(earlier := old(past).switched, switched := |old(past).inserted|)
      ensures nextFile == old(nextFile) + 1 && logNumber == old(nextFile) && logs == old(logs)[logNumber := []]
      ensures imm == Some(old(mem)) && mem == {}
    {
      hide *;
      var newLogNumber := nextFile;
      nextFile := nextFile + 1;
      logs := logs[newLogNumber := []];
      logNumber := newLogNumber;
      imm := Some(mem);
      mem := {};
      past := past.(earlier := past.switched, switched := |past.inserted|);
    }

    method SwitchMemTable()
      requires Inv(State()) && Enabled(State(), Switch)
      modifies this
      ensures StepOf(old(State()), Switch, State()) && Inv(State())
    {
      hide Inv, Enabled, StepOf;
      SwitchIsStep(State());
      NewLogAndMemTable();
    }

    /** log_->AddRecord and the sync behind it, with the mutex released. */
    method AddRecord(r: Record, n: nat, o: Outcome)
      requires logNumber in logs
      modifies this`logs, this`torn, this`phase, this`past
      ensures logs == if Stored(o) then old(logs)[logNumber := old(logs)[logNumber] + [r]] else old(logs)
      ensures torn == if Tears(o) && logNumber !in old(torn) then old(torn)[logNumber := |old(logs)[logNumber]|]
                      else old(torn)
      ensures phase == if Applies(o) then Applying(r, n, 0) else Failed(r, n, Stored(o), o.Written?)
      ensures past == old(past).(landings := old(past).landings + [Landing(logNumber, o)],
                                 records := if Stored(o) then old(past).records + [r] else old(past).records,
                                 refused := if Stored(o) && !Applies(o) then old(past).refused + AllOf(r)
                                            else old(past).refused)
    {
      hide AllOf;
      if Tears(o) && logNumber !in torn {
        torn := torn[logNumber := |logs[logNumber]|];
      }
      if Stored(o) {
        logs := logs[logNumber := logs[logNumber] + [r]];
      }
      phase := if Applies(o) then Applying(r, n, 0) else Failed(r, n, Stored(o), o.Written?);
      past := past.(landings := past.landings + [Landing(logNumber, o)],
                    records := if Stored(o) then past.records + [r] else past.records,
                    refused := if Stored(o) && !Applies(o) then past.refused + AllOf(r) else past.refused);
    }

    method AppendGroup(o: Outcome)
      requires State().phase.Logging? && State().logNumber in State().logs
      modifies this
      ensures State() == Settled(old(State()), o)
    {
      hide AllOf;
      AddRecord(phase.r, phase.n, o);
    }

    /** Whatever becomes of the append is one of the outcomes the protocol knows. */
    method LogGroup() returns (o: Outcome)
      requires Inv(State()) && State().phase.Logging? && State().logNumber in State().logs
      modifies this
      ensures StepOf(old(State()), Append(o), State()) && Inv(State())
    {
      hide *;
      o := *;
      AppendIsStep(State(), o);
      AppendGroup(o);
    }

    /** One call of MemTableInserter, with the mutex released. */
    method InsertOne() returns (x: Entry)
      requires phase.Applying? && phase.i < |phase.r.ops| && Inv(State())
      modifies this
      ensures StepOf(old(State()), InsertNext, State()) && Inv(State())
      ensures var r, i := old(phase).r, old(phase).i; mem == old(mem) + {x} && Spells(x, r.ops[i], r.base + i)
    {
      hide Inv, Enabled, StepOf;
      InsertIsStep(State());
      x := EntryOf(phase.r, phase.i);
      past := past.(inserted := past.inserted + [x]);
      mem := mem + {x};
      phase := phase.(i := phase.i + 1);
    }

    /** The tail of Write: publish, then pop writers up to and including the last of the group. */
    method FinishWrite()
      requires !phase.Ready? && phase.n <= |writers|
      modifies this`bgError, this`lastSequence, this`writers, this`phase
      ensures bgError == (old(bgError) || (old(phase).Failed? && old(phase).syncError))
      ensures lastSequence == old(lastSequence) + |old(phase).r.ops|
      ensures writers == old(writers)[old(phase).n..] && phase == Ready
    {
      hide *;
      if phase.Failed? && phase.syncError {
        bgError := true;
      }
      lastSequence := lastSequence + |phase.r.ops|;
      Pop(phase.n);
      phase := Ready;
    }

    method LeaveWrite()
      requires Inv(State()) && Enabled(State(), Finish)
      modifies this
      ensures StepOf(old(State()), Finish, State()) && Inv(State())
    {
      hide Inv, Enabled, StepOf;
      FinishIsStep(State());
      FinishWrite();
    }

    method Pop(n: nat)
      requires n <= |writers|
      modifies this`writers
      ensures writers == old(writers)[n..]
    {
      hide *;
      var popped := 0;
      while popped < n
        invariant 0 <= popped <= n
        invariant writers == old(writers)[popped..]
      {
        writers := writers[1..];
        popped := popped + 1;
      }
    }

    // ----- snapshots and readers -----

    method GetSnapshot() returns (s: nat)
      requires Inv(State())
      modifies this
      ensures StepOf(old(State()), Event.GetSnapshot, State()) && Inv(State()) && s == lastSequence
    {
      hide Inv, TableEntries, LogsFrom, RecoveredEnd, C.GoodDrop, C.BringsBack;
      EventKeeps(State(), Event.GetSnapshot);
      s := lastSequence;
      snapshots := snapshots + [s];
    }

    method ReleaseSnapshot(i: nat)
      requires Inv(State()) && i < |snapshots|
      modifies this
      ensures StepOf(old(State()), Event.ReleaseSnapshot(i), State()) && Inv(State())
    {
      hide Inv, TableEntries, LogsFrom, RecoveredEnd, C.GoodDrop, C.BringsBack;
      EventKeeps(State(), Event.ReleaseSnapshot(i));
      snapshots := snapshots[..i] + snapshots[i + 1..];
    }

    // ----- background work -----

    /** A new table file, protected from collection while it is written. */
    method NewPendingFile() returns (n: nat)
      modifies this`nextFile, this`pending
      ensures n == old(nextFile) && nextFile == n + 1 && pending == old(pending) + {n}
    {
      hide *;
      n := nextFile;
      nextFile := nextFile + 1;
      pending := pending + {n};
    }

    /** WriteLevel0Table up to releasing the mutex. */
    method StartFlushing()
      requires Inv(State()) && Enabled(State(), StartFlush)
      modifies this
      ensures StepOf(old(State()), StartFlush, State()) && Inv(State())
    {
      hide Inv, Enabled, StepOf;
      StartFlushIsStep(State());
      var n := NewPendingFile();
      flush := Building(n);
    }

    /** BuildTable, and the edit CompactMemTable fills in. */
    method WriteLevel0Table(n: nat, entries: set<Entry>, built: bool)
      modifies this`pending, this`files, this`flush, this`bgError
      ensures pending == old(pending) - {n}
      ensures files == if built && entries != {} then old(files)[n := entries] else old(files)
      ensures flush == if built then Installing(n, lastSequence, nextFile) else NoFlush
      ensures bgError == (old(bgError) || !built)
    {
      hide *;
      pending := pending - {n};
      if built {
        if entries != {} {
          files := files[n := entries];
        }
        flush := Installing(n, lastSequence, nextFile);
      } else {
        flush := NoFlush;
        bgError := true;
      }
    }

    method FinishTable(built: bool)
      requires State().flush.Building? && State().imm.Some?
      modifies this
      ensures var was := old(State());
        State() == if built then Built(was)
                   else was.(pending := was.pending - {was.flush.number}, flush := NoFlush, bgError := true)
    {
      WriteLevel0Table(flush.number, imm.value, built);
    }

    method BuildTable() returns (built: bool)
      requires Inv(State()) && State().flush.Building? && State().imm.Some?
      modifies this
      ensures StepOf(old(State()), FlushBuilt(built), State()) && Inv(State())
    {
      hide *;
      built := *;
      BuildIsStep(State(), built);
      FinishTable(built);
    }

    /** The rest of CompactMemTable; LogAndApply may fail with the edit written or not. */
    method CompactMemTable(edited: Manifest, add: set<nat>, installed: bool, committed: bool)
      modifies this`manifest, this`current, this`versionLog, this`imm, this`flush, this`bgError
      ensures manifest == if installed || committed then edited else old(manifest)
      ensures current == if installed then old(current) + add else old(current)
      ensures versionLog == if installed then logNumber else old(versionLog)
      ensures imm == if installed then None else old(imm)
      ensures flush == NoFlush && bgError == (old(bgError) || !installed)
    {
      hide *;
      flush := NoFlush;
      if installed {
        manifest, current, versionLog, imm := edited, current + add, logNumber, None;
      } else {
        if committed {
          manifest := edited;
        }
        bgError := true;
      }
    }

    method ApplyFlush(installed: bool, committed: bool)
      requires State().flush.Installing? && State().imm.Some?
      modifies this
      ensures var was := old(State()); State() == if installed then FlushDone(was) else FlushUncertain(was, committed)
    {
      var add := if imm.value != {} then {flush.number} else {};
      var edited := Manifest(manifest.tables + add, logNumber, flush.lastSeq, flush.nextFile);
      assert add == FlushTables(State(), flush.number) && edited == AfterFlush(State());
      hide FlushTables, AfterFlush;
      CompactMemTable(edited, add, installed, committed);
    }

    method FinishFlush(installed: bool, committed: bool)
      requires State().flush.Installing? && State().imm.Some?
      modifies this
      ensures var was := old(State());
        State() == if installed then Collect(FlushDone(was)) else FlushUncertain(was, committed)
    {
      hide *;
      ApplyFlush(installed, committed);
      if installed {
        DeleteObsoleteFiles();
      }
    }

    method InstallFlush() returns (installed: bool, committed: bool)
      requires Inv(State()) && State().flush.Installing? && State().imm.Some?
      modifies this
      ensures StepOf(old(State()), FlushInstalled(installed, committed), State()) && Inv(State())
    {
      hide *;
      installed, committed := *, *;
      FlushIsStep(State(), installed, committed);
      FinishFlush(installed, committed);
    }

    /** InstallCompactionResults and CleanupCompaction. */
    method InstallCompactionResults(edited: Manifest, c: Compacting, installed: bool, committed: bool,
      ghost spoils: bool)
      requires c.Compacting?
      modifies this`manifest, this`current, this`pending, this`comp, this`past, this`bgError
      ensures manifest == if installed || committed then edited else old(manifest)
      ensures past == if installed || committed then old(past).(horizon := Max(old(past).horizon, c.ss),
                                                                spoilt := old(past).spoilt || spoils)
                      else old(past)
      ensures current == if installed then old(current) - c.inputs + c.outs else old(current)
      ensures pending == old(pending) - c.outs && comp == NoCompaction && bgError == (old(bgError) || !installed)
    {
      hide *;
      if installed || committed {
        manifest := edited;
        past := past.(horizon := Max(past.horizon, c.ss), spoilt := past.spoilt || spoils);
      }
      if installed {
        current := current - c.inputs + c.outs;
      } else {
        bgError := true;
      }
      pending, comp := pending - c.outs, NoCompaction;
    }

    method FinishCompaction(installed: bool, committed: bool)
      requires Installable(State())
      modifies this
      ensures var was := old(State());
        State() == if installed then Collect(CompactionDone(was)) else CompactionUncertain(was, committed)
    {
      hide Collect, Max, Spoils;
      var tables := manifest.tables - comp.inputs + comp.outs;
      var edited := Manifest(tables, versionLog, comp.seal.value.0, comp.seal.value.1);
      InstallCompactionResults(edited, comp, installed, committed, Spoils(State()));
      if installed {
        assert State() == CompactionDone(old(State()));
        hide CompactionDone;
        DeleteObsoleteFiles();
      }
    }

    method InstallCompaction() returns (installed: bool, committed: bool)
      requires Inv(State()) && Installable(State())
      modifies this
      ensures StepOf(old(State()), CompactionInstalled(installed, committed), State()) && Inv(State())
    {
      hide *;
      installed, committed := *, *;
      CompactionIsStep(State(), installed, committed);
      FinishCompaction(installed, committed);
    }

    /** DeleteObsoleteFiles: go through the directory and keep what is live, pending, or a log
        the current version still needs. */
    method DeleteObsoleteFiles()
      modifies this`files, this`logs, this`torn
      ensures State() == Collect(old(State()))
    {
      hide Collect, Held;
      CollectKeeps(State());
      if !bgError {
        var live := pending + current + Held(readers);
        DeleteUnused(live, versionLog);
      }
    }

    method DeleteUnused(live: set<nat>, logNumber: nat)
      modifies this`files, this`logs, this`torn
      ensures files == map n | n in old(files) && n in live :: old(files)[n]
      ensures logs == map n | n in old(logs) && logNumber <= n :: old(logs)[n]
      ensures torn == map n | n in old(torn) && logNumber <= n :: old(torn)[n]
    {
      hide *;
      DeleteTables(live);
      DeleteLogs(logNumber);
    }

    method DeleteTables(live: set<nat>)
      modifies this`files
      ensures files == map n | n in old(files) && n in live :: old(files)[n]
    {
      hide *;
      var names := files.Keys;
      while names != {}
        invariant names <= old(files).Keys
        invariant files == map n | n in old(files) && (n in names || n in live) :: old(files)[n]
      {
        var n :| n in names;
        if n !in live {
          files := files - {n};
        }
        names := names - {n};
      }
    }

    method DeleteLogs(logNumber: nat)
      modifies this`logs, this`torn
      ensures logs == map n | n in old(logs) && logNumber <= n :: old(logs)[n]
      ensures torn == map n | n in old(torn) && logNumber <= n :: old(torn)[n]
    {
      hide *;
      var names := logs.Keys;
      while names != {}
        invariant names <= old(logs).Keys
        invariant logs == map n | n in old(logs) && (n in names || logNumber <= n) :: old(logs)[n]
        modifies this`logs
      {
        var n :| n in names;
        if !(n >= logNumber) {
          logs := logs - {n};
        }
        names := names - {n};
      }
      torn := map n | n in torn && logNumber <= n :: torn[n];
    }
  }
}
