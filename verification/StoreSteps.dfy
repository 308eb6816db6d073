/**
  Every event of the store keeps the invariant.
 */
module StoreSteps {
  import opened Format
  import opened Store
  import opened StoreInvariant
  import C = Compaction

  // ----- sets of entries -----

  lemma TableFrame(nums: set<nat>, files: map<nat, set<Entry>>, files': map<nat, set<Entry>>)
    requires forall n :: n in nums ==> (n in files <==> n in files') && (n in files ==> files[n] == files'[n])
    ensures TableEntries(nums, files) == TableEntries(nums, files')
  {
  }

  lemma TableUnion(a: set<nat>, b: set<nat>, files: map<nat, set<Entry>>)
    ensures TableEntries(a + b, files) == TableEntries(a, files) + TableEntries(b, files)
  {
  }

  lemma TableOne(n: nat, files: map<nat, set<Entry>>)
    ensures TableEntries({n}, files) == if n in files then files[n] else {}
    ensures TableEntries({}, files) == {}
  {
  }

  lemma LoggedAppend(rs: seq<Record>, r: Record)
    ensures Logged(rs + [r]) == Logged(rs) + AllOf(r)
  {
    var all := Logged(rs + [r]);
    forall e | e in Logged(rs) + AllOf(r) ensures e in all {
      assert r in rs + [r];
      if e in Logged(rs) {
        var q :| q in rs && e in AllOf(q);
        assert q in rs + [r];
      }
    }
  }

  /** Entries of a record carry its numbers, and those of one record are never those of another. */
  lemma RecordNumbers(r: Record, n: nat)
    requires n <= |r.ops|
    ensures forall e :: e in Prefix(r, n) ==> r.base <= e.sn < r.base + n && Parses(e)
    ensures forall e :: e in Suffix(r, n) ==> r.base + n <= e.sn < r.base + |r.ops| && Parses(e)
    ensures Prefix(r, n) + Suffix(r, n) == AllOf(r)
  {
  }

  lemma SuffixStep(r: Record, i: nat)
    requires i < |r.ops|
    ensures Suffix(r, i) == {EntryOf(r, i)} + Suffix(r, i + 1) && EntryOf(r, i) !in Suffix(r, i + 1)
  {
  }

  lemma RecordsApart(rs: seq<Record>, i: nat, j: nat)
    requires Disjoint(rs) && i < j < |rs|
    ensures Below(AllOf(rs[i]), AllOf(rs[j]))
  {
    RecordNumbers(rs[i], |rs[i].ops|);
    RecordNumbers(rs[j], |rs[j].ops|);
  }

  lemma RecordSelf(r: Record)
    ensures forall e, f :: e in AllOf(r) && f in AllOf(r) && e.sn == f.sn ==> e == f
  {
  }

  /** Sequence numbers identify entries. */
  lemma UniqueNumbers(rs: seq<Record>)
    requires Disjoint(rs)
    ensures forall e, f :: e in Logged(rs) && f in Logged(rs) && e.sn == f.sn ==> e == f
    ensures NoClash(Logged(rs)) && forall e :: e in Logged(rs) ==> Parses(e)
  {
    forall e, f | e in Logged(rs) && f in Logged(rs) ensures Parses(e) && (e.sn == f.sn ==> e == f) {
      var i :| 0 <= i < |rs| && e in AllOf(rs[i]);
      var j :| 0 <= j < |rs| && f in AllOf(rs[j]);
      RecordNumbers(rs[i], |rs[i].ops|);
      RecordSelf(rs[i]);
      if i < j {
        RecordsApart(rs, i, j);
      } else if j < i {
        RecordsApart(rs, j, i);
      }
    }
  }

  /** So they do for everything the store was opened with or logged since. */
  lemma KnownUnique(d: Db)
    requires Numbering(d)
    ensures Unique(Known(d)) && NoClash(Known(d))
  {
    UniqueNumbers(d.records);
    LoggedAfterStart(d);
    hide Logged, Disjoint;
  }

  lemma LoggedAfterStart(d: Db)
    requires Numbering(d)
    ensures forall e :: e in Logged(d.records) ==> d.start < e.sn
    ensures d.origin !! Logged(d.records)
  {
    forall e | e in Logged(d.records) ensures d.start < e.sn {
      var q :| q in d.records && e in AllOf(q);
      RecordNumbers(q, |q.ops|);
    }
  }

  /** What readers must see and what they must not are apart. */
  lemma IntendedApart(d: Db)
    requires Numbering(d) && Refusals(d)
    ensures Rest(d) <= Logged(d.records) && Unapplied(d) <= Logged(d.records)
    ensures Intended(d) !! Unapplied(d) && Intended(d) + Unapplied(d) == Known(d)
  {
    LoggedAfterStart(d);
    if d.phase.Applying? {
      RecordNumbers(d.phase.r, d.phase.i);
      assert Unpublished(d, d.phase.r);
    }
  }

  lemma BelowDisjoint(es: set<Entry>, fs: set<Entry>)
    requires Below(es, fs)
    ensures es !! fs
  {
  }

  lemma NoClashSubset(es: set<Entry>, fs: set<Entry>)
    requires es <= fs && NoClash(fs)
    ensures NoClash(es)
  {
  }

  /** Adding the same newest entries on both sides keeps two sets reading alike. */
  lemma AppendNewest(es: set<Entry>, fs: set<Entry>, add: set<Entry>, from: nat)
    requires SameReads(es, fs, from) && Below(es, add) && Below(fs, add)
    requires NoClash(es + add) && NoClash(fs + add)
    ensures SameReads(es + add, fs + add, from)
  {
    NoClashSubset(es, es + add);
    NoClashSubset(fs, fs + add);
    forall k, s | from <= s ensures Read(es + add, k, s) == Read(fs + add, k, s) {
      AppendNewestAt(es, fs, add, k, s);
    }
  }

  lemma AppendNewestAt(es: set<Entry>, fs: set<Entry>, add: set<Entry>, k: UserKey, s: nat)
    requires Read(es, k, s) == Read(fs, k, s) && Below(es, add) && Below(fs, add)
    requires NoClash(es + add) && NoClash(fs + add) && NoClash(es) && NoClash(fs)
    ensures Read(es + add, k, s) == Read(fs + add, k, s)
  {
    if w :| w in add && w.key == k && Visible(w, s) {
      var e := NewestExists(add, k, s, w);
      assert IsNewest(es + add, k, s, e) && IsNewest(fs + add, k, s, e);
      ReadIs(es + add, k, s, e);
      ReadIs(fs + add, k, s, e);
    } else {
      ReadDependsOnVisible(es, es + add, k, s);
      ReadDependsOnVisible(fs, fs + add, k, s);
    }
  }

  // ----- the queue -----

  lemma {:induction false} TakenGrows(arrived: seq<Writer>, w: Writer, fates: seq<Fate>)
    requires |fates| <= |arrived|
    ensures TakenOps(arrived + [w], fates) == TakenOps(arrived, fates)
  {
    if fates != [] {
      TakenGrows(arrived, w, fates[..|fates| - 1]);
    }
  }

  lemma AttemptedAppend(attempts: seq<Record>, r: Record)
    ensures AttemptedOps(attempts + [r]) == AttemptedOps(attempts) + r.ops
  {
    assert (attempts + [r])[..|attempts|] == attempts;
  }

  lemma TakenStep(arrived: seq<Writer>, fates: seq<Fate>)
    requires |fates| < |arrived|
    ensures TakenOps(arrived, fates + [Taken]) == TakenOps(arrived, fates) + BatchOf(arrived[|fates|])
  {
    assert (fates + [Taken])[..|fates|] == fates;
  }

  lemma GroupStep(ws: seq<Writer>, n: nat)
    requires n < |ws|
    ensures GroupOps(ws[..n + 1]) == GroupOps(ws[..n]) + BatchOf(ws[n])
  {
    assert ws[..n + 1][..n] == ws[..n];
  }

  lemma NoGroup(arrived: seq<Writer>, fates: seq<Fate>)
    requires |fates| <= |arrived|
    ensures GroupOps(arrived[|fates|..][..0]) == [] && fates + AllTaken(0) == fates
  {
  }

  lemma OneMoreTaken(fates: seq<Fate>, n: nat)
    ensures fates + AllTaken(n + 1) == (fates + AllTaken(n)) + [Taken]
  {
  }

  /** Taking a group adds the batches of its writers, in order. */
  lemma {:induction false} TakenGroup(arrived: seq<Writer>, fates: seq<Fate>, n: nat)
    requires |fates| + n <= |arrived|
    ensures TakenOps(arrived, fates + AllTaken(n)) == TakenOps(arrived, fates) + GroupOps(arrived[|fates|..][..n])
  {
    hide TakenOps, GroupOps, AllTaken;
    if n == 0 {
      NoGroup(arrived, fates);
    } else {
      TakenGroup(arrived, fates, n - 1);
      OneMoreTaken(fates, n - 1);
      TakenStep(arrived, fates + AllTaken(n - 1));
      GroupStep(arrived[|fates|..], n - 1);
    }
  }

  lemma TakenRefused(arrived: seq<Writer>, fates: seq<Fate>)
    requires |fates| < |arrived|
    ensures TakenOps(arrived, fates + [Refused]) == TakenOps(arrived, fates)
  {
    assert (fates + [Refused])[..|fates|] == fates;
  }

  // ----- events that touch neither memory nor disk -----

  /** The fields `Data` is about. */
  ghost predicate SameData(d: Db, e: Db) {
    && d.phase == e.phase && d.lastSequence == e.lastSequence && d.mem == e.mem && d.imm == e.imm
    && d.logNumber == e.logNumber && (d.bgError ==> e.bgError) && d.current == e.current && d.versionLog == e.versionLog
    && d.logs == e.logs && d.files == e.files && d.manifest == e.manifest
    && d.origin == e.origin && d.start == e.start && d.records == e.records && d.refused == e.refused
    && d.horizon == e.horizon && d.spoilt == e.spoilt
  }

  lemma DataFrame(d: Db, e: Db)
    requires Data(d) && SameData(d, e)
    ensures Data(e)
  {
    hide TableEntries, Logged, LogsBetween, LogsFrom, SameReads, Below, UpTo, Unique, Disjoint, Suffix, AllOf;
  }

  lemma JournalFrame(d: Db, e: Db)
    requires Journal(d) && d.attempts == e.attempts && d.landings == e.landings && d.phase == e.phase
    requires d.records == e.records && d.inserted == e.inserted && d.switched == e.switched && d.mem == e.mem
    requires d.earlier == e.earlier && (e.imm.Some? ==> e.imm == d.imm)
    requires d.logNumber == e.logNumber && d.logs == e.logs && d.torn == e.torn && d.refused == e.refused
    requires d.versionLog <= e.versionLog
    ensures Journal(e)
  {
    hide LastLanded, LogsAscend, RefusedAttempt, AllOf;
  }

  /** The fields `Control` is about. */
  ghost predicate SameControl(d: Db, e: Db) {
    && d.flush == e.flush && d.comp == e.comp && d.imm == e.imm && d.logNumber == e.logNumber
    && d.lastSequence == e.lastSequence && (d.bgError ==> e.bgError) && d.snapshots == e.snapshots
    && d.current == e.current && d.versionLog == e.versionLog && d.readers == e.readers
    && d.pending == e.pending && d.nextFile == e.nextFile
    && d.logs == e.logs && d.files == e.files && d.manifest == e.manifest
    && d.records == e.records && d.horizon == e.horizon
  }

  lemma ControlFrame(d: Db, e: Db)
    requires Control(d) && SameControl(d, e)
    ensures Control(e)
  {
    hide TableEntries, C.GoodDrop, C.BringsBack, UpTo, Uncut;
  }

  ghost predicate SameGroup(p: Phase, q: Phase) {
    (p.Ready? <==> q.Ready?) && (!p.Ready? ==> p.r == q.r && p.n == q.n)
  }

  lemma QueueFrame(d: Db, e: Db)
    requires Queue(d) && d.writers == e.writers && d.lastSequence == e.lastSequence && SameGroup(d.phase, e.phase)
    requires d.arrived == e.arrived && d.fates == e.fates && d.attempts == e.attempts
    ensures Queue(e)
  {
    hide InOrder, Consecutive, EachTakenOnce;
  }

  lemma CoverageFrame(d: Db, e: Db)
    requires Coverage(d) && d.logs == e.logs && d.records == e.records && d.logNumber == e.logNumber
    requires d.lastSequence <= e.lastSequence && d.manifest.lastSeq <= e.manifest.lastSeq
      && e.manifest.log <= d.manifest.log
    requires e.flush.Installing? ==> e.flush == d.flush
    ensures Coverage(e)
  {
    forall r | InLogs(d.logs, d.manifest.log, r) ensures InLogs(e.logs, e.manifest.log, r) {
      var n: nat :| n in d.logs && d.manifest.log <= n && r in d.logs[n];
      assert n in e.logs && e.manifest.log <= n && r in e.logs[n];
    }
    hide InLogs;
  }

  lemma EnqueueOrder(writers: seq<Writer>, w: Writer, n: nat, arrived: seq<Writer>, fates: seq<Fate>)
    requires InOrder(writers, n, arrived, fates)
    ensures InOrder(writers + [w], n, arrived + [w], fates) && (writers + [w])[..n] == writers[..n]
  {
    var m := |fates| - n;
    assert (arrived + [w])[m..] == arrived[m..] + [w];
  }

  lemma EnqueueTaken(w: Writer, arrived: seq<Writer>, fates: seq<Fate>, attempts: seq<Record>)
    requires EachTakenOnce(arrived, fates, attempts)
    ensures EachTakenOnce(arrived + [w], fates, attempts)
  {
    TakenGrows(arrived, w, fates);
    hide TakenOps, AttemptedOps;
  }

  lemma EnqueueQueue(d: Db, w: Writer)
    requires Queue(d)
    ensures Queue(Apply(d, Enqueue(w)))
  {
    EnqueueOrder(d.writers, w, InFlight(d.phase), d.arrived, d.fates);
    EnqueueTaken(w, d.arrived, d.fates, d.attempts);
    hide InOrder, EachTakenOnce, Consecutive, GroupOps;
  }

  lemma RefuseQueue(d: Db)
    requires Queue(d) && Enabled(d, Refuse)
    ensures Queue(Apply(d, Refuse))
  {
    TakenRefused(d.arrived, d.fates);
    hide TakenOps, AttemptedOps, Consecutive;
  }

  lemma LastSequenceUncut(d: Db)
    requires Numbering(d)
    ensures Uncut(d.records, d.lastSequence)
  {
  }

  lemma EnqueueKeeps(d: Db, w: Writer)
    requires Inv(d)
    ensures Inv(Apply(d, Enqueue(w)))
  {
    hide Data, Control, Queue, Coverage, Journal;
    var e := Apply(d, Enqueue(w));
    DataFrame(d, e);
    ControlFrame(d, e);
    EnqueueQueue(d, w);
    CoverageFrame(d, e);
    JournalFrame(d, e);
  }

  lemma RefuseKeeps(d: Db)
    requires Inv(d) && Enabled(d, Refuse)
    ensures Inv(Apply(d, Refuse))
  {
    hide Data, Control, Queue, Coverage, Journal;
    var e := Apply(d, Refuse);
    DataFrame(d, e);
    ControlFrame(d, e);
    RefuseQueue(d);
    CoverageFrame(d, e);
    JournalFrame(d, e);
  }

  lemma GetSnapshotControl(d: Db)
    requires Control(d) && Data(d)
    ensures Control(Apply(d, GetSnapshot))
  {
    hide Refusals, Placement, Order, Meaning;
    LastSequenceUncut(d);
    assert forall i :: 0 <= i < |d.snapshots| ==> d.snapshots[i] in d.snapshots;
    hide TableEntries, C.GoodDrop, C.BringsBack, UpTo, Uncut;
  }

  lemma GetSnapshotKeeps(d: Db)
    requires Inv(d)
    ensures Inv(Apply(d, GetSnapshot))
  {
    hide Data, Control, Queue, Coverage, Journal;
    var e := Apply(d, GetSnapshot);
    DataFrame(d, e);
    GetSnapshotControl(d);
    QueueFrame(d, e);
    CoverageFrame(d, e);
    JournalFrame(d, e);
  }

  lemma ReleaseSnaps(d: Db, i: nat)
    requires Snaps(d) && i < |d.snapshots|
    ensures var left := d.snapshots[..i] + d.snapshots[i + 1..];
      Snaps(d.(snapshots := left)) && forall s :: s in left ==> s in d.snapshots
  {
    var left := d.snapshots[..i] + d.snapshots[i + 1..];
    forall j | 0 <= j < |left| ensures left[j] == d.snapshots[if j < i then j else j + 1] { }
    hide Uncut;
  }

  lemma ReleaseSnapshotControl(d: Db, i: nat)
    requires Control(d) && Enabled(d, ReleaseSnapshot(i))
    ensures Control(Apply(d, ReleaseSnapshot(i)))
  {
    ReleaseSnaps(d, i);
    hide Snaps, Edits, Files, Flushing, CompactionFiles, TableEntries, C.GoodDrop, C.BringsBack;
  }

  lemma ReleaseSnapshotKeeps(d: Db, i: nat)
    requires Inv(d) && Enabled(d, ReleaseSnapshot(i))
    ensures Inv(Apply(d, ReleaseSnapshot(i)))
  {
    hide Data, Control, Queue, Coverage, Journal;
    var e := Apply(d, ReleaseSnapshot(i));
    DataFrame(d, e);
    ReleaseSnapshotControl(d, i);
    QueueFrame(d, e);
    CoverageFrame(d, e);
    JournalFrame(d, e);
  }

  lemma OpenReaderControl(d: Db)
    requires Control(d)
    ensures Control(Apply(d, OpenReader))
  {
    hide TableEntries, C.GoodDrop, C.BringsBack, UpTo, Uncut;
  }

  lemma OpenReaderKeeps(d: Db)
    requires Inv(d)
    ensures Inv(Apply(d, OpenReader))
  {
    hide Data, Control, Queue, Coverage, Journal;
    var e := Apply(d, OpenReader);
    DataFrame(d, e);
    OpenReaderControl(d);
    QueueFrame(d, e);
    CoverageFrame(d, e);
    JournalFrame(d, e);
  }

  lemma CloseReaderControl(d: Db, i: nat)
    requires Control(d) && Enabled(d, CloseReader(i))
    ensures Control(Apply(d, CloseReader(i)))
  {
    hide TableEntries, C.GoodDrop, C.BringsBack, UpTo, Uncut;
  }

  lemma CloseReaderKeeps(d: Db, i: nat)
    requires Inv(d) && Enabled(d, CloseReader(i))
    ensures Inv(Apply(d, CloseReader(i)))
  {
    hide Data, Control, Queue, Coverage, Journal;
    var e := Apply(d, CloseReader(i));
    DataFrame(d, e);
    CloseReaderControl(d, i);
    QueueFrame(d, e);
    CoverageFrame(d, e);
    JournalFrame(d, e);
  }

  lemma StartFlushControl(d: Db)
    requires Control(d) && Enabled(d, StartFlush)
    ensures Control(Apply(d, StartFlush))
  {
    hide TableEntries, C.GoodDrop, C.BringsBack, UpTo, Uncut;
  }

  lemma StartFlushKeeps(d: Db)
    requires Inv(d) && Enabled(d, StartFlush)
    ensures Inv(Apply(d, StartFlush))
  {
    hide Data, Control, Queue, Coverage, Journal;
    var e := Apply(d, StartFlush);
    DataFrame(d, e);
    StartFlushControl(d);
    QueueFrame(d, e);
    CoverageFrame(d, e);
    JournalFrame(d, e);
  }

  lemma StartCompactionControl(d: Db, inputs: set<nat>, deeper: set<nat>, kept: set<Entry>)
    requires Control(d) && Enabled(d, StartCompaction(inputs, deeper, kept))
    ensures Control(Apply(d, StartCompaction(inputs, deeper, kept)))
  {
    TableOne(0, d.files);
    forall s | s in d.snapshots ensures SmallestSnapshot(d) <= s {
      var j :| 0 <= j < |d.snapshots| && d.snapshots[j] == s;
    }
    assert d.snapshots != [] ==> d.snapshots[0] in d.snapshots;
    hide TableEntries, C.GoodDrop, C.BringsBack, UpTo, Uncut;
  }

  lemma StartCompactionKeeps(d: Db, inputs: set<nat>, deeper: set<nat>, kept: set<Entry>)
    requires Inv(d) && Enabled(d, StartCompaction(inputs, deeper, kept))
    ensures Inv(Apply(d, StartCompaction(inputs, deeper, kept)))
  {
    hide Data, Control, Queue, Coverage, Journal;
    var e := Apply(d, StartCompaction(inputs, deeper, kept));
    DataFrame(d, e);
    StartCompactionControl(d, inputs, deeper, kept);
    QueueFrame(d, e);
    CoverageFrame(d, e);
    JournalFrame(d, e);
  }

  lemma SealCompactionControl(d: Db)
    requires Control(d) && Enabled(d, SealCompaction)
    ensures Control(Apply(d, SealCompaction))
  {
    hide TableEntries, C.GoodDrop, C.BringsBack, UpTo, Uncut;
  }

  lemma SealCompactionKeeps(d: Db)
    requires Inv(d) && Enabled(d, SealCompaction)
    ensures Inv(Apply(d, SealCompaction))
  {
    hide Data, Control, Queue, Coverage, Journal;
    var e := Apply(d, SealCompaction);
    DataFrame(d, e);
    SealCompactionControl(d);
    QueueFrame(d, e);
    CoverageFrame(d, e);
    JournalFrame(d, e);
  }

  lemma AbortCompactionControl(d: Db)
    requires Control(d) && Enabled(d, AbortCompaction)
    ensures Control(Apply(d, AbortCompaction))
  {
    hide TableEntries, C.GoodDrop, C.BringsBack, UpTo, Uncut;
  }

  lemma AbortCompactionKeeps(d: Db)
    requires Inv(d) && Enabled(d, AbortCompaction)
    ensures Inv(Apply(d, AbortCompaction))
  {
    hide Data, Control, Queue, Coverage, Journal;
    var e := Apply(d, AbortCompaction);
    DataFrame(d, e);
    AbortCompactionControl(d);
    QueueFrame(d, e);
    CoverageFrame(d, e);
    JournalFrame(d, e);
  }

  // ----- the write path -----

  /** Everything logged so far is numbered below the group in flight. */
  lemma BelowGroup(d: Db)
    requires Numbering(d) && d.phase.Logging?
    ensures Below(Known(d), AllOf(d.phase.r)) && Known(d) !! AllOf(d.phase.r)
    ensures Disjoint(d.records + [d.phase.r])
  {
    var r := d.phase.r;
    RecordNumbers(r, |r.ops|);
    forall e, f | e in Known(d) && f in AllOf(r) ensures e.sn < f.sn {
      if e !in d.origin {
        var q :| q in d.records && e in AllOf(q);
        RecordNumbers(q, |q.ops|);
      }
    }
    BelowDisjoint(Known(d), AllOf(r));
    forall i | 0 <= i < |d.records| ensures d.records[i].base + |d.records[i].ops| <= r.base {
      assert d.records[i] in d.records;
    }
  }

  /** Rewriting log `n` does not show in the logs before it. */
  lemma LogsBelow(logs: map<nat, seq<Record>>, n: nat, rs: seq<Record>, lo: nat, hi: nat)
    requires hi <= n
    ensures LogsBetween(logs[n := rs], lo, hi) == LogsBetween(logs, lo, hi)
  {
    hide Logged;
    var logs' := logs[n := rs];
    forall e ensures e in LogsBetween(logs', lo, hi) <==> e in LogsBetween(logs, lo, hi) {
      if m :| m in logs && lo <= m < hi && e in Logged(logs[m]) {
        assert m in logs' && logs'[m] == logs[m];
      }
    }
  }

  lemma LogsAppend(logs: map<nat, seq<Record>>, n: nat, r: Record, lo: nat)
    requires n in logs && lo <= n
    ensures LogsFrom(logs[n := logs[n] + [r]], lo) == LogsFrom(logs, lo) + AllOf(r)
  {
    LoggedAppend(logs[n], r);
    hide Logged;
    var logs' := logs[n := logs[n] + [r]];
    forall e | e in LogsFrom(logs, lo) + AllOf(r) ensures e in LogsFrom(logs', lo) {
      if e in LogsFrom(logs, lo) {
        var m :| m in logs && lo <= m && e in Logged(logs[m]);
        assert m in logs' && e in Logged(logs'[m]);
      } else {
        assert e in Logged(logs'[n]);
      }
    }
  }

  lemma BeginData(d: Db)
    requires Data(d) && Enabled(d, Begin)
    ensures Data(Apply(d, Begin))
  {
    hide TableEntries, Logged, LogsBetween, LogsFrom, SameReads, Below, UpTo, Unique, Disjoint, Suffix, AllOf,
      GroupOps, GroupEnd;
  }

  lemma ConsecutiveAppend(attempts: seq<Record>, r: Record, top: nat)
    requires Consecutive(attempts, r.base) && top == r.base + |r.ops|
    ensures Consecutive(attempts + [r], top)
  {
    var all := attempts + [r];
    forall i | 0 <= i < |all| ensures all[i].base + |all[i].ops| == NextBase(all, i, top) {
      if i < |attempts| {
        assert all[i] == attempts[i] && NextBase(all, i, top) == NextBase(attempts, i, r.base);
      }
    }
  }

  lemma BeginOrder(writers: seq<Writer>, arrived: seq<Writer>, fates: seq<Fate>, attempts: seq<Record>, n: nat,
    base: nat)
    requires InOrder(writers, 0, arrived, fates) && EachTakenOnce(arrived, fates, attempts) && n <= |writers|
    ensures InOrder(writers, n, arrived, fates + AllTaken(n))
    ensures EachTakenOnce(arrived, fates + AllTaken(n), attempts + [Record(base, GroupOps(writers[..n]))])
  {
    TakenGroup(arrived, fates, n);
    AttemptedAppend(attempts, Record(base, GroupOps(writers[..n])));
    hide TakenOps, AttemptedOps, GroupOps, AllTaken;
  }

  lemma BeginQueue(d: Db, n: nat)
    requires Queue(d) && d.phase.Ready? && 1 <= n <= |d.writers|
    ensures Queue(Begun(d, n))
  {
    hide InOrder, EachTakenOnce, GroupOps, Consecutive, AllTaken, TakenOps, AttemptedOps;
    var r := Record(d.lastSequence + 1, GroupOps(d.writers[..n]));
    BeginOrder(d.writers, d.arrived, d.fates, d.attempts, n, r.base);
    ConsecutiveAppend(d.attempts, r, End(r));
  }

  lemma {:induction false} KeptGrows(attempts: seq<Record>, r: Record, landings: seq<Landing>, lo: nat, hi: nat)
    requires |landings| <= |attempts|
    ensures Kept(attempts + [r], landings, lo, hi) == Kept(attempts, landings, lo, hi)
  {
    if landings != [] {
      KeptGrows(attempts, r, landings[..|landings| - 1], lo, hi);
    }
  }

  lemma {:induction false} AppliedGrows(attempts: seq<Record>, r: Record, landings: seq<Landing>, p: Phase)
    requires |landings| <= |attempts|
    ensures Applied(attempts + [r], landings, p) == Applied(attempts, landings, p)
  {
    if landings != [] {
      AppliedGrows(attempts, r, landings[..|landings| - 1], Ready);
    }
  }

  /** Outside an insertion the phase does not matter. */
  lemma AppliedAtRest(attempts: seq<Record>, landings: seq<Landing>, p: Phase, q: Phase)
    requires |landings| <= |attempts| && !p.Applying? && !q.Applying?
    ensures Applied(attempts, landings, p) == Applied(attempts, landings, q)
  {
  }

  lemma BeginJournal(d: Db, n: nat)
    requires Journal(d) && d.phase.Ready? && n <= |d.writers|
    ensures Journal(Begun(d, n))
  {
    hide Kept, Applied, GroupOps, LogsAscend, Blamed, Elements;
    var r, e := Record(d.lastSequence + 1, GroupOps(d.writers[..n])), Begun(d, n);
    KeptGrows(d.attempts, r, d.landings, 0, d.logNumber + 1);
    forall m | m in d.logs ensures d.logs[m] == Kept(e.attempts, d.landings, m, m + 1) {
      KeptGrows(d.attempts, r, d.landings, m, m + 1);
    }
    AppliedGrows(d.attempts, r, d.landings, d.phase);
    AppliedAtRest(e.attempts, d.landings, d.phase, e.phase);
    BeginBlamed(d, e, r);
  }

  lemma BeginBlamed(d: Db, e: Db, r: Record)
    requires Blamed(d) && e.torn == d.torn && e.refused == d.refused && e.landings == d.landings
    requires e.attempts == d.attempts + [r] && |d.landings| <= |d.attempts|
    ensures Blamed(e)
  {
    forall x | x in e.refused
      ensures exists i :: RefusedAttempt(e.attempts, e.landings, i) && x in AllOf(e.attempts[i])
    {
      var i :| RefusedAttempt(d.attempts, d.landings, i) && x in AllOf(d.attempts[i]);
      assert RefusedAttempt(e.attempts, e.landings, i) && e.attempts[i] == d.attempts[i];
    }
  }

  lemma BeginKeeps(d: Db)
    requires Inv(d) && Enabled(d, Begin)
    ensures Inv(Apply(d, Begin))
  {
    hide Data, Control, Queue, GroupOps, GroupEnd, Coverage, Journal, AllTaken;
    CoverageFrame(d, Apply(d, Begin));
    BeginData(d);
    ControlFrame(d, Apply(d, Begin));
    BeginQueue(d, GroupEnd(d.writers, 1, d.writers[0].bytes));
    BeginJournal(d, GroupEnd(d.writers, 1, d.writers[0].bytes));
  }

  /** All that is on disk is known, and what of it is not waiting is meant to be seen. */
  lemma DurableKnown(d: Db)
    requires Numbering(d) && Refusals(d) && Placement(d)
    ensures Durable(d) <= Known(d) && Secured(d) <= Intended(d) && Logged(d.logs[d.logNumber]) <= Known(d)
    ensures LogsFrom(d.logs, d.versionLog) <= ImmOf(d) + d.mem + Unapplied(d)
    ensures Rest(d) <= Durable(d)
  {
    IntendedApart(d);
    hide Numbering, Refusals, TableEntries, Logged;
    forall e | e in LogsFrom(d.logs, d.versionLog) ensures e in ImmOf(d) + d.mem + Unapplied(d) {
      var n :| n in d.logs && d.versionLog <= n && e in Logged(d.logs[n]);
      assert n < d.logNumber ==> e in LogsBetween(d.logs, d.versionLog, d.logNumber);
    }
    assert LogsFrom(d.logs, d.manifest.log) <= LogsFrom(d.logs, d.versionLog);
  }

  /** What a completed append changes, set by set. */
  lemma AppendSets(d: Db, o: Outcome) returns (e: Db)
    requires Numbering(d) && d.phase.Logging? && d.logNumber in d.logs
    requires d.versionLog <= d.manifest.log <= d.logNumber
    ensures e == Appended(d, o)
    ensures Logged(e.records) == Logged(d.records) + AllOf(d.phase.r) && Known(e) == Known(d) + AllOf(d.phase.r)
    ensures Logged(e.logs[e.logNumber]) == Logged(d.logs[d.logNumber]) + AllOf(d.phase.r)
    ensures LogsFrom(e.logs, e.manifest.log) == LogsFrom(d.logs, d.manifest.log) + AllOf(d.phase.r)
    ensures LogsBetween(e.logs, e.versionLog, e.logNumber) == LogsBetween(d.logs, d.versionLog, d.logNumber)
    ensures Rest(d) == {} && Unapplied(d) == d.refused && Unapplied(e) == d.refused + AllOf(d.phase.r)
    ensures Rest(e) <= AllOf(d.phase.r)
    ensures Below(Known(d), AllOf(d.phase.r)) && Known(d) !! AllOf(d.phase.r) && Disjoint(e.records)
  {
    e := Appended(d, o);
    var r := d.phase.r;
    LoggedAppend(d.records, r);
    LoggedAppend(d.logs[d.logNumber], r);
    LogsAppend(d.logs, d.logNumber, r, d.manifest.log);
    LogsBelow(d.logs, d.logNumber, d.logs[d.logNumber] + [r], d.versionLog, d.logNumber);
    BelowGroup(d);
    RecordNumbers(r, 0);
    assert Prefix(r, 0) == {};
    hide Logged, LogsBetween, LogsFrom, Below, Disjoint, Suffix, Prefix, AllOf;
  }

  lemma AppendNumbering(d: Db, o: Outcome)
    requires Numbering(d) && Placement(d) && d.phase.Logging?
    ensures Numbering(Appended(d, o))
  {
    hide Placement, Logged, LogsBetween, LogsFrom, Below, Unique, UpTo, Disjoint, Suffix, AllOf, Unapplied, Known;
    assert d.logNumber in d.logs && d.versionLog <= d.manifest.log <= d.logNumber by { LogNumbers(d); }
    var r := d.phase.r;
    var e := AppendSets(d, o);
    forall q | q in e.records ensures d.start < q.base && (End(q) <= e.lastSequence + 1 || Unpublished(e, q)) {
      assert q in d.records || q == r;
    }
    assert r in e.records;
  }

  lemma LogNumbers(d: Db)
    requires Placement(d)
    ensures d.logNumber in d.logs && d.versionLog <= d.manifest.log <= d.logNumber
  {
  }

  lemma AppendRefusals(d: Db, o: Outcome)
    requires Numbering(d) && Refusals(d) && Placement(d) && d.phase.Logging?
    ensures Refusals(Appended(d, o))
  {
    hide Numbering, Placement, Below, Disjoint, LogsFrom, LogsBetween, AllOf, Unapplied;
    assert d.logNumber in d.logs && d.versionLog <= d.manifest.log <= d.logNumber by { LogNumbers(d); }
    var e := AppendSets(d, o);
    var r := d.phase.r;
    assert d.refused <= Known(d);
    forall q | q in e.records ensures AllOf(q) <= e.refused || AllOf(q) !! e.refused {
      if q in d.records {
        assert AllOf(q) <= Logged(d.records) && AllOf(q) !! AllOf(r);
      } else {
        assert q == r;
      }
    }
    hide Numbering, Placement, Below, Disjoint, LogsFrom, LogsBetween, AllOf;
  }

  lemma AppendPlacement(d: Db, o: Outcome)
    requires Numbering(d) && Refusals(d) && Placement(d) && d.phase.Logging?
    ensures Placement(Appended(d, o)) && Intended(Appended(d, o)) == Intended(d)
    ensures Secured(Appended(d, o)) == Secured(d)
  {
    hide Numbering, Refusals, TableEntries, Logged, LogsBetween, LogsFrom, AllOf, Unapplied, Rest, Below, Disjoint;
    DurableKnown(d);
    IntendedApart(d);
    var e := AppendSets(d, o);
    var add := AllOf(d.phase.r);
    assert View(e) == View(d) && Durable(e) == Durable(d) + add;
    AddedUnseen(Durable(d), Known(d), d.refused, add);
    AddedUnseen(Logged(d.records), Known(d), d.refused, add);
    AddedUnseen(Logged(d.logs[d.logNumber]), Known(d), d.refused, add);
    hide View, Durable;
    assert Intended(e) == Intended(d) && Secured(e) == Secured(d);
    hide Intended, Secured, Known;
  }

  /** What is added on both sides of a difference does not show. */
  lemma AddedUnseen(es: set<Entry>, known: set<Entry>, refused: set<Entry>, add: set<Entry>)
    requires es <= known && known !! add
    ensures (es + add) - (refused + add) == es - refused
  {
  }

  lemma AppendOrder(d: Db, o: Outcome)
    requires Numbering(d) && Refusals(d) && Placement(d) && Order(d) && d.phase.Logging?
    ensures Order(Appended(d, o))
  {
    var e := AppendSets(d, o);
    IntendedApart(d);
    assert View(e) == View(d) && View(d) <= Known(d);
    hide Numbering, Refusals, Placement, TableEntries, Logged, LogsBetween, LogsFrom, UpTo, AllOf, Unapplied, Rest,
      View;
  }

  lemma AppendData(d: Db, o: Outcome)
    requires Data(d) && d.phase.Logging?
    ensures d.logNumber in d.logs && Data(Appended(d, o))
  {
    AppendNumbering(d, o);
    AppendRefusals(d, o);
    AppendPlacement(d, o);
    AppendOrder(d, o);
    hide Numbering, Refusals, Placement, Order, SameReads, Intended, Secured, AllOf;
  }

  lemma AppendControl(d: Db, o: Outcome)
    requires Control(d) && d.phase.Logging? && d.phase.r.base == d.lastSequence + 1 && d.logNumber in d.logs
    ensures Control(Appended(d, o))
  {
    var r := d.phase.r;
    forall s | s in d.snapshots ensures Uncut(d.records + [r], s) {
      assert Uncut(d.records, s) && s <= d.lastSequence;
    }
    hide TableEntries, C.GoodDrop, C.BringsBack, UpTo, Uncut;
  }

  lemma KeptStep(attempts: seq<Record>, landings: seq<Landing>, l: Landing, lo: nat, hi: nat)
    requires |landings| < |attempts|
    ensures Kept(attempts, landings + [l], lo, hi)
         == Kept(attempts, landings, lo, hi)
            + if Stored(l.outcome) && lo <= l.log < hi then [attempts[|landings|]] else []
  {
    assert (landings + [l])[..|landings|] == landings;
  }

  lemma AppliedStep(attempts: seq<Record>, landings: seq<Landing>, l: Landing, p: Phase, q: Phase)
    requires |landings| < |attempts| && !p.Applying? && (q.Applying? ==> q.i == 0)
      && (Applies(l.outcome) ==> q.Applying?)
    ensures Applied(attempts, landings + [l], q) == Applied(attempts, landings, p)
  {
    assert (landings + [l])[..|landings|] == landings;
    AppliedAtRest(attempts, landings, p, Ready);
  }

  lemma LandingAscends(landings: seq<Landing>, l: Landing, logNumber: nat)
    requires LogsAscend(landings, logNumber) && l.log == logNumber
    ensures LogsAscend(landings + [l], logNumber)
  {
    assert forall k :: k in landings + [l] ==> k in landings || k == l;
  }

  /** What `Settled` does to the logs and to what is remembered of them. */
  lemma SettledLogs(d: Db, o: Outcome)
    requires d.phase.Logging? && d.logNumber in d.logs
    ensures var e, more := Settled(d, o), if Stored(o) then [d.phase.r] else [];
      && e.logs == d.logs[d.logNumber := d.logs[d.logNumber] + more] && e.records == d.records + more
      && e.attempts == d.attempts && e.landings == d.landings + [Landing(d.logNumber, o)]
      && e.logNumber == d.logNumber && e.versionLog == d.versionLog
      && (e.torn == d.torn || e.torn == d.torn[d.logNumber := |d.logs[d.logNumber]|])
  {
    hide AllOf, Applies, Stored, Tears;
    var none: seq<Record> := [];
    assert d.records + none == d.records && d.logs[d.logNumber] + none == d.logs[d.logNumber];
    assert d.logs[d.logNumber := d.logs[d.logNumber]] == d.logs;
  }

  lemma AppendLogJournal(d: Db, o: Outcome)
    requires LogJournal(d) && d.phase.Logging? && d.logNumber in d.logs
    requires |d.attempts| == |d.landings| + 1 && d.attempts[|d.landings|] == d.phase.r
    ensures LogJournal(Settled(d, o))
  {
    hide Kept, Settled, LogsAscend;
    var e, l := Settled(d, o), Landing(d.logNumber, o);
    SettledLogs(d, o);
    LandingAscends(d.landings, l, d.logNumber);
    KeptStep(d.attempts, d.landings, l, 0, d.logNumber + 1);
    forall m | m in e.logs ensures e.logs[m] == Kept(e.attempts, e.landings, m, m + 1) {
      KeptStep(d.attempts, d.landings, l, m, m + 1);
    }
    assert forall k :: k in e.landings ==> k in d.landings || k == l;
    hide Stored;
  }

  lemma AppendMemJournal(d: Db, o: Outcome)
    requires MemJournal(d) && d.phase.Logging? && d.logNumber in d.logs
    ensures MemJournal(Settled(d, o))
  {
    hide Applied, Elements, AllOf, Tears;
    var e, l := Settled(d, o), Landing(d.logNumber, o);
    AppliedStep(d.attempts, d.landings, l, d.phase, e.phase);
  }

  lemma AppendJournal(d: Db, o: Outcome)
    requires Journal(d) && d.phase.Logging? && d.logNumber in d.logs
    ensures Journal(Settled(d, o))
  {
    assert LastLanded(d.attempts, d.landings, d.phase);
    hide LogJournal, MemJournal, Blamed, Settled;
    AppendLogJournal(d, o);
    AppendMemJournal(d, o);
    AppendBlamed(d, o);
  }

  lemma AppendBlamed(d: Db, o: Outcome)
    requires Blamed(d) && d.phase.Logging? && d.logNumber in d.logs && |d.attempts| == |d.landings| + 1
    requires d.attempts[|d.landings|] == d.phase.r
    ensures Blamed(Settled(d, o))
  {
    hide AllOf;
    var e, l := Settled(d, o), Landing(d.logNumber, o);
    assert e.landings == d.landings + [l] && l in e.landings && e.attempts == d.attempts;
    forall n | n in e.torn ensures exists k :: k in e.landings && k.log == n && Tears(k.outcome) {
      if n in d.torn {
        var k :| k in d.landings && k.log == n && Tears(k.outcome);
        assert k in e.landings;
      }
    }
    forall x | x in e.refused
      ensures exists i :: RefusedAttempt(e.attempts, e.landings, i) && x in AllOf(e.attempts[i])
    {
      if x in d.refused {
        var i :| RefusedAttempt(d.attempts, d.landings, i) && x in AllOf(d.attempts[i]);
        assert RefusedAttempt(e.attempts, e.landings, i);
      } else {
        assert RefusedAttempt(e.attempts, e.landings, |d.landings|);
      }
    }
  }

  /** The state between the record and the bookkeeping of the attempt. */
  ghost function Tried(d: Db, o: Outcome): Db
    requires d.phase.Logging? && d.logNumber in d.logs
  {
    if Stored(o) then Appended(d, o) else d.(phase := Failed(d.phase.r, d.phase.n, false, false))
  }

  lemma TriedKeeps(d: Db, o: Outcome)
    requires Data(d) && Control(d) && Coverage(d) && d.phase.Logging? && d.logNumber in d.logs
    ensures Data(Tried(d, o)) && Control(Tried(d, o)) && Coverage(Tried(d, o))
  {
    if Stored(o) {
      assert Placement(d) && Numbering(d) && d.phase.r.base == d.lastSequence + 1;
      hide Data, Control, Coverage, Placement, Numbering, Appended;
      AppendData(d, o);
      AppendControl(d, o);
      AppendCoverage(d, o);
    } else {
      hide Data, Control, Coverage;
      FailData(d);
      ControlFrame(d, Tried(d, o));
      CoverageFrame(d, Tried(d, o));
    }
  }

  lemma AppendKeeps(d: Db, o: Outcome)
    requires Inv(d) && Enabled(d, Append(o))
    ensures Inv(Apply(d, Append(o)))
  {
    hide Data, Control, Queue, Coverage, Journal, AllOf, Applies;
    TriedKeeps(d, o);
    AppendJournal(d, o);
    var e := Settled(d, o);
    QueueFrame(d, e);
    DataFrame(Tried(d, o), e);
    ControlFrame(Tried(d, o), e);
    CoverageFrame(Tried(d, o), e);
  }

  lemma FailData(d: Db)
    requires Data(d) && d.phase.Logging?
    ensures Data(d.(phase := Failed(d.phase.r, d.phase.n, false, false)))
  {
    hide TableEntries, Logged, LogsBetween, LogsFrom, SameReads, Below, UpTo, Unique, Disjoint, Suffix, AllOf;
  }

  // ----- inserting the group into the memtable -----

  /** One insertion moves one entry from the waiting group into the memtable. */
  lemma InsertSets(d: Db) returns (x: Entry)
    requires Numbering(d) && Refusals(d) && d.phase.Applying? && d.phase.i < |d.phase.r.ops|
    ensures x == EntryOf(d.phase.r, d.phase.i) && x in Rest(d) && x !in d.refused && x in Logged(d.records)
    ensures Rest(Inserted(d)) == Rest(d) - {x} && Unapplied(Inserted(d)) == Unapplied(d) - {x}
    ensures forall y :: y in Rest(Inserted(d)) ==> x.sn < y.sn
    ensures Intended(Inserted(d)) == Intended(d) + {x} && Known(Inserted(d)) == Known(d)
  {
    var r, i := d.phase.r, d.phase.i;
    x := EntryOf(r, i);
    SuffixStep(r, i);
    RecordNumbers(r, i);
    RecordNumbers(r, i + 1);
    assert Unpublished(d, r) && x in AllOf(r);
    assert AllOf(r) <= Logged(d.records);
    hide Suffix, Prefix, AllOf, Logged;
    IntendedApart(d);
  }

  lemma InsertViews(d: Db) returns (x: Entry)
    requires Numbering(d) && Refusals(d) && Placement(d) && d.phase.Applying? && d.phase.i < |d.phase.r.ops|
    ensures var e := Inserted(d);
      && View(e) == View(d) + {x} && Secured(e) == Secured(d) + {x} && Intended(e) == Intended(d) + {x}
      && View(d) + Secured(d) <= Intended(d) && Below(Intended(d), {x}) && NoClash(Intended(e))
      && x == EntryOf(d.phase.r, d.phase.i)
  {
    hide Numbering, Refusals, Placement, View, Intended, Secured, Known, NoClash, Unapplied, Rest;
    var e := Inserted(d);
    x := InsertSets(d);
    DurableKnown(d);
    InsertedLayers(d, x);
    InsertIsNewest(d);
    InsertNumbering(d);
    IntendedApart(e);
    KnownUnique(e);
    NoClashSubset(Intended(e), Known(e));
    assert View(d) <= Intended(d) by { ViewIntended(d); }
  }

  lemma ViewIntended(d: Db)
    requires Placement(d)
    ensures View(d) <= Intended(d)
  {
  }

  lemma InsertedLayers(d: Db, x: Entry)
    requires Placement(d) && d.phase.Applying? && d.phase.i < |d.phase.r.ops|
    requires x == EntryOf(d.phase.r, d.phase.i) && x in Rest(d) && Unapplied(Inserted(d)) == Unapplied(d) - {x}
    ensures var e := Inserted(d); View(e) == View(d) + {x} && Secured(e) == Secured(d) + {x}
  {
    hide Unapplied, Logged, TableEntries, Intended, Rest;
    var e := Inserted(d);
    assert Rest(d) <= Logged(d.logs[d.logNumber]) <= LogsFrom(d.logs, d.manifest.log);
    hide LogsFrom;
    assert x in Durable(d) && Durable(e) == Durable(d);
  }

  lemma InsertMeaning(d: Db)
    requires Data(d) && d.phase.Applying? && d.phase.i < |d.phase.r.ops|
    ensures Meaning(Inserted(d))
  {
    var x := InsertViews(d);
    DataMeaning(d);
    hide Data, View, Intended, Secured, SameReads, NoClash;
    assert View(d) + {x} <= Intended(d) + {x} && Secured(d) + {x} <= Intended(d) + {x};
    NoClashSubset(View(d) + {x}, Intended(d) + {x});
    NoClashSubset(Secured(d) + {x}, Intended(d) + {x});
    if !d.spoilt {
      AppendNewest(View(d), Intended(d), {x}, d.horizon);
      AppendNewest(Secured(d), Intended(d), {x}, d.horizon);
    }
  }

  lemma InsertPlacement(d: Db)
    requires Numbering(d) && Refusals(d) && Placement(d) && d.phase.Applying? && d.phase.i < |d.phase.r.ops|
    ensures Placement(Inserted(d))
  {
    hide Numbering, Refusals, TableEntries, Logged, LogsBetween, LogsFrom, Unapplied, Intended, Known, Rest;
    var e := Inserted(d);
    var x := InsertSets(d);
    assert Durable(e) == Durable(d) && View(e) == View(d) + {x};
    hide Durable, View;
  }

  lemma InsertOrder(d: Db)
    requires Numbering(d) && Refusals(d) && Placement(d) && Order(d) && d.phase.Applying? && d.phase.i < |d.phase.r.ops|
    ensures Order(Inserted(d))
  {
    hide Numbering, Refusals, Placement, TableEntries, Unapplied, Rest, Known, Intended, Logged;
    var e := Inserted(d);
    var x := InsertSets(d);
    assert View(e) == View(d) + {x};
    assert UpTo(TableEntries(e.current, e.files) + ImmOf(e), e.lastSequence);
    hide UpTo;
  }

  lemma InsertData(d: Db)
    requires Data(d) && d.phase.Applying? && d.phase.i < |d.phase.r.ops|
    ensures Data(Inserted(d))
  {
    hide Placement, Order, Meaning, Logged, Disjoint, Unique, UpTo, AllOf, Refusals, Numbering;
    InsertMeaning(d);
    InsertPlacement(d);
    InsertOrder(d);
    InsertNumbering(d);
  }

  lemma InsertNumbering(d: Db)
    requires Numbering(d) && Refusals(d) && d.phase.Applying? && d.phase.i < |d.phase.r.ops|
    ensures Numbering(Inserted(d)) && Refusals(Inserted(d))
  {
    hide Logged, Disjoint, Unique, UpTo, AllOf;
  }

  /** Everything intended so far is older than what is inserted next. */
  lemma InsertIsNewest(d: Db)
    requires Numbering(d) && d.phase.Applying? && d.phase.i < |d.phase.r.ops|
    ensures Below(Intended(d), {EntryOf(d.phase.r, d.phase.i)})
  {
    var r, i := d.phase.r, d.phase.i;
    RecordNumbers(r, i);
    forall e | e in Intended(d) ensures e.sn < r.base + i {
      if e !in d.origin {
        var q :| q in d.records && e in AllOf(q);
        RecordNumbers(q, |q.ops|);
        if q != r {
          assert End(q) <= d.lastSequence + 1;
        }
      }
    }
  }

  lemma InsertJournal(d: Db)
    requires Journal(d) && d.phase.Applying? && d.phase.i < |d.phase.r.ops|
    ensures Journal(Inserted(d))
  {
    var r, i, e := d.phase.r, d.phase.i, Inserted(d);
    InsertedStep(d);
    assert e.inserted[e.switched..] == d.inserted[d.switched..] + [EntryOf(r, i)];
    assert d.earlier <= d.switched <= |d.inserted| ==>
        e.inserted[e.earlier..e.switched] == d.inserted[d.earlier..d.switched];
    hide Applied, Kept, LogsAscend, RefusedAttempt, AllOf;
  }

  lemma InsertedStep(d: Db)
    requires MemJournal(d) && d.phase.Applying? && d.phase.i < |d.phase.r.ops|
    ensures Applied(d.attempts, d.landings, Inserted(d).phase) == d.inserted + [EntryOf(d.phase.r, d.phase.i)]
  {
    var r, i := d.phase.r, d.phase.i;
    assert Updates(r, i + 1) == Updates(r, i) + [EntryOf(r, i)];
  }

  lemma InsertKeeps(d: Db)
    requires Inv(d) && Enabled(d, InsertNext)
    ensures Inv(Apply(d, InsertNext))
  {
    hide Data, Control, Queue, Coverage, Journal;
    InsertData(d);
    InsertJournal(d);
    CoverageFrame(d, Inserted(d));
    ControlFrame(d, Inserted(d));
    QueueFrame(d, Inserted(d));
  }

  // ----- publishing the group -----

  lemma FinishOrder(d: Db)
    requires Numbering(d) && Refusals(d) && Placement(d) && Order(d) && Enabled(d, Finish)
    ensures Order(Finished(d)) && Unapplied(Finished(d)) == Unapplied(d) && Rest(d) == {}
  {
    var e := Finished(d);
    if d.phase.Applying? {
      assert Suffix(d.phase.r, |d.phase.r.ops|) == {};
    }
    forall x | x in d.mem ensures x.sn <= e.lastSequence {
      assert x in View(d) && x in Intended(d);
      if x !in d.origin {
        var q :| q in d.records && x in AllOf(q);
        RecordNumbers(q, |q.ops|);
      }
    }
    hide Numbering, Refusals, Placement, TableEntries, Logged, Suffix, AllOf, Unapplied;
  }

  lemma FinishData(d: Db)
    requires Data(d) && Enabled(d, Finish)
    ensures Data(Finished(d))
  {
    hide Order, TableEntries, Logged, LogsBetween, LogsFrom, SameReads, Suffix, AllOf, Disjoint, Unique, UpTo;
    var e := Finished(d);
    FinishOrder(d);
    assert Rest(e) == {} && Unapplied(e) == Unapplied(d);
    hide Rest, Unapplied;
  }

  lemma FinishJournal(d: Db)
    requires Journal(d) && Enabled(d, Finish)
    ensures Journal(Finished(d))
  {
    hide Kept, LogsAscend, RefusedAttempt, AllOf, Applied;
    FinishApplied(d.attempts, d.landings, d.phase);
  }

  lemma FinishApplied(attempts: seq<Record>, landings: seq<Landing>, p: Phase)
    requires LastLanded(attempts, landings, p) && (p.Failed? || (p.Applying? && p.i == |p.r.ops|))
    ensures |landings| <= |attempts| && Applied(attempts, landings, Ready) == Applied(attempts, landings, p)
  {
    hide Updates;
  }

  lemma FinishKeeps(d: Db)
    requires Inv(d) && Enabled(d, Finish)
    ensures Inv(Apply(d, Finish))
  {
    hide Data, Control, Queue, Coverage, Journal;
    FinishData(d);
    FinishControl(d);
    FinishQueue(d);
    FinishJournal(d);
    CoverageFrame(d, Finished(d));
  }

  lemma FinishControl(d: Db)
    requires Control(d) && !d.phase.Ready?
    ensures Control(Finished(d))
  {
    hide TableEntries, C.GoodDrop, C.BringsBack, UpTo, Uncut;
  }

  lemma FinishQueue(d: Db)
    requires Queue(d) && !d.phase.Ready?
    ensures Queue(Finished(d))
  {
    hide Consecutive, EachTakenOnce;
  }

  // ----- switching memtables -----

  lemma SwitchSets(d: Db)
    requires Placement(d) && Files(d) && d.imm.None?
    ensures LogsFrom(Switched(d).logs, d.manifest.log) == LogsFrom(d.logs, d.manifest.log)
    ensures LogsBetween(Switched(d).logs, d.versionLog, d.nextFile) <= Logged(d.logs[d.logNumber]) + d.refused
    ensures Logged(d.logs[d.logNumber]) <= LogsFrom(d.logs, d.manifest.log)
  {
    var logs, logs' := d.logs, Switched(d).logs;
    assert Logged([]) == {};
    hide Logged;
    forall e ensures e in LogsFrom(logs', d.manifest.log) <==> e in LogsFrom(logs, d.manifest.log) {
      if n :| n in logs && d.manifest.log <= n && e in Logged(logs[n]) {
        assert n in logs' && logs'[n] == logs[n];
      }
    }
    forall e | e in LogsBetween(logs', d.versionLog, d.nextFile) ensures e in Logged(logs[d.logNumber]) + d.refused {
      var n :| n in logs' && d.versionLog <= n < d.nextFile && e in Logged(logs'[n]);
      assert logs'[n] == logs[n] && (n < d.logNumber ==> e in LogsBetween(logs, d.versionLog, d.logNumber));
    }
  }

  lemma SwitchData(d: Db)
    requires Data(d) && Files(d) && Enabled(d, Switch)
    ensures Data(Switched(d))
  {
    hide TableEntries, LogsBetween, LogsFrom, SameReads, Suffix, AllOf, Disjoint, Unique;
    var e := Switched(d);
    SwitchSets(d);
    assert Logged([]) == {};
    hide Logged;
    assert Unapplied(e) == Unapplied(d) == d.refused && Rest(e) == Rest(d) == {};
    assert View(e) == View(d) && Durable(e) == Durable(d);
    assert Intended(e) == Intended(d) && Secured(e) == Secured(d);
    assert d.mem <= Durable(d);
    hide Unapplied, Rest, View, Durable, Intended, Secured;
  }

  lemma {:induction false} KeptNone(attempts: seq<Record>, landings: seq<Landing>, lo: nat, hi: nat)
    requires |landings| <= |attempts| && forall l :: l in landings ==> !(lo <= l.log < hi)
    ensures Kept(attempts, landings, lo, hi) == []
  {
    if landings != [] {
      KeptNone(attempts, landings[..|landings| - 1], lo, hi);
    }
  }

  lemma {:induction false} KeptWiden(attempts: seq<Record>, landings: seq<Landing>, lo: nat, hi: nat, more: nat)
    requires |landings| <= |attempts| && forall l :: l in landings ==> l.log < hi <= more
    ensures Kept(attempts, landings, lo, more) == Kept(attempts, landings, lo, hi)
  {
    if landings != [] {
      KeptWiden(attempts, landings[..|landings| - 1], lo, hi, more);
    }
  }

  lemma SwitchLogJournal(d: Db)
    requires LogJournal(d) && d.logNumber < d.nextFile && d.nextFile !in d.logs
    ensures LogJournal(Switched(d))
  {
    hide Kept;
    KeptNone(d.attempts, d.landings, d.nextFile, d.nextFile + 1);
    KeptWiden(d.attempts, d.landings, 0, d.logNumber + 1, d.nextFile + 1);
    assert LogsAscend(d.landings, d.nextFile);
    hide LogsAscend;
  }

  lemma SwitchJournal(d: Db)
    requires Journal(d) && d.logNumber < d.nextFile && d.nextFile !in d.logs
    ensures Journal(Switched(d))
  {
    hide LogJournal, Applied, LastLanded, RefusedAttempt, AllOf;
    SwitchLogJournal(d);
    assert d.inserted[|d.inserted|..] == [] && Switched(d).mem == Elements([]);
    hide Elements;
  }

  lemma FreshLog(d: Db)
    requires Data(d) && Control(d) && d.imm.None?
    ensures Numbering(d) && Placement(d) && Files(d) && d.flush.NoFlush?
    ensures d.logNumber < d.nextFile && d.nextFile !in d.logs
  {
    hide Order, Meaning, Refusals, Edits, CompactionFiles, Guard, Snaps, TableEntries;
  }

  lemma SwitchKeeps(d: Db)
    requires Inv(d) && Enabled(d, Switch)
    ensures Inv(Apply(d, Switch))
  {
    hide Data, Control, Queue, Coverage, Journal;
    FreshLog(d);
    SwitchData(d);
    SwitchControl(d);
    SwitchCoverage(d);
    SwitchJournal(d);
    QueueFrame(d, Switched(d));
  }

  lemma SwitchControl(d: Db)
    requires Control(d) && Enabled(d, Switch)
    ensures Control(Switched(d))
  {
    hide TableEntries, C.GoodDrop, C.BringsBack, UpTo, Uncut;
  }

  // ----- new table files -----

  /** A file nobody refers to yet changes no view. */
  lemma NewFileUnseen(d: Db, n: nat, entries: set<Entry>)
    requires Files(d) && Flushing(d) && CompactionFiles(d) && n !in d.current + d.manifest.tables
    ensures var files' := d.files[n := entries];
      && TableEntries(d.current, files') == TableEntries(d.current, d.files)
      && TableEntries(d.manifest.tables, files') == TableEntries(d.manifest.tables, d.files)
      && forall c :: c <= d.current + d.manifest.tables ==> TableEntries(c, files') == TableEntries(c, d.files)
  {
    var files' := d.files[n := entries];
    forall c | c <= d.current + d.manifest.tables ensures TableEntries(c, files') == TableEntries(c, d.files) {
      TableFrame(c, d.files, files');
    }
  }

  /** The fields `Data` is about, with the files only as far as they are referred to. */
  lemma DataFrameFiles(d: Db, e: Db)
    requires Data(d) && d.files.Keys <= e.files.Keys && SameData(d, e.(files := d.files))
    requires TableEntries(d.current, e.files) == TableEntries(d.current, d.files)
    requires TableEntries(d.manifest.tables, e.files) == TableEntries(d.manifest.tables, d.files)
    ensures Data(e)
  {
    hide TableEntries, Logged, LogsBetween, LogsFrom, SameReads, Below, UpTo, Disjoint, Suffix, AllOf;
  }

  lemma OutputGuard(d: Db, entries: set<Entry>)
    requires Files(d) && Flushing(d) && CompactionFiles(d) && Guard(d) && Listed(d) && d.comp.Compacting?
    ensures Guard(OutputWritten(d, entries)) && Listed(OutputWritten(d, entries))
  {
    NewFileUnseen(d, d.nextFile, entries);
    hide Files, Flushing, TableEntries, C.GoodDrop, C.BringsBack;
  }

  lemma OutputControl(d: Db, entries: set<Entry>)
    requires Control(d) && Enabled(d, CompactionOutput(entries))
    ensures Control(OutputWritten(d, entries))
  {
    hide Guard, Listed, CompactionFiles, TableEntries, UpTo, Uncut;
    OutputFiles(d, entries);
    OutputGuard(d, entries);
  }

  lemma OutputFiles(d: Db, entries: set<Entry>)
    requires Files(d) && CompactionFiles(d) && d.comp.Compacting? && d.comp.seal.None? && entries <= d.comp.kept
    ensures CompactionFiles(OutputWritten(d, entries))
  {
    var n, e := d.nextFile, OutputWritten(d, entries);
    TableFrame(d.comp.outs, d.files, e.files);
    TableUnion(d.comp.outs, {n}, e.files);
    TableOne(n, e.files);
    hide TableEntries, Files;
    assert n !in d.files && n !in d.current + d.manifest.tables by { FreshFile(d); }
  }

  lemma FreshFile(d: Db)
    requires Files(d)
    ensures d.nextFile !in d.files && d.nextFile !in d.current + d.manifest.tables
  {
  }

  lemma OutputData(d: Db, entries: set<Entry>)
    requires Data(d) && Control(d) && d.comp.Compacting?
    ensures Data(OutputWritten(d, entries))
  {
    NewFileUnseen(d, d.nextFile, entries);
    hide Data, TableEntries, Flushing, CompactionFiles, Guard, Snaps, Edits;
    DataFrameFiles(d, OutputWritten(d, entries));
  }

  lemma OutputKeeps(d: Db, entries: set<Entry>)
    requires Inv(d) && Enabled(d, CompactionOutput(entries))
    ensures Inv(Apply(d, CompactionOutput(entries)))
  {
    hide Data, Control, Queue, TableEntries, Coverage, Journal;
    OutputControl(d, entries);
    OutputData(d, entries);
    CoverageFrame(d, OutputWritten(d, entries));
    QueueFrame(d, OutputWritten(d, entries));
    JournalFrame(d, OutputWritten(d, entries));
  }

  lemma ImmIsPublished(d: Db)
    requires Inv(d)
    ensures UpTo(ImmOf(d), d.lastSequence) && d.logNumber in d.logs
  {
    hide Numbering, Meaning, Control, Queue, Coverage, TableEntries;
  }

  lemma BuiltGuard(d: Db)
    requires Files(d) && Flushing(d) && CompactionFiles(d) && Guard(d) && Listed(d) && d.flush.Building? && d.imm.Some?
    ensures Guard(Built(d)) && Listed(Built(d))
  {
    NewFileUnseen(d, d.flush.number, d.imm.value);
    hide Files, Flushing, TableEntries, C.GoodDrop, C.BringsBack;
  }

  lemma BuiltControl(d: Db)
    requires Control(d) && d.flush.Building? && d.imm.Some?
    requires UpTo(ImmOf(d), d.lastSequence) && d.logNumber in d.logs
    ensures Control(Built(d))
  {
    var n, e := d.flush.number, Built(d);
    TableFrame(CompactionOuts(d), d.files, e.files);
    BuiltGuard(d);
    hide Guard, Listed, TableEntries, UpTo, Uncut;
  }

  lemma BuiltData(d: Db)
    requires Data(d) && Control(d) && d.flush.Building? && d.imm.Some?
    ensures Data(Built(d))
  {
    hide Data, TableEntries, CompactionFiles, Guard, Snaps, Edits, Files;
    NewFileUnseen(d, d.flush.number, d.imm.value);
    DataFrameFiles(d, Built(d));
  }

  lemma NotBuiltControl(d: Db)
    requires Control(d) && d.flush.Building?
    ensures Control(d.(pending := d.pending - {d.flush.number}, flush := NoFlush, bgError := true))
  {
    hide TableEntries, C.GoodDrop, C.BringsBack, UpTo, Uncut;
  }

  lemma FlushBuiltKeeps(d: Db, built: bool)
    requires Inv(d) && Enabled(d, FlushBuilt(built))
    ensures Inv(Apply(d, FlushBuilt(built)))
  {
    hide Data, Control, Queue, Coverage, Journal;
    var e := Apply(d, FlushBuilt(built));
    if built {
      BuiltData(d);
      ImmIsPublished(d);
      BuiltControl(d);
      BuiltCoverage(d);
    } else {
      NotBuiltControl(d);
      DataFrame(d, e);
      CoverageFrame(d, e);
    }
    QueueFrame(d, e);
    JournalFrame(d, e);
  }

  // ----- installing a flushed memtable -----

  /** The new table stands in for the logs it makes obsolete, except for what was refused there. */
  lemma FlushSets(d: Db) returns (m: Manifest)
    requires Placement(d) && Flushing(d) && d.flush.Installing?
    ensures m == AfterFlush(d)
    ensures TableEntries(m.tables, d.files) == TableEntries(d.manifest.tables, d.files) + ImmOf(d)
    ensures TableEntries(d.current + FlushTables(d, d.flush.number), d.files)
      == TableEntries(d.current, d.files) + ImmOf(d)
    ensures var after := TableEntries(m.tables, d.files) + LogsFrom(d.logs, m.log);
      after <= Durable(d) <= after + d.refused && after - Unapplied(d) == Secured(d)
    ensures LogsBetween(d.logs, m.log, d.logNumber) == {}
  {
    m := AfterFlush(d);
    var n := d.flush.number;
    TableOne(n, d.files);
    TableUnion(d.manifest.tables, FlushTables(d, n), d.files);
    TableUnion(d.current, FlushTables(d, n), d.files);
    hide TableEntries, Logged;
    forall e | e in LogsFrom(d.logs, d.manifest.log) ensures e in ImmOf(d) + d.refused + LogsFrom(d.logs, m.log) {
      var k :| k in d.logs && d.manifest.log <= k && e in Logged(d.logs[k]);
      assert k < d.logNumber ==> e in LogsBetween(d.logs, d.versionLog, d.logNumber);
    }
    forall e | e in LogsFrom(d.logs, m.log) ensures e in LogsFrom(d.logs, d.manifest.log) {
      var k :| k in d.logs && m.log <= k && e in Logged(d.logs[k]);
      assert d.manifest.log <= k;
    }
  }

  lemma FlushDoneData(d: Db)
    requires Data(d) && Edits(d) && Flushing(d) && d.flush.Installing?
    ensures Data(FlushDone(d))
  {
    hide Placement, Order, Flushing, Edits, TableEntries, Logged, LogsBetween, LogsFrom, SameReads, Disjoint, Unique,
      UpTo, Suffix, AllOf;
    var e := FlushDone(d);
    var m := FlushSets(d);
    FlushDonePlacement(d);
    FlushDoneOrder(d);
    assert View(e) == View(d) && Unapplied(e) == Unapplied(d);
    assert Intended(e) == Intended(d) && Secured(e) == Secured(d);
    hide View, Durable, Intended, Unapplied, Secured;
  }

  lemma FlushDonePlacement(d: Db)
    requires Placement(d) && Flushing(d) && d.flush.Installing?
    ensures Placement(FlushDone(d))
  {
    var e := FlushDone(d);
    var m := FlushSets(d);
    assert View(e) == View(d) && Unapplied(e) == Unapplied(d) && Rest(e) == Rest(d) && Intended(e) == Intended(d);
    hide Flushing, TableEntries, Logged, LogsBetween, LogsFrom, Intended, Unapplied, Rest;
  }

  lemma FlushDoneOrder(d: Db)
    requires Placement(d) && Order(d) && Edits(d) && Flushing(d) && d.flush.Installing?
    ensures Order(FlushDone(d))
  {
    var e := FlushDone(d);
    var m := FlushSets(d);
    assert View(e) == View(d) && Rest(e) == Rest(d);
    hide Placement, Flushing, TableEntries, Logged, LogsBetween, LogsFrom, Rest, View, Durable, Secured;
  }

  /** Also while a compaction runs beside the flush. */
  lemma FlushListed(d: Db, committed: bool)
    requires Flushing(d) && CompactionFiles(d) && Listed(d) && d.flush.Installing?
    ensures Listed(FlushDone(d)) && Listed(FlushUncertain(d, committed))
  {
    if d.comp.Compacting? {
      var add, inputs, tables, files := FlushTables(d, d.flush.number), d.comp.inputs, d.manifest.tables, d.files;
      assert TableEntries(add, files) == ImmOf(d) by { TableOne(d.flush.number, files); }
      hide TableEntries;
      assert d.current + add - inputs == (d.current - inputs) + add;
      TableUnion(d.current - inputs, add, files);
      assert tables + add - (d.current + add) == tables - d.current;
      assert tables + add - d.current == (tables - d.current) + add;
      TableUnion(tables - d.current, add, files);
    }
  }

  lemma FlushDoneControl(d: Db)
    requires Placement(d) && Order(d) && Control(d) && d.flush.Installing?
    ensures Control(FlushDone(d))
  {
    hide Placement, Order, Listed, TableEntries, C.GoodDrop, UpTo, Uncut;
    FlushListed(d, false);
  }

  /** The edit may or may not have reached the descriptor file. */
  ghost function FlushUncertain(d: Db, committed: bool): Db
    requires d.flush.Installing?
  {
    d.(manifest := if committed then AfterFlush(d) else d.manifest, flush := NoFlush, bgError := true)
  }

  lemma FlushUncertainPlacement(d: Db, committed: bool)
    requires Placement(d) && Flushing(d) && d.flush.Installing?
    ensures Placement(FlushUncertain(d, committed))
  {
    var e := FlushUncertain(d, committed);
    var m := FlushSets(d);
    assert View(e) == View(d) && Unapplied(e) == Unapplied(d) && Rest(e) == Rest(d) && Intended(e) == Intended(d);
    assert ImmOf(d) <= View(d);
    hide Flushing, TableEntries, Logged, LogsBetween, LogsFrom, View, Intended, Unapplied, Rest, Secured;
  }

  lemma FlushUncertainData(d: Db, committed: bool)
    requires Data(d) && Edits(d) && Flushing(d) && d.flush.Installing?
    ensures Data(FlushUncertain(d, committed))
  {
    hide Placement, Flushing, TableEntries, Logged, LogsBetween, LogsFrom, SameReads, Disjoint, Unique, Below, Suffix,
      AllOf;
    var e := FlushUncertain(d, committed);
    var m := FlushSets(d);
    FlushUncertainPlacement(d, committed);
    assert View(e) == View(d) && Unapplied(e) == Unapplied(d);
    assert Intended(e) == Intended(d) && Secured(e) == Secured(d);
    hide View, Durable, Intended, Unapplied, Secured;
  }

  lemma FlushUncertainControl(d: Db, committed: bool)
    requires Placement(d) && Order(d) && Control(d) && d.flush.Installing?
    ensures Control(FlushUncertain(d, committed))
  {
    hide Placement, Order, Listed, TableEntries, C.GoodDrop, UpTo, Uncut;
    FlushListed(d, committed);
  }

  // ----- deleting obsolete files -----

  lemma CollectSets(d: Db)
    requires Files(d) && !d.bgError
    ensures LogsFrom(Collect(d).logs, d.manifest.log) == LogsFrom(d.logs, d.manifest.log)
    ensures LogsBetween(Collect(d).logs, d.versionLog, d.logNumber) == LogsBetween(d.logs, d.versionLog, d.logNumber)
  {
    hide Logged;
    var logs, logs' := d.logs, Collect(d).logs;
    forall e ensures e in LogsFrom(logs', d.manifest.log) <==> e in LogsFrom(logs, d.manifest.log) {
      if n :| n in logs && d.manifest.log <= n && e in Logged(logs[n]) {
        assert n in logs' && logs'[n] == logs[n];
      }
    }
    forall e ensures e in LogsBetween(logs', d.versionLog, d.logNumber)
      <==> e in LogsBetween(logs, d.versionLog, d.logNumber)
    {
      if n :| n in logs && d.versionLog <= n < d.logNumber && e in Logged(logs[n]) {
        assert n in logs' && logs'[n] == logs[n];
      }
    }
  }

  /** Collection keeps every file that is live, pending, or being written. */
  lemma CollectKeepsFiles(d: Db, tables: set<nat>)
    requires tables <= Live(d) + d.pending
    ensures TableEntries(tables, Collect(d).files) == TableEntries(tables, d.files)
    ensures tables <= d.files.Keys ==> tables <= Collect(d).files.Keys
  {
    TableFrame(tables, d.files, Collect(d).files);
  }

  lemma CollectData(d: Db)
    requires Data(d) && Files(d)
    ensures Data(Collect(d))
  {
    if !d.bgError {
      var e := Collect(d);
      CollectSets(d);
      CollectKeepsFiles(d, d.current);
      assert View(e) == View(d) && Durable(e) == Durable(d) && Unapplied(e) == Unapplied(d) && Rest(e) == Rest(d);
      assert Intended(e) == Intended(d) && Secured(e) == Secured(d);
      hide Files, TableEntries, Logged, LogsBetween, LogsFrom, SameReads, Disjoint, Unique, View, Durable, Intended,
        Unapplied, Rest, Secured, Below, AllOf;
    }
  }

  lemma CollectControl(d: Db)
    requires Control(d) && d.flush.NoFlush?
    ensures Control(Collect(d))
  {
    if !d.bgError {
      CollectKeepsFiles(d, d.current);
      forall v | v in d.readers ensures v <= Collect(d).files.Keys {
        CollectKeepsFiles(d, v);
      }
      if d.comp.Compacting? {
        CollectKeepsFiles(d, d.comp.outs);
        CollectKeepsFiles(d, d.comp.inputs);
        CollectKeepsFiles(d, d.comp.deeper);
        CollectKeepsFiles(d, d.current - d.comp.inputs);
        assert d.manifest.tables - d.current == {};
        CollectKeepsFiles(d, {});
      }
      hide TableEntries, C.GoodDrop, C.BringsBack, UpTo, Uncut;
    }
  }

  lemma CollectJournal(d: Db)
    requires Journal(d)
    ensures Journal(Collect(d))
  {
    hide Kept, Applied, LogsAscend, LastLanded, Live, RefusedAttempt, AllOf;
  }

  lemma FlushInstalledData(d: Db, installed: bool, committed: bool)
    requires Data(d) && Control(d) && Enabled(d, FlushInstalled(installed, committed))
    ensures var e := Apply(d, FlushInstalled(installed, committed)); Data(e) && Control(e)
    ensures d.versionLog <= d.logNumber
  {
    assert Placement(d) && Order(d) && Edits(d) && Flushing(d) && d.versionLog <= d.logNumber;
    hide Data, Control, Placement, Order, Edits, Flushing;
    if installed {
      FlushDoneData(d);
      FlushDoneControl(d);
      assert Files(FlushDone(d)) by { ControlFiles(FlushDone(d)); }
      hide Collect, FlushDone, Files;
      CollectData(FlushDone(d));
      CollectControl(FlushDone(d));
    } else {
      FlushUncertainData(d, committed);
      FlushUncertainControl(d, committed);
    }
  }

  lemma ControlFiles(d: Db)
    requires Control(d)
    ensures Files(d)
  {
  }

  lemma FlushInstalledKeeps(d: Db, installed: bool, committed: bool)
    requires Inv(d) && Enabled(d, FlushInstalled(installed, committed))
    ensures Inv(Apply(d, FlushInstalled(installed, committed)))
  {
    hide Data, Control, Queue, Coverage, Journal, AfterFlush, FlushTables;
    var e := Apply(d, FlushInstalled(installed, committed));
    FlushInstalledData(d, installed, committed);
    FlushCoverage(d, installed, committed);
    QueueFrame(d, e);
    if installed {
      JournalFrame(d, FlushDone(d));
      CollectJournal(FlushDone(d));
    } else {
      JournalFrame(d, e);
    }
  }

  // ----- installing a compaction -----

  /** A list of tables splits into what the compaction reads and the rest. */
  lemma SplitTables(tables: set<nat>, inputs: set<nat>, outs: set<nat>, files: map<nat, set<Entry>>)
    requires inputs <= tables && outs !! tables
    ensures var rest := TableEntries(tables - inputs, files);
      && TableEntries(tables, files) == rest + TableEntries(inputs, files)
      && TableEntries(tables - inputs + outs, files) == rest + TableEntries(outs, files)
  {
    assert tables == (tables - inputs) + inputs;
    TableUnion(tables - inputs, inputs, files);
    TableUnion(tables - inputs, outs, files);
  }

  lemma SameReadsOnward(view: set<Entry>, after: set<Entry>, intended: set<Entry>, ss: nat, horizon: nat)
    requires SameReads(view, after, ss) && SameReads(view, intended, horizon)
    ensures SameReads(after, intended, Max(horizon, ss)) && SameReads(view, intended, Max(horizon, ss))
  {
  }

  ghost predicate Installable(d: Db) {
    d.comp.Compacting? && d.comp.seal.Some? && d.flush.NoFlush?
  }

  /** What the rest of readers' and the descriptor's tables holds while a compaction is installed. */
  lemma CompactionTables(d: Db)
    requires CompactionFiles(d) && Guard(d) && Listed(d) && d.comp.Compacting? && d.comp.seal.Some?
    ensures var c, files := d.comp, d.files;
      var es, rest := TableEntries(c.inputs, files), TableEntries(d.current - c.inputs, files);
      var listed := TableEntries(d.manifest.tables - c.inputs, files);
      && TableEntries(d.current, files) == rest + es && TableEntries(d.manifest.tables, files) == listed + es
      && TableEntries(d.current - c.inputs + c.outs, files) == rest + c.kept
      && TableEntries(d.manifest.tables - c.inputs + c.outs, files) == listed + c.kept
      && rest <= listed <= rest + ImmOf(d) && c.kept <= es
  {
    var c := d.comp;
    SplitTables(d.current, c.inputs, c.outs, d.files);
    SplitTables(d.manifest.tables, c.inputs, c.outs, d.files);
    assert d.manifest.tables - c.inputs == (d.current - c.inputs) + (d.manifest.tables - d.current);
    TableUnion(d.current - c.inputs, d.manifest.tables - d.current, d.files);
    hide TableEntries;
  }

  /** Of the logs from the version's log number on, all but what was refused or is still to come is in
      memory, and the memtable is all in the last one. */
  lemma LogsInMemory(d: Db)
    requires Placement(d)
    ensures d.mem <= LogsFrom(d.logs, d.manifest.log) - Unapplied(d)
    ensures LogsFrom(d.logs, d.manifest.log) <= LogsFrom(d.logs, d.versionLog)
    ensures LogsFrom(d.logs, d.versionLog) - Unapplied(d) <= d.mem + ImmOf(d)
  {
    hide Logged, Rest, View, Durable, Intended, TableEntries;
    forall e | e in LogsFrom(d.logs, d.versionLog) - Unapplied(d) ensures e in d.mem + ImmOf(d) {
      var n :| n in d.logs && d.versionLog <= n && e in Logged(d.logs[n]);
      assert n < d.logNumber ==> e in LogsBetween(d.logs, d.versionLog, d.logNumber);
    }
  }

  /** What the proof about installing takes of the invariant. */
  lemma CompactionApart(d: Db)
    requires Data(d)
    ensures Placement(d) && ImmOf(d) <= Durable(d) && ImmOf(d) !! Unapplied(d)
    ensures TableEntries(d.manifest.tables, d.files) !! Unapplied(d)
    ensures ImmOf(d) !! TableEntries(d.current, d.files)
  {
    IntendedApart(d);
    BelowDisjoint(TableEntries(d.current, d.files), ImmOf(d) + d.mem);
    hide Numbering, Refusals, Meaning, TableEntries, Unapplied, Intended, Durable;
    assert View(d) <= Intended(d);
  }

  /** While a compaction runs, what is on disk of what readers must see is what readers find, and stays so
      when it is installed, there or here. */
  lemma CompactionViews(d: Db)
    requires Data(d) && CompactionFiles(d) && Guard(d) && Listed(d) && Installable(d)
    ensures var es := TableEntries(d.comp.inputs, d.files);
      var after := TableEntries(AfterCompaction(d).tables, d.files) + LogsFrom(d.logs, d.versionLog);
      && View(d) == Secured(d) == Others(d) + es
      && View(CompactionDone(d)) == after - Unapplied(d) == Others(d) + d.comp.kept
      && ImmOf(d) <= after
  {
    hide Data, CompactionFiles, Guard, Listed, TableEntries, LogsFrom, Unapplied;
    CompactionTables(d);
    CompactionApart(d);
    LogsInMemory(d);
    hide Placement;
    CompactionSets(d);
  }

  /** The same as a calculation with sets. */
  lemma CompactionSets(d: Db)
    requires Installable(d)
    requires ImmOf(d) <= Durable(d) && ImmOf(d) !! Unapplied(d) && ImmOf(d) !! TableEntries(d.current, d.files)
    requires TableEntries(d.manifest.tables, d.files) !! Unapplied(d)
    requires d.mem <= LogsFrom(d.logs, d.manifest.log) - Unapplied(d)
    requires LogsFrom(d.logs, d.manifest.log) <= LogsFrom(d.logs, d.versionLog)
    requires LogsFrom(d.logs, d.versionLog) - Unapplied(d) <= d.mem + ImmOf(d)
    requires var c, files := d.comp, d.files;
      var es, rest := TableEntries(c.inputs, files), TableEntries(d.current - c.inputs, files);
      var listed := TableEntries(d.manifest.tables - c.inputs, files);
      && TableEntries(d.current, files) == rest + es && TableEntries(d.manifest.tables, files) == listed + es
      && TableEntries(d.current - c.inputs + c.outs, files) == rest + c.kept
      && TableEntries(d.manifest.tables - c.inputs + c.outs, files) == listed + c.kept
      && rest <= listed <= rest + ImmOf(d) && c.kept <= es
    ensures var es := TableEntries(d.comp.inputs, d.files);
      var after := TableEntries(AfterCompaction(d).tables, d.files) + LogsFrom(d.logs, d.versionLog);
      && View(d) == Secured(d) == Others(d) + es
      && View(CompactionDone(d)) == after - Unapplied(d) == Others(d) + d.comp.kept
      && ImmOf(d) <= after
  {
    hide TableEntries, LogsFrom, Unapplied, Spoils;
  }

  /** The same when it is not known whether the edit reached the descriptor file. */
  ghost function CompactionUncertain(d: Db, committed: bool): Db
    requires Installable(d)
  {
    d.(manifest := if committed then AfterCompaction(d) else d.manifest,
       horizon := if committed then Max(d.horizon, d.comp.ss) else d.horizon,
       spoilt := d.spoilt || (committed && Spoils(d)),
       pending := d.pending - d.comp.outs, comp := NoCompaction, bgError := true)
  }

  lemma DataMeaning(d: Db)
    requires Data(d)
    ensures Meaning(d)
  {
  }

  /** Readers from the compaction's snapshot on notice its installation exactly if it brings a value back. */
  lemma InstalledReads(d: Db)
    requires Data(d) && CompactionFiles(d) && Guard(d) && Listed(d) && Installable(d)
    ensures SameReads(View(d), View(CompactionDone(d)), d.comp.ss) <==> !Spoils(d)
  {
    var es := TableEntries(d.comp.inputs, d.files);
    CompactionViews(d);
    KnownUnique(d);
    assert View(d) <= Known(d);
    NoClashSubset(View(d), Known(d));
    hide Data, CompactionFiles, Listed, TableEntries, NoClash, C.GoodDrop, C.BringsBack, View, Secured, Others, Known,
      AfterCompaction, LogsFrom, Unapplied;
    C.GoodDropPreservesReads(Others(d), es, d.comp.kept, TableEntries(d.comp.deeper, d.files), d.comp.ss);
  }

  lemma CompactionMeaning(d: Db, committed: bool)
    requires Data(d) && CompactionFiles(d) && Guard(d) && Listed(d) && Installable(d)
    ensures Meaning(CompactionDone(d)) && Meaning(CompactionUncertain(d, committed))
  {
    var e, u := CompactionDone(d), CompactionUncertain(d, committed);
    CompactionViews(d);
    InstalledReads(d);
    DataMeaning(d);
    assert Unapplied(e) == Unapplied(u) == Unapplied(d) && Intended(e) == Intended(u) == Intended(d);
    assert Durable(e) == TableEntries(AfterCompaction(d).tables, d.files) + LogsFrom(d.logs, d.versionLog);
    assert Secured(e) == View(e) && View(u) == View(d);
    assert Secured(u) == if committed then View(e) else Secured(d);
    hide Data, CompactionFiles, Guard, Listed, TableEntries, LogsFrom, Durable, View, Intended, Secured, Unapplied,
      Spoils, Others, SameReads, AfterCompaction;
    if !d.spoilt && !Spoils(d) {
      SameReadsOnward(View(d), View(e), Intended(d), d.comp.ss, d.horizon);
    }
  }

  /** Compaction only takes entries away. */
  lemma CompactionShrinks(d: Db)
    requires CompactionFiles(d) && Guard(d) && Listed(d) && Installable(d)
    ensures TableEntries(CompactionDone(d).current, d.files) <= TableEntries(d.current, d.files)
    ensures TableEntries(AfterCompaction(d).tables, d.files) <= TableEntries(d.manifest.tables, d.files)
  {
    CompactionTables(d);
    hide TableEntries, Listed;
  }

  lemma CompactionPlacement(d: Db)
    requires Data(d) && CompactionFiles(d) && Guard(d) && Listed(d) && Installable(d)
    ensures Placement(CompactionDone(d))
  {
    var e := CompactionDone(d);
    CompactionShrinks(d);
    CompactionViews(d);
    assert Unapplied(e) == Unapplied(d) && Rest(e) == Rest(d) && Intended(e) == Intended(d);
    hide Numbering, Refusals, Order, Meaning, CompactionFiles, Guard, TableEntries, LogsFrom, LogsBetween, Logged,
      Unapplied, Rest, Intended, SameReads;
  }

  lemma CompactionOrder(d: Db)
    requires Order(d) && Edits(d) && CompactionFiles(d) && Guard(d) && Listed(d) && Installable(d)
    ensures Order(CompactionDone(d))
  {
    var e := CompactionDone(d);
    CompactionShrinks(d);
    assert Rest(e) == Rest(d) && View(e) <= View(d);
    hide CompactionFiles, Guard, TableEntries, Rest, View;
  }

  lemma CompactionDoneData(d: Db)
    requires Data(d) && Edits(d) && CompactionFiles(d) && Guard(d) && Listed(d) && Installable(d)
    ensures Data(CompactionDone(d))
  {
    hide Numbering, Refusals, Placement, Order, Meaning, CompactionFiles, Guard, Listed, Edits, CompactionDone;
    CompactionMeaning(d, false);
    CompactionPlacement(d);
    CompactionOrder(d);
    DoneNumbering(d);
  }

  lemma DoneNumbering(d: Db)
    requires Numbering(d) && Refusals(d) && Installable(d)
    ensures Numbering(CompactionDone(d)) && Refusals(CompactionDone(d))
  {
    hide Spoils, Logged, Disjoint, Unique, UpTo, AllOf, AfterCompaction;
  }

  lemma UncertainSets(d: Db, committed: bool)
    requires Installable(d)
    ensures var e := CompactionUncertain(d, committed);
      && View(e) == View(d) && Unapplied(e) == Unapplied(d) && Rest(e) == Rest(d) && Intended(e) == Intended(d)
      && ImmOf(e) == ImmOf(d)
      && Durable(e) == if committed then
                         TableEntries(AfterCompaction(d).tables, d.files) + LogsFrom(d.logs, d.versionLog)
                       else
                         Durable(d)
  {
    hide Spoils, TableEntries, LogsFrom, Logged;
  }

  lemma UncertainPlacement(d: Db, committed: bool)
    requires Data(d) && CompactionFiles(d) && Guard(d) && Listed(d) && Installable(d)
    ensures Placement(CompactionUncertain(d, committed))
  {
    hide TableEntries, LogsFrom, LogsBetween, Logged, Unapplied, Rest, Intended, View, Durable, Secured, Others, Spoils,
      ImmOf, Numbering, Refusals, Order, Meaning;
    CompactionShrinks(d);
    CompactionViews(d);
    UncertainSets(d, committed);
    hide CompactionFiles, Guard, Listed;
  }

  lemma UncertainOrder(d: Db, committed: bool)
    requires Order(d) && Edits(d) && CompactionFiles(d) && Guard(d) && Listed(d) && Installable(d)
    ensures Order(CompactionUncertain(d, committed))
  {
    var e := CompactionUncertain(d, committed);
    CompactionShrinks(d);
    assert Rest(e) == Rest(d) && View(e) == View(d);
    hide CompactionFiles, Guard, Listed, TableEntries, Rest, View, Spoils;
  }

  lemma UncertainNumbering(d: Db, committed: bool)
    requires Numbering(d) && Refusals(d) && Installable(d)
    ensures Numbering(CompactionUncertain(d, committed)) && Refusals(CompactionUncertain(d, committed))
  {
    hide Spoils, Logged, Disjoint, Unique, UpTo, AllOf, AfterCompaction;
  }

  lemma CompactionUncertainData(d: Db, committed: bool)
    requires Data(d) && Edits(d) && CompactionFiles(d) && Guard(d) && Listed(d) && Installable(d)
    ensures Data(CompactionUncertain(d, committed))
  {
    hide Numbering, Refusals, Placement, Order, Meaning, Edits, CompactionFiles, Guard, Listed, CompactionUncertain;
    UncertainNumbering(d, committed);
    UncertainPlacement(d, committed);
    UncertainOrder(d, committed);
    CompactionMeaning(d, committed);
  }

  lemma CompactionDoneControl(d: Db)
    requires Control(d) && Installable(d) && d.versionLog <= d.manifest.log
    ensures Control(CompactionDone(d))
  {
    hide TableEntries, C.GoodDrop, C.BringsBack, UpTo, Uncut;
  }

  lemma CompactionUncertainControl(d: Db, committed: bool)
    requires Control(d) && Installable(d) && d.versionLog <= d.manifest.log
    ensures Control(CompactionUncertain(d, committed))
  {
    hide TableEntries, C.GoodDrop, C.BringsBack, UpTo, Uncut;
  }

  lemma CompactionInstalledData(d: Db, installed: bool, committed: bool)
    requires Data(d) && Control(d) && Enabled(d, CompactionInstalled(installed, committed))
    ensures var e := Apply(d, CompactionInstalled(installed, committed)); Data(e) && Control(e)
    ensures d.versionLog <= d.manifest.log
  {
    hide Data, Control, Edits, CompactionFiles, Guard, AfterCompaction;
    CompactionParts(d);
    if installed {
      CompactionDoneData(d);
      CompactionDoneControl(d);
      assert Files(CompactionDone(d)) by { ControlFiles(CompactionDone(d)); }
      hide Collect, CompactionDone, Files;
      CollectData(CompactionDone(d));
      CollectControl(CompactionDone(d));
    } else {
      CompactionUncertainData(d, committed);
      CompactionUncertainControl(d, committed);
    }
  }

  lemma CompactionParts(d: Db)
    requires Data(d) && Control(d)
    ensures Edits(d) && CompactionFiles(d) && Guard(d) && Listed(d) && d.versionLog <= d.manifest.log
  {
    hide Numbering, Refusals, Order, Meaning, Edits, CompactionFiles, Guard, Files, Flushing, Listed, Snaps;
  }

  lemma CompactionInstalledKeeps(d: Db, installed: bool, committed: bool)
    requires Inv(d) && Enabled(d, CompactionInstalled(installed, committed))
    ensures Inv(Apply(d, CompactionInstalled(installed, committed)))
  {
    hide Data, Control, Queue, Coverage, Journal, AfterCompaction;
    var e := Apply(d, CompactionInstalled(installed, committed));
    CompactionInstalledData(d, installed, committed);
    CompactionCoverage(d, installed, committed);
    QueueFrame(d, e);
    if installed {
      JournalFrame(d, CompactionDone(d));
      CollectJournal(CompactionDone(d));
    } else {
      JournalFrame(d, e);
    }
  }

  // ----- no record is forgotten -----

  lemma AppendCoverage(d: Db, o: Outcome)
    requires Coverage(d) && Placement(d) && d.phase.Logging?
    ensures Coverage(Appended(d, o))
  {
    var e, r := Appended(d, o), d.phase.r;
    forall q | InLogs(d.logs, d.manifest.log, q) || q == r ensures InLogs(e.logs, d.manifest.log, q) {
      if q == r {
        assert r in e.logs[d.logNumber];
      } else {
        var n: nat :| n in d.logs && d.manifest.log <= n && q in d.logs[n];
        assert n in e.logs && q in e.logs[n];
      }
    }
    forall n, q | n in e.logs && q in e.logs[n] ensures q in e.records && (n < d.logNumber ==> q in d.logs[n]) {
      assert q in d.logs[n] || q == r;
    }
    hide InLogs, Placement;
  }

  lemma SwitchCoverage(d: Db)
    requires Coverage(d) && Numbering(d) && Placement(d) && Files(d) && Enabled(d, Switch) && d.flush.NoFlush?
    ensures Coverage(Switched(d))
  {
    var e := Switched(d);
    forall q | InLogs(d.logs, d.manifest.log, q) ensures InLogs(e.logs, d.manifest.log, q) {
      var n: nat :| n in d.logs && d.manifest.log <= n && q in d.logs[n];
      assert n in e.logs && q in e.logs[n];
    }
    forall n, q | n in e.logs && q in e.logs[n] ensures n in d.logs && q in d.logs[n] && End(q) <= d.lastSequence + 1 {
      assert q in d.records;
    }
    hide InLogs, Placement, Files, Numbering;
  }

  lemma BuiltCoverage(d: Db)
    requires Coverage(d) && d.flush.Building? && d.imm.Some?
    ensures Coverage(Built(d))
  {
    hide InLogs;
  }

  /** Collecting log files forgets no record the descriptor does not cover. */
  lemma CollectCoverage(d: Db)
    requires Coverage(d) && (!d.bgError ==> d.manifest.log == d.versionLog)
    ensures Coverage(Collect(d))
  {
    if !d.bgError {
      var e := Collect(d);
      forall q | InLogs(d.logs, d.manifest.log, q) ensures InLogs(e.logs, e.manifest.log, q) {
        var n: nat :| n in d.logs && d.manifest.log <= n && q in d.logs[n];
        assert n in e.logs && q in e.logs[n];
      }
      assert forall n :: n in e.logs ==> n in d.logs && e.logs[n] == d.logs[n];
      hide InLogs;
    }
  }

  lemma FlushEditCoverage(d: Db, e: Db)
    requires Coverage(d) && Edits(d) && d.flush.Installing?
    requires e.logs == d.logs && e.records == d.records && e.logNumber == d.logNumber
      && e.lastSequence == d.lastSequence
    requires e.manifest == AfterFlush(d) && e.flush.NoFlush?
    ensures Coverage(e)
  {
    forall q | q in d.records && InLogs(d.logs, d.manifest.log, q)
      ensures End(q) <= e.manifest.lastSeq + 1 || InLogs(e.logs, e.manifest.log, q)
    {
      var n: nat :| n in d.logs && d.manifest.log <= n && q in d.logs[n];
      if n >= d.logNumber {
        assert InLogs(e.logs, e.manifest.log, q);
      }
    }
    hide InLogs;
  }

  lemma FlushCoverage(d: Db, installed: bool, committed: bool)
    requires Coverage(d) && Control(d) && Enabled(d, FlushInstalled(installed, committed))
    ensures Coverage(Apply(d, FlushInstalled(installed, committed)))
  {
    hide Coverage, Flushing, CompactionFiles, Guard, Snaps;
    if installed {
      FlushEditCoverage(d, FlushDone(d));
      CollectCoverage(FlushDone(d));
    } else if committed {
      FlushEditCoverage(d, FlushUncertain(d, committed));
    } else {
      CoverageFrame(d, FlushUncertain(d, committed));
    }
  }

  lemma CompactionCoverage(d: Db, installed: bool, committed: bool)
    requires Coverage(d) && Control(d) && Enabled(d, CompactionInstalled(installed, committed))
    requires d.versionLog <= d.manifest.log
    ensures Coverage(Apply(d, CompactionInstalled(installed, committed)))
  {
    hide Coverage, Flushing, CompactionFiles, Guard, Snaps;
    if installed {
      CoverageFrame(d, CompactionDone(d));
      CollectCoverage(CompactionDone(d));
    } else {
      CoverageFrame(d, CompactionUncertain(d, committed));
    }
  }

  // ----- crash and recovery -----

  lemma {:induction false} PicksWithin(a: seq<Record>, b: seq<Record>)
    requires Picks(a, b)
    ensures forall r :: r in a ==> r in b
  {
    if a != [] {
      if a[0] == b[0] && Picks(a[1..], b[1..]) {
        PicksWithin(a[1..], b[1..]);
        assert forall r :: r in a ==> r == a[0] || r in a[1..];
      } else {
        PicksWithin(a, b[1..]);
      }
    }
  }

  /** What is read back was there. */
  lemma ReadableWithin(d: Db, found: map<nat, seq<Record>>)
    requires Readable(d, found)
    ensures forall n, r :: n in found && r in found[n] ==> r in d.logs[n]
    ensures LogsFrom(found, d.manifest.log) <= LogsFrom(d.logs, d.manifest.log)
    ensures Recovered(d, found) <= Durable(d)
  {
    forall n, r | n in found && r in found[n] ensures r in d.logs[n] {
      if n in d.torn {
        PicksWithin(found[n][|Sound(d, n)|..], Behind(d, n));
        assert found[n] == Sound(d, n) + found[n][|Sound(d, n)|..];
      }
    }
    hide Readable, Picks, AllOf, TableEntries;
    forall e | e in LogsFrom(found, d.manifest.log) ensures e in LogsFrom(d.logs, d.manifest.log) {
      var n :| n in found && d.manifest.log <= n && e in Logged(found[n]);
      var r :| r in found[n] && e in AllOf(r);
      assert e in Logged(d.logs[n]);
    }
  }

  /** The tables of the reopened store hold exactly what was recovered. */
  lemma ReopenedTables(d: Db, found: map<nat, seq<Record>>, rebuilt: map<nat, set<Entry>>, newLog: nat) returns (e: Db)
    requires Files(d) && Enabled(d, CrashAndReopen(found, rebuilt, newLog))
    ensures e == Reopened(d, found, rebuilt, newLog)
    ensures TableEntries(e.current, e.files) == Recovered(d, found) && e.current <= e.files.Keys
    ensures forall n :: n in e.current ==> n < newLog
    ensures View(e) == Durable(e) == Secured(e) == Intended(e) == Recovered(d, found) && Unapplied(e) == Rest(e) == {}
  {
    hide Readable;
    e := Reopened(d, found, rebuilt, newLog);
    var was, built := d.manifest.tables, rebuilt.Keys;
    assert was !! built;
    TableUnion(was, built, e.files);
    TableFrame(was, d.files, e.files);
    TableFrame(built, rebuilt, e.files);
    assert LogsFrom(e.logs, newLog) == {} && Logged([]) == {};
    hide TableEntries, LogsFrom, Logged;
  }

  /** LastSequence after recovery is past every number recovered. */
  lemma RecoveredCovers(d: Db, found: map<nat, seq<Record>>)
    requires UpTo(TableEntries(d.manifest.tables, d.files), d.manifest.lastSeq)
    ensures UpTo(Recovered(d, found), RecoveredEnd(d.manifest, found) - 1)
    ensures d.manifest.lastSeq + 1 <= RecoveredEnd(d.manifest, found)
  {
    var m := d.manifest;
    var ends := Ends(m, found);
    forall e | e in LogsFrom(found, m.log) ensures e.sn <= RecoveredEnd(m, found) - 1 {
      var n :| n in found && m.log <= n && e in Logged(found[n]);
      var r :| r in found[n] && e in AllOf(r);
      RecordNumbers(r, |r.ops|);
      assert End(r) in ends;
    }
    hide TableEntries, LogsFrom;
  }

  lemma UniqueSubset(es: set<Entry>, fs: set<Entry>)
    requires es <= fs && Unique(fs)
    ensures Unique(es)
  {
  }

  lemma ReopenData(d: Db, found: map<nat, seq<Record>>, rebuilt: map<nat, set<Entry>>, newLog: nat)
    requires Data(d) && Files(d) && Enabled(d, CrashAndReopen(found, rebuilt, newLog))
    ensures Data(Reopened(d, found, rebuilt, newLog))
  {
    hide Files, Enabled, Readable, TableEntries, LogsFrom, Recovered, Data, Durable, Known, UpTo, Unique, View,
      Intended, Secured, RecoveredEnd, Unapplied, Rest;
    EnabledReadable(d, found, rebuilt, newLog);
    TablesPublished(d);
    RecoveredUnique(d, found);
    RecoveredCovers(d, found);
    assert Logged([]) == {};
    hide Logged;
    var e := ReopenedTables(d, found, rebuilt, newLog);
    ReopenedData(e, newLog);
  }

  lemma EnabledReadable(d: Db, found: map<nat, seq<Record>>, rebuilt: map<nat, set<Entry>>, newLog: nat)
    requires Enabled(d, CrashAndReopen(found, rebuilt, newLog))
    ensures Readable(d, found)
  {
  }

  lemma RecoveredUnique(d: Db, found: map<nat, seq<Record>>)
    requires Data(d) && Readable(d, found)
    ensures Unique(Recovered(d, found))
  {
    ReadableWithin(d, found);
    DurableKnown(d);
    KnownUnique(d);
    hide Data, Readable, Recovered, Durable, Known;
    UniqueSubset(Recovered(d, found), Known(d));
  }

  /** A store that has just been opened, with everything in tables. */
  lemma ReopenedData(e: Db, newLog: nat)
    requires e.logNumber == e.versionLog == e.manifest.log == newLog && e.logs == map[newLog := []] && e.phase == Ready
    requires e.mem == {} && e.imm == None && Unapplied(e) == Rest(e) == e.refused == {} && Logged([]) == {}
      && e.records == []
    requires View(e) == Secured(e) == Intended(e) && e.manifest.tables == e.current
      && TableEntries(e.current, e.files) == e.origin
    requires View(e) == e.origin
    requires e.start == e.lastSequence == e.manifest.lastSeq && UpTo(e.origin, e.start) && Unique(e.origin)
      && e.flush.NoFlush?
    ensures Data(e)
  {
    hide TableEntries, Unique, View, Secured, Intended, Unapplied, Rest, Logged;
  }

  lemma ReopenControl(d: Db, found: map<nat, seq<Record>>, rebuilt: map<nat, set<Entry>>, newLog: nat)
    requires Control(d) && Enabled(d, CrashAndReopen(found, rebuilt, newLog))
    requires UpTo(TableEntries(d.manifest.tables, d.files), d.manifest.lastSeq)
    ensures Control(Reopened(d, found, rebuilt, newLog))
  {
    var e := ReopenedTables(d, found, rebuilt, newLog);
    RecoveredCovers(d, found);
    hide TableEntries, C.GoodDrop, C.BringsBack, UpTo, Uncut, RecoveredEnd, Durable, Secured, Intended, View, Unapplied,
      Readable, Recovered;
  }

  lemma ReopenKeeps(d: Db, found: map<nat, seq<Record>>, rebuilt: map<nat, set<Entry>>, newLog: nat)
    requires Inv(d) && Enabled(d, CrashAndReopen(found, rebuilt, newLog))
    ensures Inv(Apply(d, CrashAndReopen(found, rebuilt, newLog)))
  {
    hide Data, Control, Queue, Coverage, Journal, Enabled, Reopened, Files, TableEntries, UpTo, Recovered;
    ControlFiles(d);
    TablesPublished(d);
    ReopenData(d, found, rebuilt, newLog);
    ReopenControl(d, found, rebuilt, newLog);
    ReopenRest(d, found, rebuilt, newLog);
  }

  lemma TablesPublished(d: Db)
    requires Data(d)
    ensures UpTo(TableEntries(d.manifest.tables, d.files), d.manifest.lastSeq)
  {
  }

  lemma ReopenRest(d: Db, found: map<nat, seq<Record>>, rebuilt: map<nat, set<Entry>>, newLog: nat)
    ensures var e := Reopened(d, found, rebuilt, newLog); Coverage(e) && Queue(e) && Journal(e)
  {
    assert AttemptedOps([]) == [] && TakenOps([], []) == []
      && Kept([], [], 0, newLog + 1) == [] == Kept([], [], newLog, newLog + 1);
    hide RecoveredEnd, InLogs, Recovered, Kept;
  }
}
