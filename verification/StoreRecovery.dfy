/**
  What survives a crash (Recover, RecoverLogFile and DB::Open, db/db_impl.cc).

  A failed append leaves its mark on the log: the whole record, although its writers were refused,
  or bytes that make it uncertain whether later records of that log can be read. So a crash may
  bring back what was refused, and lose what was acknowledged. The theorems say exactly when it
  does neither, and two runs show that it can do both.
 */
module StoreRecovery {
  import opened Format
  import opened Store
  import opened StoreInvariant
  import opened StoreSteps
  import opened StoreTheorems

  /** The part of every log that is sure to be read back. */
  function SoundLogs(d: Db): map<nat, seq<Record>> {
    map n | n in d.logs :: Sound(d, n)
  }

  /** What every recovery finds, whatever the readers make of the bytes behind a torn append. */
  ghost function Sure(d: Db): set<Entry> {
    TableEntries(d.manifest.tables, d.files) + LogsFrom(SoundLogs(d), d.manifest.log)
  }

  /** Of that, what readers could see before the crash. */
  ghost function Clear(d: Db): set<Entry> {
    Sure(d) - Unapplied(d)
  }

  // ----- what can be found -----

  lemma SoundIsReadable(d: Db)
    ensures Readable(d, SoundLogs(d)) && Recovered(d, SoundLogs(d)) == Sure(d)
  {
    forall n | n in SoundLogs(d) ensures Genuine(d, n, SoundLogs(d)[n]) {
      assert Sound(d, n)[|Sound(d, n)|..] == [];
    }
  }

  lemma {:induction false} PickOne(r: Record, b: seq<Record>)
    requires r in b
    ensures Picks([r], b)
  {
    if b[0] == r {
      assert [r][1..] == [] && Picks([], b[1..]);
    } else {
      PickOne(r, b[1..]);
    }
  }

  /** Any one record behind a torn append may be the only one of them that is read back. */
  lemma OneMoreReadable(d: Db, n: nat, r: Record) returns (found: map<nat, seq<Record>>)
    requires n in d.logs && d.manifest.log <= n && r in Behind(d, n)
    ensures Readable(d, found) && AllOf(r) <= Recovered(d, found)
  {
    SoundIsReadable(d);
    PickOne(r, Behind(d, n));
    found := SoundLogs(d)[n := Sound(d, n) + [r]];
    hide Picks, AllOf, TableEntries;
    assert found[n][|Sound(d, n)|..] == [r];
    assert r in found[n];
    assert AllOf(r) <= Logged(found[n]);
  }

  lemma LogsFromGrow(a: map<nat, seq<Record>>, b: map<nat, seq<Record>>, lo: nat)
    requires forall n, r :: n in a && r in a[n] ==> n in b && r in b[n]
    ensures LogsFrom(a, lo) <= LogsFrom(b, lo)
  {
    hide AllOf;
    forall e | e in LogsFrom(a, lo) ensures e in LogsFrom(b, lo) {
      var n :| n in a && lo <= n && e in Logged(a[n]);
      var r :| r in a[n] && e in AllOf(r);
      assert e in Logged(b[n]);
    }
  }

  /** Recovery finds at least what is sure and at most what is there. */
  lemma RecoveredBetween(d: Db, found: map<nat, seq<Record>>)
    requires Readable(d, found)
    ensures Sure(d) <= Recovered(d, found) <= Durable(d)
  {
    ReadableWithin(d, found);
    var sound := SoundLogs(d);
    forall n, r | n in sound && r in sound[n] ensures n in found && r in found[n] {
      assert Sound(d, n) <= found[n];
    }
    hide Readable, SoundLogs, TableEntries;
    LogsFromGrow(sound, found, d.manifest.log);
  }

  lemma SoundSeen(d: Db, n: nat, r: Record)
    requires n in d.logs && d.manifest.log <= n && r in Sound(d, n)
    ensures AllOf(r) <= Sure(d)
  {
    hide AllOf, TableEntries, Sound;
    var sound := SoundLogs(d);
    assert n in sound && r in sound[n];
    assert AllOf(r) <= Logged(sound[n]);
    hide Logged;
  }

  /** When no append was torn, all records are read back, and nothing has to be taken for granted about
      what a reader makes of bytes behind one. */
  lemma NothingTornReadsAll(d: Db, found: map<nat, seq<Record>>)
    requires d.torn == map[] && ReadsSound(d, found)
    ensures Readable(d, found) && found == d.logs && Recovered(d, found) == Durable(d)
  {
    assert forall n :: n in found ==> found[n] == d.logs[n];
  }

  /** What is on disk but not sure to be found belongs to a record behind a torn append. */
  lemma UnsureIsBehind(d: Db, x: Entry) returns (n: nat, r: Record)
    requires x in Durable(d) && x !in Sure(d)
    ensures n in d.logs && d.manifest.log <= n && r in Behind(d, n) && x in AllOf(r)
  {
    hide AllOf, TableEntries;
    n :| n in d.logs && d.manifest.log <= n && x in Logged(d.logs[n]);
    r :| r in d.logs[n] && x in AllOf(r);
    var s := Sound(d, n);
    assert d.logs[n] == s + Behind(d, n);
    if r in s {
      SoundSeen(d, n, r);
      assert false;
    }
  }

  // ----- reopening -----

  /** Reopening after a crash at any moment gives a store with exactly what was recovered: the
      descriptor's tables, every record in front of a torn append, and nothing that was never
      logged, and all that was when no append was torn; records come back whole; LastSequence is past
      every number stored. */
  lemma CrashRecovery(d: Db, found: map<nat, seq<Record>>, rebuilt: map<nat, set<Entry>>, newLog: nat)
    requires Inv(d) && Enabled(d, CrashAndReopen(found, rebuilt, newLog))
    ensures var e := Reopened(d, found, rebuilt, newLog);
      && Inv(e) && View(e) == Recovered(d, found) && Sure(d) <= View(e) <= Durable(d)
      && (d.torn == map[] ==> View(e) == Durable(d))
      && (forall n, r :: n in found && d.manifest.log <= n && r in found[n] ==> AllOf(r) <= View(e))
      && UpTo(View(e), e.lastSequence) && e.horizon == d.horizon <= e.lastSequence
  {
    hide Inv, Enabled, Reopened, View, Durable, Sure, UpTo, TableEntries, AllOf;
    ReopenKeeps(d, found, rebuilt, newLog);
    ReopenedView(d, found, rebuilt, newLog);
    RecoveredBetween(d, found);
    HorizonReadable(Reopened(d, found, rebuilt, newLog));
    if d.torn == map[] {
      NothingTornReadsAll(d, found);
    }
    forall n, r | n in found && d.manifest.log <= n && r in found[n] ensures AllOf(r) <= Recovered(d, found) {
      assert AllOf(r) <= Logged(found[n]);
    }
  }

  lemma ReopenedView(d: Db, found: map<nat, seq<Record>>, rebuilt: map<nat, set<Entry>>, newLog: nat)
    requires Inv(d) && Enabled(d, CrashAndReopen(found, rebuilt, newLog))
    ensures var e := Reopened(d, found, rebuilt, newLog);
      && View(e) == Recovered(d, found) && UpTo(View(e), e.lastSequence) && e.horizon == d.horizon
      && Readable(d, found)
  {
    hide Data, Control, Queue, Coverage, Journal, Enabled, View, UpTo, RecoveredEnd, TableEntries, Readable,
      Recovered, Durable;
    EnabledReadable(d, found, rebuilt, newLog);
    ControlFiles(d);
    TablesPublished(d);
    var e := ReopenedTables(d, found, rebuilt, newLog);
    RecoveredCovers(d, found);
  }

  lemma HorizonReadable(d: Db)
    requires Inv(d)
    ensures d.horizon <= d.lastSequence
  {
    hide Data, Queue, Coverage, Journal, Files, Flushing, CompactionFiles, Guard;
  }

  /** When every record is read back, LastSequence is past every number ever handed out for a
      record in a log, so none is handed out twice. */
  lemma NumbersNotReused(d: Db, found: map<nat, seq<Record>>, r: Record)
    requires Inv(d) && r in d.records
    requires forall n :: n in d.logs && d.manifest.log <= n ==> n in found && found[n] == d.logs[n]
    ensures End(r) <= RecoveredEnd(d.manifest, found)
  {
    hide Data, Control, Queue, Journal;
    var m := d.manifest;
    var ends := Ends(m, found);
    if InLogs(d.logs, m.log, r) {
      var n: nat :| n in d.logs && m.log <= n && r in d.logs[n];
      assert n in found && r in found[n] && End(r) in ends;
    }
  }

  /** At every moment the tables and logs on disk hold nothing that was never logged. They hold exactly what
      readers see, as long as there was no background error; and after one they still read alike from the
      compactions' horizon on, unless a compaction brought a value back. */
  lemma DurableReads(d: Db)
    requires Inv(d)
    ensures Secured(d) <= Durable(d) <= Known(d)
    ensures !d.bgError ==> Secured(d) == View(d)
    ensures !d.spoilt ==> SameReads(Secured(d), View(d), d.horizon)
  {
    if !d.bgError {
      SecuredIsView(d);
    }
    hide Control, Queue, Coverage, Journal, View, Known;
    DurableKnown(d);
    DataMeaning(d);
    hide Data, Durable, Unapplied, Intended;
  }

  lemma SecuredIsView(d: Db)
    requires Inv(d) && !d.bgError
    ensures Secured(d) == View(d)
  {
    assert Data(d) && Files(d) && Placement(d);
    hide Control, Queue, Coverage, Journal, TableEntries;
    LogsInMemory(d);
    IntendedApart(d);
    hide Numbering, Refusals, Order, Meaning, Unapplied, LogsFrom, Intended;
  }

  // ----- a crash while opening -----

  /** What openings leave that were cut off before their edit reached the descriptor: tables, whole or not,
      and new logs with nothing in them. */
  ghost function HalfOpened(d: Db, tables: map<nat, set<Entry>>, newLogs: set<nat>): Db {
    d.(files := d.files + tables, logs := d.logs + map n | n in newLogs :: [])
  }

  /** All that such openings leave is numbered behind the descriptor's NextFile. */
  predicate LeftBehind(d: Db, tables: map<nat, set<Entry>>, newLogs: set<nat>) {
    && (forall n :: n in tables ==> d.manifest.nextFile < n)
    && (forall n :: n in newLogs ==> d.manifest.nextFile < n && n !in d.logs)
  }

  lemma NewLogsEmpty(d: Db, tables: map<nat, set<Entry>>, newLogs: set<nat>, found: map<nat, seq<Record>>)
    requires LeftBehind(d, tables, newLogs) && d.torn.Keys <= d.logs.Keys
    requires Readable(HalfOpened(d, tables, newLogs), found)
    ensures Readable(d, found - newLogs) && found.Keys == d.logs.Keys + newLogs
    ensures forall n :: n in newLogs ==> found[n] == []
  {
    var h := HalfOpened(d, tables, newLogs);
    forall n | n in d.logs ensures Sound(h, n) == Sound(d, n) && Behind(h, n) == Behind(d, n) {
    }
    forall n | n in newLogs ensures found[n] == [] {
      assert h.logs[n] == [] && n !in d.torn;
    }
    hide Sound, Behind, Picks;
  }

  /** Opening can be repeated: however often it was cut off before, it is an opening of what the crash left,
      and its outcome does not depend on what the others left behind. */
  lemma RecoveryIsRepeatable(d: Db, tables: map<nat, set<Entry>>, newLogs: set<nat>, found: map<nat, seq<Record>>,
                             rebuilt: map<nat, set<Entry>>, newLog: nat)
    requires Inv(d) && LeftBehind(d, tables, newLogs)
    requires Enabled(HalfOpened(d, tables, newLogs), CrashAndReopen(found, rebuilt, newLog))
    ensures Enabled(d, CrashAndReopen(found - newLogs, rebuilt, newLog))
    ensures Reopened(HalfOpened(d, tables, newLogs), found, rebuilt, newLog)
         == Reopened(d, found - newLogs, rebuilt, newLog)
  {
    hide Data, Queue, Coverage, Edits, Flushing, CompactionFiles, Guard, Listed, Snaps, MemJournal, Blamed, Kept,
      LogsAscend, Readable, Reopened, LogsFrom, TableEntries, LeftBehind, RecoveredEnd;
    NewLogsEmpty(d, tables, newLogs, found);
    EmptyLogsUnseen(found, newLogs, d.manifest);
    SameReopening(d, tables, newLogs, found, found - newLogs, rebuilt, newLog);
  }

  lemma SameReopening(d: Db, tables: map<nat, set<Entry>>, newLogs: set<nat>, found: map<nat, seq<Record>>,
                      found': map<nat, seq<Record>>, rebuilt: map<nat, set<Entry>>, newLog: nat)
    requires Files(d) && LeftBehind(d, tables, newLogs)
    requires LogsFrom(found', d.manifest.log) == LogsFrom(found, d.manifest.log)
    requires RecoveredEnd(d.manifest, found') == RecoveredEnd(d.manifest, found)
    ensures Reopened(HalfOpened(d, tables, newLogs), found, rebuilt, newLog) == Reopened(d, found', rebuilt, newLog)
  {
    hide LogsFrom, TableEntries, RecoveredEnd;
    var h := HalfOpened(d, tables, newLogs);
    var listed := d.manifest.tables;
    TableFrame(listed, d.files, h.files);
    assert Reopened(h, found, rebuilt, newLog).files == Reopened(d, found', rebuilt, newLog).files;
  }

  lemma EmptyLogsUnseen(found: map<nat, seq<Record>>, newLogs: set<nat>, m: Manifest)
    requires forall n :: n in newLogs && n in found ==> found[n] == []
    ensures LogsFrom(found - newLogs, m.log) == LogsFrom(found, m.log)
      && RecoveredEnd(m, found - newLogs) == RecoveredEnd(m, found)
  {
    var rest := found - newLogs;
    assert forall n, r :: n in found && r in found[n] <==> n in rest && r in rest[n];
    LogsFromGrow(found, rest, m.log);
    LogsFromGrow(rest, found, m.log);
    assert Ends(m, rest) == Ends(m, found);
  }

  // ----- nothing acknowledged is lost -----

  /** An acknowledged entry stands behind a torn append in a log that recovery would read, and in
      no table. */
  ghost predicate AtRisk(d: Db) {
    exists n, r, x :: n in d.logs && d.manifest.log <= n && r in Behind(d, n) && x in AllOf(r) && x in Intended(d)
                      && x !in TableEntries(d.manifest.tables, d.files)
  }

  /** Where in the records of this opening record i of log n is. */
  ghost function Place(d: Db, n: nat, i: nat): nat
    requires |d.landings| <= |d.attempts|
  {
    |Kept(d.attempts, d.landings, 0, n)| + i
  }

  lemma RecordAtPlace(d: Db, n: nat, i: nat)
    requires LogJournal(d) && n in d.logs && n <= d.logNumber && i < |d.logs[n]|
    ensures Place(d, n, i) < |d.records| && d.records[Place(d, n, i)] == d.logs[n][i]
  {
    hide Kept;
    KeptSplit(d.attempts, d.landings, 0, n, d.logNumber + 1);
    KeptSplit(d.attempts, d.landings, n, n + 1, d.logNumber + 1);
  }

  lemma PlacesAscend(d: Db, m: nat, i: nat, n: nat, j: nat)
    requires LogJournal(d) && m in d.logs && m < n <= d.logNumber && i < |d.logs[m]|
    ensures Place(d, m, i) < Place(d, n, j)
  {
    hide Kept;
    KeptSplit(d.attempts, d.landings, 0, m, n);
    KeptSplit(d.attempts, d.landings, m, m + 1, n);
  }

  /** Two records of the logs with an entry in common are one record at one place. */
  lemma RecordsApartInLogs(d: Db, m: nat, i: nat, n: nat, j: nat, x: Entry)
    requires Numbering(d) && LogJournal(d) && m in d.logs && n in d.logs && m <= n <= d.logNumber
    requires i < |d.logs[m]| && j < |d.logs[n]| && x in AllOf(d.logs[m][i]) && x in AllOf(d.logs[n][j])
    ensures m == n && i == j
  {
    hide Kept, AllOf, Unique, UpTo, Disjoint;
    RecordAtPlace(d, m, i);
    RecordAtPlace(d, n, j);
    if m < n {
      PlacesAscend(d, m, i, n, j);
      RecordsApart(d.records, Place(d, m, i), Place(d, n, j));
    } else if i < j {
      RecordsApart(d.records, Place(d, n, i), Place(d, n, j));
    } else if j < i {
      RecordsApart(d.records, Place(d, n, j), Place(d, n, i));
    }
  }

  /** An entry behind a torn append is nowhere in front of one. */
  lemma BehindIsUnsure(d: Db, n: nat, r: Record, x: Entry)
    requires Numbering(d) && LogJournal(d) && n in d.logs && n <= d.logNumber && r in Behind(d, n) && x in AllOf(r)
    requires forall m :: m in d.logs ==> m <= d.logNumber
    requires x !in TableEntries(d.manifest.tables, d.files)
    ensures x !in Sure(d)
  {
    hide Numbering, LogJournal, AllOf, TableEntries;
    if x in Sure(d) {
      var m: nat :| m in SoundLogs(d) && d.manifest.log <= m && x in Logged(SoundLogs(d)[m]);
      var q :| q in SoundLogs(d)[m] && x in AllOf(q);
      var i :| 0 <= i < |Sound(d, m)| && Sound(d, m)[i] == q;
      var j :| 0 <= j < |Behind(d, n)| && Behind(d, n)[j] == r;
      var at := |Sound(d, n)| + j;
      assert d.logs[m][i] == q && d.logs[n][at] == r;
      if m <= n {
        RecordsApartInLogs(d, m, i, n, at, x);
      } else {
        RecordsApartInLogs(d, n, at, m, i, x);
      }
      assert false;
    }
  }

  /** Recovery is sure to bring back all that is on disk of what was acknowledged if and only if
      nothing acknowledged was written behind a torn append. */
  lemma NothingLostExactly(d: Db)
    requires Inv(d)
    ensures (forall found :: Readable(d, found) ==> Secured(d) <= Recovered(d, found)) <==> !AtRisk(d)
  {
    RecoveryFacts(d);
    TablesAreSure(d);
    hide Inv, Readable, Recovered, TableEntries, AllOf, Sure;
    if AtRisk(d) {
      var n, r, x :| n in d.logs && d.manifest.log <= n && r in Behind(d, n) && x in AllOf(r) && x in Intended(d)
                     && x !in TableEntries(d.manifest.tables, d.files);
      BehindIsUnsure(d, n, r, x);
      BehindIsDurable(d, n, r, x);
      SoundIsReadable(d);
      assert x in Secured(d) && x !in Recovered(d, SoundLogs(d));
    } else {
      forall found | Readable(d, found) ensures Secured(d) <= Recovered(d, found) {
        RecoveredBetween(d, found);
        forall x | x in Secured(d) ensures x in Recovered(d, found) {
          if x !in Sure(d) {
            var n, r := UnsureIsBehind(d, x);
            assert false;
          }
        }
      }
    }
  }

  lemma TablesAreSure(d: Db)
    ensures TableEntries(d.manifest.tables, d.files) <= Sure(d)
  {
  }

  lemma BehindIsDurable(d: Db, n: nat, r: Record, x: Entry)
    requires n in d.logs && d.manifest.log <= n && r in Behind(d, n) && x in AllOf(r)
    ensures x in Durable(d)
  {
    hide AllOf, TableEntries;
    assert r in d.logs[n] && x in Logged(d.logs[n]);
  }

  /** What the proofs below use of the invariant. */
  lemma RecoveryFacts(d: Db)
    requires Inv(d)
    ensures Numbering(d) && LogJournal(d) && forall n :: n in d.logs ==> n <= d.logNumber
    ensures Secured(d) <= Intended(d) && Intended(d) !! Unapplied(d) && Durable(d) <= Known(d)
    ensures Unique(Known(d)) && NoClash(Known(d))
  {
    assert Refusals(d) && Placement(d);
    hide Control, Queue, Coverage, Order, Meaning, MemJournal, Blamed;
    DurableKnown(d);
    IntendedApart(d);
    KnownUnique(d);
    hide Refusals, Placement;
  }

  // ----- no read changes -----

  /** An entry that says what its user key said before it. */
  ghost predicate Repeats(es: set<Entry>, x: Entry) {
    Payload(x) == Read(es, x.key, x.sn)
  }

  /** Entries that repeat what was said before do not show. */
  lemma RepeatsUnseen(es: set<Entry>, more: set<Entry>, k: UserKey, s: nat)
    requires Unique(es + more) && forall x :: x in more && x.key == k && x.sn <= s ==> Repeats(es, x)
    ensures Read(es + more, k, s) == Read(es, k, s)
  {
    var all := es + more;
    assert NoClash(all) && NoClash(es);
    if x :| IsNewest(all, k, s, x) {
      ReadIs(all, k, s, x);
      if x in es {
        assert IsNewest(es, k, s, x);
        ReadIs(es, k, s, x);
      } else {
        assert Repeats(es, x);
        NothingSince(es, k, x.sn, s);
      }
    } else {
      assert NothingVisible(all, k, s) by { NothingNewest(all, k, s); }
      NothingRead(es, k, s);
    }
  }

  lemma NothingNewest(es: set<Entry>, k: UserKey, s: nat)
    requires forall e :: !IsNewest(es, k, s, e)
    ensures NothingVisible(es, k, s)
  {
    if w :| w in es && w.key == k && Visible(w, s) {
      var e := NewestExists(es, k, s, w);
      assert false;
    }
  }

  lemma NothingRead(es: set<Entry>, k: UserKey, s: nat)
    requires NothingVisible(es, k, s)
    ensures Read(es, k, s) == None
  {
  }

  /** With no version between two numbers the user key reads the same at both. */
  lemma NothingSince(es: set<Entry>, k: UserKey, s: nat, t: nat)
    requires NoClash(es) && s <= t && forall e :: e in es && e.key == k && Visible(e, t) ==> e.sn <= s
    ensures Read(es, k, s) == Read(es, k, t)
  {
    forall e ensures IsNewest(es, k, s, e) <==> IsNewest(es, k, t, e) {
    }
    if e :| IsNewest(es, k, s, e) {
      assert IsNewest(es, k, t, e);
      ReadIs(es, k, s, e);
      ReadIs(es, k, t, e);
    }
  }

  /** The entries whose fate is open: not sure to be found, or found although they were refused. */
  ghost function Doubtful(d: Db): set<Entry> {
    Durable(d) - Clear(d)
  }

  /** A crash changes no read, at any sequence number, of what is on disk. */
  ghost predicate ReadsSurvive(d: Db) {
    forall found :: Readable(d, found) ==> SameReads(Recovered(d, found), Secured(d), 0)
  }

  /** It changes none if and only if every doubtful entry repeats what is certain about its key. */
  lemma ReadsSurviveExactly(d: Db)
    requires Inv(d)
    ensures ReadsSurvive(d) <==> forall x :: x in Doubtful(d) ==> Repeats(Clear(d), x)
  {
    if forall x :: x in Doubtful(d) ==> Repeats(Clear(d), x) {
      forall found | Readable(d, found) ensures SameReads(Recovered(d, found), Secured(d), 0) {
        HarmlessDoubts(d, found);
      }
    } else {
      var x :| x in Doubtful(d) && !Repeats(Clear(d), x);
      var y := FirstHarmful(d, x);
      HarmfulShows(d, y);
    }
  }

  lemma ClearWithin(d: Db)
    requires Inv(d)
    ensures Clear(d) <= Secured(d) && Secured(d) <= Clear(d) + Doubtful(d) && Unique(Clear(d) + Doubtful(d))
    ensures forall found :: Readable(d, found) ==> Clear(d) <= Recovered(d, found) <= Clear(d) + Doubtful(d)
  {
    RecoveryFacts(d);
    hide Inv, TableEntries, Known, Readable, Recovered, Sure;
    SoundIsReadable(d);
    RecoveredBetween(d, SoundLogs(d));
    forall found | Readable(d, found) ensures Clear(d) <= Recovered(d, found) <= Clear(d) + Doubtful(d) {
      RecoveredBetween(d, found);
    }
    UniqueSubset(Clear(d) + Doubtful(d), Known(d));
  }

  lemma HarmlessDoubts(d: Db, found: map<nat, seq<Record>>)
    requires Inv(d) && Readable(d, found) && forall x :: x in Doubtful(d) ==> Repeats(Clear(d), x)
    ensures SameReads(Recovered(d, found), Secured(d), 0)
  {
    ClearWithin(d);
    hide Inv, Clear, Doubtful, Secured, Recovered, Readable, Repeats, Read;
    forall k, s ensures Read(Recovered(d, found), k, s) == Read(Secured(d), k, s) {
      HarmlessWithin(Clear(d), Doubtful(d), Recovered(d, found), k, s);
      HarmlessWithin(Clear(d), Doubtful(d), Secured(d), k, s);
    }
  }

  lemma HarmlessWithin(clear: set<Entry>, doubtful: set<Entry>, es: set<Entry>, k: UserKey, s: nat)
    requires Unique(clear + doubtful) && clear <= es <= clear + doubtful
    requires forall x :: x in doubtful && x.key == k && x.sn <= s ==> Repeats(clear, x)
    ensures Read(es, k, s) == Read(clear, k, s)
  {
    var more := es - clear;
    assert es == clear + more;
    UniqueSubset(es, clear + doubtful);
    hide Unique, Repeats, Read;
    RepeatsUnseen(clear, more, k, s);
  }

  /** Of the harmful entries of a user key one comes first. */
  lemma {:induction false} FirstHarmful(d: Db, x: Entry) returns (y: Entry)
    requires x in Doubtful(d) && !Repeats(Clear(d), x)
    ensures y in Doubtful(d) && !Repeats(Clear(d), y)
    ensures forall z :: z in Doubtful(d) && z.key == y.key && z.sn < y.sn ==> Repeats(Clear(d), z)
    decreases x.sn
  {
    if z :| z in Doubtful(d) && z.key == x.key && z.sn < x.sn && !Repeats(Clear(d), z) {
      y := FirstHarmful(d, z);
    } else {
      y := x;
    }
  }

  /** Some recovery has the doubtful entry and readers did not, or the other way round. */
  lemma DoubtIsReal(d: Db, y: Entry) returns (found: map<nat, seq<Record>>)
    requires Inv(d) && y in Doubtful(d)
    ensures Readable(d, found) && (y in Recovered(d, found) <==> y !in Secured(d))
  {
    hide Inv, Readable, Recovered, TableEntries, Sure;
    found := SoundLogs(d);
    SoundIsReadable(d);
    if y !in Secured(d) && y !in Sure(d) {
      var n, r := UnsureIsBehind(d, y);
      found := OneMoreReadable(d, n, r);
    }
  }

  /** At the number of the first harmful entry of a user key the two are told apart. */
  lemma HarmfulShows(d: Db, y: Entry)
    requires Inv(d) && y in Doubtful(d) && !Repeats(Clear(d), y)
    requires forall z :: z in Doubtful(d) && z.key == y.key && z.sn < y.sn ==> Repeats(Clear(d), z)
    ensures !ReadsSurvive(d)
  {
    hide Inv, Clear, Doubtful, Secured, Recovered, Readable, Read, Repeats, Unique;
    var found := DoubtIsReal(d, y);
    ClearWithin(d);
    var with, without := Recovered(d, found), Secured(d);
    if y in Secured(d) {
      with, without := Secured(d), Recovered(d, found);
    }
    ReadAtItself(Clear(d), Doubtful(d), with, y);
    ReadWithoutIt(Clear(d), Doubtful(d), without, y);
    assert Read(with, y.key, y.sn) != Read(without, y.key, y.sn) by { HarmfulDiffers(Clear(d), y); }
  }

  lemma HarmfulDiffers(es: set<Entry>, y: Entry)
    requires !Repeats(es, y)
    ensures Payload(y) != Read(es, y.key, y.sn)
  {
  }

  lemma ReadAtItself(clear: set<Entry>, doubtful: set<Entry>, es: set<Entry>, y: Entry)
    requires Unique(clear + doubtful) && es <= clear + doubtful && y in es
    ensures Read(es, y.key, y.sn) == Payload(y)
  {
    assert IsNewest(es, y.key, y.sn, y);
    ReadIs(es, y.key, y.sn, y);
  }

  lemma ReadWithoutIt(clear: set<Entry>, doubtful: set<Entry>, es: set<Entry>, y: Entry)
    requires Unique(clear + doubtful) && clear <= es <= clear + doubtful && y in doubtful && y !in es
    requires forall z :: z in doubtful && z.key == y.key && z.sn < y.sn ==> Repeats(clear, z)
    ensures Read(es, y.key, y.sn) == Read(clear, y.key, y.sn)
  {
    var rest := doubtful - {y};
    UniqueSubset(clear + rest, clear + doubtful);
    forall z | z in rest && z.key == y.key && z.sn <= y.sn ensures Repeats(clear, z) {
      assert z.sn != y.sn;
    }
    hide Unique, Repeats, Read;
    HarmlessWithin(clear, rest, es, y.key, y.sn);
  }

  /** Recovery is sure to give exactly what is on disk of what was acknowledged if and only if no
      entry is doubtful. */
  lemma RecoveryIsExact(d: Db)
    requires Inv(d)
    ensures (forall found :: Readable(d, found) ==> Recovered(d, found) == Secured(d)) <==> Doubtful(d) == {}
  {
    ClearWithin(d);
    hide Inv, Readable, Recovered, Secured, Clear;
    if y :| y in Doubtful(d) {
      var found := DoubtIsReal(d, y);
    }
  }

  // ----- between writes -----

  /** Between writes, when no doubtful entry says anything new, a crash changes no read at all; after a
      background error, if no compaction brought a value back, none that a compaction has not passed, and
      not the reads of new readers. */
  lemma CrashBetweenWrites(d: Db, found: map<nat, seq<Record>>, rebuilt: map<nat, set<Entry>>, newLog: nat, k: UserKey,
    s: nat)
    requires Inv(d) && Enabled(d, CrashAndReopen(found, rebuilt, newLog)) && d.phase.Ready?
    requires forall x :: x in Doubtful(d) ==> Repeats(Clear(d), x)
    ensures var e := Reopened(d, found, rebuilt, newLog);
      && (!d.bgError || (!d.spoilt && d.horizon <= s) ==> Read(View(e), k, s) == Read(View(d), k, s))
      && (!d.bgError || !d.spoilt ==> Read(View(e), k, e.lastSequence) == Read(View(d), k, d.lastSequence))
  {
    hide Inv, Enabled, View, Read, UpTo, Recovered, RecoveredEnd, Readable, Doubtful, Clear, Repeats, ReadsSurvive;
    ReadsSurviveExactly(d);
    var e := Reopened(d, found, rebuilt, newLog);
    CrashRecovery(d, found, rebuilt, newLog);
    ReopenedView(d, found, rebuilt, newLog);
    var top := Max(d.lastSequence, e.lastSequence);
    HorizonReadable(d);
    DurableReads(d);
    hide SameReads;
    if !d.bgError || (!d.spoilt && d.horizon <= s) {
      SurvivingRead(d, found, k, s);
    }
    if !d.bgError || !d.spoilt {
      SurvivingRead(d, found, k, top);
    }
    QuietView(d);
    QuietView(e);
    SameAboveAll(View(d), k, d.lastSequence, top);
    SameAboveAll(View(e), k, e.lastSequence, top);
  }

  lemma SurvivingRead(d: Db, found: map<nat, seq<Record>>, k: UserKey, s: nat)
    requires Inv(d) && Readable(d, found) && ReadsSurvive(d) && (!d.bgError || (!d.spoilt && d.horizon <= s))
    ensures Read(Recovered(d, found), k, s) == Read(View(d), k, s)
  {
    DurableReads(d);
    hide Inv, View, Read, Recovered, Secured;
  }

  /** Between writes all that is in view is published. */
  lemma QuietView(d: Db)
    requires Inv(d) && d.phase.Ready?
    ensures UpTo(View(d), d.lastSequence) && NoClash(View(d))
  {
    hide Control, Queue, Coverage, Journal, Meaning, Refusals, Numbering, Placement, TableEntries;
    LayersOrdered(d);
  }

  /** Two sequence numbers with everything below them read alike. */
  lemma SameAboveAll(es: set<Entry>, k: UserKey, s: nat, t: nat)
    requires NoClash(es) && UpTo(es, s) && s <= t
    ensures Read(es, k, s) == Read(es, k, t)
  {
    NothingSince(es, k, s, t);
  }

  // ----- when all appends went well -----

  /** Every attempt that went to a log recovery reads was written in full, block trailer and all, and synced. */
  predicate CleanAppends(d: Db) {
    forall l :: l in d.landings && d.manifest.log <= l.log ==> l.outcome == Written(true, true)
  }

  /** Then nothing is doubtful between writes, and recovery brings back exactly what was acknowledged. */
  lemma CleanAppendsAreSafe(d: Db, found: map<nat, seq<Record>>)
    requires Inv(d) && CleanAppends(d) && d.phase.Ready? && Readable(d, found)
    ensures Recovered(d, found) == Secured(d) && Doubtful(d) == {} && !AtRisk(d)
  {
    hide Inv, TableEntries, AllOf, Readable, Known, CleanAppends, Recovered, Sure, Rest, Sound, Blamed, Unique;
    RecoveryFacts(d);
    JournalFacts(d);
    assert Rest(d) == {} by { NoRest(d); }
    forall n | n in d.logs && d.manifest.log <= n ensures Behind(d, n) == [] {
      NotTorn(d, n);
    }
    hide Behind;
    forall x | x in Durable(d) ensures x in Sure(d) && x !in Unapplied(d) {
      if x !in Sure(d) {
        var n, r := UnsureIsBehind(d, x);
        assert false;
      }
      if x in d.refused {
        NotRefused(d, x);
        assert false;
      }
    }
    RecoveredBetween(d, found);
  }

  lemma NoRest(d: Db)
    requires d.phase.Ready?
    ensures Rest(d) == {}
  {
  }

  lemma NotTorn(d: Db, n: nat)
    requires Blamed(d) && CleanAppends(d) && n in d.logs && d.manifest.log <= n
    ensures Behind(d, n) == []
  {
    hide AllOf;
    assert n in d.torn ==> exists l :: l in d.landings && l.log == n && Tears(l.outcome);
    assert n !in d.torn;
  }

  lemma JournalFacts(d: Db)
    requires Inv(d)
    ensures |d.landings| <= |d.attempts| && Blamed(d) && Consecutive(d.attempts, Top(d.phase, d.lastSequence))
    ensures forall n :: n in d.logs ==> d.logs[n] == Kept(d.attempts, d.landings, n, n + 1)
  {
    hide Data, Control, Coverage, MemJournal, Blamed, Consecutive, InOrder, EachTakenOnce, GroupOps, LogsAscend, Kept;
  }

  /** With clean appends an entry that was refused is not on disk any more. */
  lemma NotRefused(d: Db, x: Entry)
    requires Inv(d) && CleanAppends(d) && x in d.refused
    ensures x !in Durable(d)
  {
    hide Inv, TableEntries, AllOf, Kept, Consecutive, Applies, Stored;
    JournalFacts(d);
    RefusedNotInTables(d);
    var i :| RefusedAttempt(d.attempts, d.landings, i) && x in AllOf(d.attempts[i]);
    if x in Durable(d) {
      var n :| n in d.logs && d.manifest.log <= n && x in Logged(d.logs[n]);
      var r :| r in d.logs[n] && x in AllOf(r);
      RefusedIsElsewhere(d, i, x, n, r);
      assert false;
    }
  }

  lemma RefusedIsElsewhere(d: Db, i: nat, x: Entry, n: nat, r: Record)
    requires |d.landings| <= |d.attempts| && Consecutive(d.attempts, Top(d.phase, d.lastSequence)) && CleanAppends(d)
    requires RefusedAttempt(d.attempts, d.landings, i) && x in AllOf(d.attempts[i]) && d.manifest.log <= n
    requires r in Kept(d.attempts, d.landings, n, n + 1)
    ensures x !in AllOf(r)
  {
    hide AllOf, Kept, Consecutive;
    var j := KeptFrom(d.attempts, d.landings, n, n + 1, r);
    assert d.landings[j] in d.landings;
    if x in AllOf(r) {
      AttemptsDiffer(d.attempts, Top(d.phase, d.lastSequence), i, j, x);
      assert false;
    }
  }

  lemma RefusedNotInTables(d: Db)
    requires Inv(d)
    ensures d.refused !! TableEntries(d.manifest.tables, d.files)
  {
    hide Control, Queue, Coverage, Journal, Order, Meaning, TableEntries;
    IntendedApart(d);
  }

  /** A kept record is that of an attempt which went to one of those logs. */
  lemma {:induction false} KeptFrom(attempts: seq<Record>, landings: seq<Landing>, lo: nat, hi: nat, r: Record)
    returns (j: nat)
    requires |landings| <= |attempts| && r in Kept(attempts, landings, lo, hi)
    ensures j < |landings| && attempts[j] == r && Stored(landings[j].outcome) && lo <= landings[j].log < hi
  {
    j := |landings| - 1;
    if !(attempts[j] == r && Stored(landings[j].outcome) && lo <= landings[j].log < hi) {
      j := KeptFrom(attempts, landings[..j], lo, hi, r);
    }
  }

  lemma AttemptsDiffer(attempts: seq<Record>, top: nat, i: nat, j: nat, x: Entry)
    requires Consecutive(attempts, top) && i < |attempts| && j < |attempts|
    requires x in AllOf(attempts[i]) && x in AllOf(attempts[j])
    ensures i == j
  {
    AttemptsApart(attempts, top);
    RecordNumbers(attempts[i], |attempts[i].ops|);
    RecordNumbers(attempts[j], |attempts[j].ops|);
  }

  // ----- what can go wrong -----

  const PUT := Op.Write(1.0, "new")
  const WRITER := Writer(1, Some([PUT]), 20, false)

  ghost function NewEntry(sn: nat): Entry {
    Entry(1.0, sn, Put, "new")
  }

  /** The writer alone in the queue begins. */
  lemma BeginAlone(d: Db) returns (e: Db)
    requires d.phase.Ready? && d.writers == [] && !d.bgError
    ensures StepOf(d, Enqueue(WRITER), d.(writers := [WRITER], arrived := d.arrived + [WRITER]))
    ensures StepOf(d.(writers := [WRITER], arrived := d.arrived + [WRITER]), Begin, e)
    ensures var r := Record(d.lastSequence + 1, [PUT]);
      e == d.(writers := [WRITER], arrived := d.arrived + [WRITER], phase := Logging(r, 1),
              attempts := d.attempts + [r], fates := d.fates + AllTaken(1))
  {
    var d1 := d.(writers := [WRITER], arrived := d.arrived + [WRITER]);
    assert [WRITER][..1] == [WRITER] && [WRITER][..0] == [];
    assert GroupOps([]) == [] && GroupOps([WRITER]) == [PUT];
    e := Begun(d1, 1);
    hide GroupOps, AllTaken;
  }

  /** The append of the only writer's record failed in the end. */
  lemma FailAlone(d: Db, left: Remains) returns (e: Db)
    requires d.phase.Logging? && d.phase.n == 1 && |d.phase.r.ops| == 1 && d.writers == [WRITER]
      && d.logNumber in d.logs
    ensures Enabled(d, Append(Broken(left))) && StepOf(Settled(d, Broken(left)), Finish, e)
    ensures e.phase == Ready && e.writers == [] && e.bgError == d.bgError && e.lastSequence == d.lastSequence + 1
    ensures e == Settled(d, Broken(left)).(phase := Ready, writers := [], lastSequence := d.lastSequence + 1)
  {
    e := Finished(Settled(d, Broken(left)));
    assert [WRITER][1..] == [];
    hide AllOf;
  }

  lemma AllOfOne(sn: nat)
    ensures AllOf(Record(sn, [PUT])) == {NewEntry(sn)} && Logged([Record(sn, [PUT])]) == {NewEntry(sn)}
      && Logged([]) == {}
  {
    var r := Record(sn, [PUT]);
    assert EntryOf(r, 0) == NewEntry(sn);
    assert AllOf(r) == {NewEntry(sn)};
    LoggedAppend([], r);
    assert [] + [r] == [r];
  }

  lemma ReadOne(es: set<Entry>, sn: nat, s: nat)
    requires es == {NewEntry(sn)} && sn <= s
    ensures Read(es, 1.0, s) == Some("new")
  {
    assert IsNewest(es, 1.0, s, NewEntry(sn));
    ReadIs(es, 1.0, s, NewEntry(sn));
  }

  lemma ReadNone(k: UserKey, s: nat)
    ensures Read({}, k, s) == None
  {
  }

  lemma ViewOf(d: Db, es: set<Entry>)
    requires d.mem == es && d.imm == None && d.current == {}
    ensures View(d) == es
  {
    TableOne(0, d.files);
  }

  /** A write is refused, because flushing the file failed behind its record, and a crash brings it
      back: a new reader sees what no reader saw before. */
  lemma RefusedWriteReturns() returns (run: seq<Db>, evs: seq<Event>)
    ensures IsRun(run, evs) && |run| == 6 && evs[2] == Append(Broken(Whole)) && evs[4].CrashAndReopen?
    ensures run[4].phase.Ready? && run[4].writers == [] && !run[4].bgError
    ensures Read(View(run[4]), 1.0, run[4].lastSequence) == None
    ensures Read(View(run[5]), 1.0, run[5].lastSequence) == Some("new")
  {
    hide GroupOps, AllTaken, AllOf, Logged, View, Read, TableEntries, LogsFrom, Picks, RecoveredEnd, Begun, GroupEnd;
    var d0, r := Created(), Record(1, [PUT]);
    AllOfOne(1);
    var d1 := d0.(writers := [WRITER], arrived := [WRITER]);
    assert d0.arrived + [WRITER] == [WRITER];
    var d2 := BeginAlone(d0);
    var d3 := Settled(d2, Broken(Whole));
    assert StepOf(d2, Append(Broken(Whole)), d3);
    var d4 := FailAlone(d2, Whole);
    assert d4.logs[3] == [r] && d4.torn == map[];
    var found, rebuilt := map[3 := [r]], map[5 := {NewEntry(1)}];
    FoundWhole(d4, r);
    var d5 := ReopenSingle(d4, found, rebuilt, 6);
    run, evs := [d0, d1, d2, d3, d4, d5],
      [Enqueue(WRITER), Begin, Append(Broken(Whole)), Finish, CrashAndReopen(found, rebuilt, 6)];
    ViewOf(d4, {});
    ReadNone(1.0, 1);
    ReadOne({NewEntry(1)}, 1, d5.lastSequence);
    RunOf5(run, evs);
  }

  lemma RunOf5(run: seq<Db>, evs: seq<Event>)
    requires |run| == 6 && |evs| == 5 && run[0] == Created()
    requires StepOf(run[0], evs[0], run[1]) && StepOf(run[1], evs[1], run[2]) && StepOf(run[2], evs[2], run[3])
    requires StepOf(run[3], evs[3], run[4]) && StepOf(run[4], evs[4], run[5])
    ensures IsRun(run, evs)
  {
    hide StepOf, Created;
  }

  lemma FoundWhole(d: Db, r: Record)
    requires d.logs == map[3 := [r]] && d.torn == map[]
    ensures Readable(d, map[3 := [r]])
  {
    var none: seq<Record> := [];
    assert Sound(d, 3) == [r] && Picks(none, Behind(d, 3)) && [r] == [r] + none;
  }

  lemma SingleRecovered(m: Manifest, found: map<nat, seq<Record>>)
    requires found == map[3 := [Record(1, [PUT])]] && m == Manifest({}, 3, 0, 4)
    ensures LogsFrom(found, 3) == {NewEntry(1)} && RecoveredEnd(m, found) >= 2
  {
    hide AllOf, Logged, Above;
    AllOfOne(1);
    assert 3 in found && found[3] == [Record(1, [PUT])] && NewEntry(1) in Logged(found[3]);
    assert Record(1, [PUT]) in found[3] && End(Record(1, [PUT])) == 2 && 2 in Ends(m, found);
  }

  /** Reopening when the only record there is was read back. */
  lemma ReopenSingle(d: Db, found: map<nat, seq<Record>>, rebuilt: map<nat, set<Entry>>, newLog: nat) returns (e: Db)
    requires found == map[3 := [Record(1, [PUT])]] && rebuilt == map[5 := {NewEntry(1)}] && newLog == 6
    requires Readable(d, found) && d.logs == found && d.manifest == Manifest({}, 3, 0, 4)
    ensures StepOf(d, CrashAndReopen(found, rebuilt, newLog), e) && View(e) == {NewEntry(1)} && e.lastSequence >= 1
  {
    hide Readable, LogsFrom, RecoveredEnd, Recovered, TableEntries;
    SingleRecovered(d.manifest, found);
    e := Reopened(d, found, rebuilt, newLog);
    assert rebuilt.Keys == {5};
    TableOne(5, rebuilt);
    TableOne(5, e.files);
    assert e.current == {5} && e.files[5] == {NewEntry(1)};
  }

  /** A new store whose first append failed half-way. */
  lemma TornStart() returns (run: seq<Db>, evs: seq<Event>)
    ensures |run| == 5 && IsRun(run, evs) && evs == [Enqueue(WRITER), Begin, Append(Broken(Torn)), Finish]
    ensures var d := run[4];
      && d.phase.Ready? && d.writers == [] && !d.bgError && d.lastSequence == 1 && d.logNumber == 3
      && d.logs == map[3 := []] && d.torn == map[3 := 0] && d.mem == {} && d.imm == None && d.current == {}
      && d.manifest == Manifest({}, 3, 0, 4)
  {
    hide GroupOps, AllTaken, AllOf, Logged, Begun, GroupEnd;
    var d0 := Created();
    var d1 := d0.(writers := [WRITER], arrived := [WRITER]);
    assert d0.arrived + [WRITER] == [WRITER];
    var d2 := BeginAlone(d0);
    var d3 := Settled(d2, Broken(Torn));
    assert StepOf(d2, Append(Broken(Torn)), d3);
    var d4 := FailAlone(d2, Torn);
    run, evs := [d0, d1, d2, d3, d4], [Enqueue(WRITER), Begin, Append(Broken(Torn)), Finish];
  }

  /** A write is acknowledged behind an append that failed half-way, and a crash loses it. */
  lemma AcknowledgedWriteLost() returns (run: seq<Db>, evs: seq<Event>)
    ensures IsRun(run, evs) && |run| == 11 && evs[2] == Append(Broken(Torn)) && evs[6] == Append(Written(true, true))
    ensures evs[9].CrashAndReopen? && run[9].phase.Ready? && run[9].writers == [] && !run[9].bgError
    ensures Read(View(run[9]), 1.0, run[9].lastSequence) == Some("new")
    ensures Read(View(run[10]), 1.0, run[10].lastSequence) == None
  {
    hide GroupOps, AllTaken, AllOf, Logged, View, Read, TableEntries, LogsFrom, Picks, RecoveredEnd, Begun, GroupEnd,
      IsRun, StepOf, Settled, Inserted, Finished, Readable, Sound, Behind;
    var start, before := TornStart();
    var d4 := start[4];
    var d5 := d4.(writers := [WRITER], arrived := d4.arrived + [WRITER]);
    var d6 := BeginAlone(d4);
    var d7, d8, d9 := SucceedAlone(d6);
    var found: map<nat, seq<Record>>, rebuilt: map<nat, set<Entry>> := map[3 := []], map[];
    FoundNothing(d9);
    var d10 := ReopenEmpty(d9, found, rebuilt, 5);
    run := start + [d5, d6, d7, d8, d9, d10];
    evs := before + [Enqueue(WRITER), Begin, Append(Written(true, true)), InsertNext, Finish,
      CrashAndReopen(found, rebuilt, 5)];
    ViewOf(d9, {NewEntry(2)});
    ReadOne({NewEntry(2)}, 2, 2);
    ReadNone(1.0, d10.lastSequence);
    assert run[..5] == start && evs[..4] == before;
    RunOf10(run, evs);
  }

  lemma RunOf10(run: seq<Db>, evs: seq<Event>)
    requires |run| == 11 && |evs| == 10 && IsRun(run[..5], evs[..4])
    requires StepOf(run[4], evs[4], run[5]) && StepOf(run[5], evs[5], run[6]) && StepOf(run[6], evs[6], run[7])
    requires StepOf(run[7], evs[7], run[8]) && StepOf(run[8], evs[8], run[9]) && StepOf(run[9], evs[9], run[10])
    ensures IsRun(run, evs)
  {
    hide StepOf, Created;
    forall i | 0 <= i < 4 ensures StepOf(run[i], evs[i], run[i + 1]) {
      assert StepOf(run[..5][i], evs[..4][i], run[..5][i + 1]);
    }
  }

  lemma FoundNothing(d: Db)
    requires d.logs.Keys == {3} && d.torn == map[3 := 0]
    ensures Readable(d, map[3 := []])
  {
    var none: seq<Record> := [];
    assert Sound(d, 3) == [] && Picks(none, Behind(d, 3)) && [] == Sound(d, 3) + none;
  }

  /** The only writer's record is logged, inserted and published. */
  lemma SucceedAlone(d: Db) returns (e: Db, f: Db, g: Db)
    requires d.phase.Logging? && d.phase.n == 1 && d.phase.r == Record(2, [PUT]) && d.writers == [WRITER]
    requires d.logNumber == 3 && 3 in d.logs && d.lastSequence == 1
    ensures StepOf(d, Append(Written(true, true)), e) && StepOf(e, InsertNext, f) && StepOf(f, Finish, g)
    ensures g.logs == d.logs[3 := d.logs[3] + [Record(2, [PUT])]] && g.torn == d.torn && g.mem == d.mem + {NewEntry(2)}
    ensures g.lastSequence == 2 && g.phase == Ready && g.writers == [] && g.bgError == d.bgError
    ensures g.imm == d.imm && g.current == d.current && g.manifest == d.manifest && g.files == d.files
  {
    hide AllOf;
    e := Settled(d, Written(true, true));
    f := Inserted(e);
    g := Finished(f);
    assert [WRITER][1..] == [] && EntryOf(Record(2, [PUT]), 0) == NewEntry(2);
  }

  /** Reopening when nothing was read back. */
  lemma ReopenEmpty(d: Db, found: map<nat, seq<Record>>, rebuilt: map<nat, set<Entry>>, newLog: nat) returns (e: Db)
    requires found == map[3 := []] && rebuilt == map[] && newLog == 5
    requires Readable(d, found) && d.logs.Keys == {3} && d.manifest == Manifest({}, 3, 0, 4)
    ensures StepOf(d, CrashAndReopen(found, rebuilt, newLog), e) && View(e) == {}
  {
    hide Readable, AllOf, Above;
    e := Reopened(d, found, rebuilt, newLog);
    assert rebuilt.Keys == {} && Logged([]) == {};
    TableOne(5, rebuilt);
    hide Logged;
    assert LogsFrom(found, 3) == {};
    TableOne(5, e.files);
    assert e.current == {};
    hide TableEntries, LogsFrom;
  }
}
