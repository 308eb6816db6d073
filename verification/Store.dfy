/**
  The store as a protocol (db/db_impl.cc): writers queue up and commit in groups to a log and
  a memtable; a background thread turns full memtables into tables and compacts tables; files
  no longer needed are deleted; the process may crash at any moment and be reopened.

  `Db` is the state, split where it survives a crash and where it does not; `Event` lists the
  atomic sections between two releases of the mutex, and `Apply` is what each does. The last
  fields of `Db` are history: they only record what happened, no guard reads them.
 */
module Store {
  import opened Format
  import C = Compaction

  datatype Op = Write(key: UserKey, value: Value) | Erase(key: UserKey)

  /** One log record: a write batch with its first sequence number. */
  datatype Record = Record(base: nat, ops: seq<Op>)

  function EntryOf(r: Record, i: nat): (e: Entry)
    requires i < |r.ops|
    ensures Parses(e) && e.sn == r.base + i
  {
    match r.ops[i]
    case Write(k, v) => Entry(k, r.base + i, Put, v)
    case Erase(k) => Entry(k, r.base + i, Deletion, "")
  }

  /** The entries MemTableInserter has added after `n` operations, and those still to come. */
  ghost function Prefix(r: Record, n: nat): set<Entry>
    requires n <= |r.ops|
  {
    set i | 0 <= i < n :: EntryOf(r, i)
  }

  ghost function Suffix(r: Record, n: nat): set<Entry>
    requires n <= |r.ops|
  {
    set i | n <= i < |r.ops| :: EntryOf(r, i)
  }

  ghost function AllOf(r: Record): set<Entry> {
    Prefix(r, |r.ops|)
  }

  ghost function Logged(rs: seq<Record>): set<Entry> {
    set r, e | r in rs && e in AllOf(r) :: e
  }

  /** What the logs numbered from `lo` up to but not including `hi` hold. */
  ghost function LogsBetween(logs: map<nat, seq<Record>>, lo: nat, hi: nat): set<Entry> {
    set n, e | n in logs && lo <= n < hi && e in Logged(logs[n]) :: e
  }

  ghost function LogsFrom(logs: map<nat, seq<Record>>, lo: nat): set<Entry> {
    set n, e | n in logs && lo <= n && e in Logged(logs[n]) :: e
  }

  ghost function TableEntries(nums: set<nat>, files: map<nat, set<Entry>>): set<Entry> {
    set n, e | n in nums && n in files && e in files[n] :: e
  }

  /** A thread in Write. A null batch (None) asks for a memtable switch. */
  datatype Writer = Writer(id: nat, batch: Option<seq<Op>>, bytes: nat, sync: bool)

  /** What the writer at the front of the queue is doing with the first `n` of the queue. */
  datatype Phase =
    | Ready
    | Logging(r: Record, n: nat)
    | Applying(r: Record, n: nat, i: nat)
    | Failed(r: Record, n: nat, stored: bool, syncError: bool)

  /** What a failed append leaves in the log: nothing, and the writer still in step with the file;
      the whole record; or anything else, after which no later record of that log is sure to be read. */
  datatype Remains = Nothing | Whole | Torn

  /** How adding a group's record to the log went. The source does not notice when filling up the
      trailer of a block fails (`padded` false): the writer is then out of step although it reports success. */
  datatype Outcome = Written(padded: bool, synced: bool) | Broken(left: Remains)

  /** The whole record is in the log. */
  predicate Stored(o: Outcome) {
    o.Written? || o.left.Whole?
  }

  /** The group goes on into the memtable, and its writers are told that they succeeded. */
  predicate Applies(o: Outcome) {
    o.Written? && o.synced
  }

  predicate Tears(o: Outcome) {
    if o.Written? then !o.padded else o.left.Torn?
  }

  /** Which log an attempt went to, and how that went. */
  datatype Landing = Landing(log: nat, outcome: Outcome)

  datatype Flush =
    | NoFlush
    | Building(number: nat)
    | Installing(number: nat, lastSeq: nat, nextFile: nat)

  datatype Compacting =
    | NoCompaction
    | Compacting(inputs: set<nat>, deeper: set<nat>, ss: nat, kept: set<Entry>, outs: set<nat>,
      seal: Option<(nat, nat)>)

  /** What the descriptor file says: live tables, LogNumber, LastSequence, NextFile. */
  datatype Manifest = Manifest(tables: set<nat>, log: nat, lastSeq: nat, nextFile: nat)

  datatype Fate = Taken | Refused

  datatype Db = Db(
    // in memory
    writers: seq<Writer>, phase: Phase, lastSequence: nat,
    mem: set<Entry>, imm: Option<set<Entry>>, logNumber: nat,
    bgError: bool, snapshots: seq<nat>,
    current: set<nat>, versionLog: nat, readers: seq<set<nat>>, pending: set<nat>, nextFile: nat,
    flush: Flush, comp: Compacting,
    // on disk; `torn` says how many records of a log precede its first torn append
    logs: map<nat, seq<Record>>, torn: map<nat, nat>, files: map<nat, set<Entry>>, manifest: Manifest,
    // history since the store was opened with the entries `origin`, numbered up to `start`
    origin: set<Entry>, start: nat, records: seq<Record>, refused: set<Entry>, horizon: nat,
    arrived: seq<Writer>, fates: seq<Fate>, attempts: seq<Record>, landings: seq<Landing>,
    inserted: seq<Entry>, earlier: nat, switched: nat, spoilt: bool)

  datatype Event =
    | Enqueue(w: Writer)
    | Refuse
    | Switch
    | Begin
    | Append(outcome: Outcome)
    | InsertNext
    | Finish
    | GetSnapshot
    | ReleaseSnapshot(i: nat)
    | OpenReader
    | CloseReader(i: nat)
    | StartFlush
    | FlushBuilt(built: bool)
    | FlushInstalled(installed: bool, committed: bool)
    | StartCompaction(inputs: set<nat>, deeper: set<nat>, kept: set<Entry>)
    | CompactionOutput(entries: set<Entry>)
    | SealCompaction
    | AbortCompaction
    | CompactionInstalled(installed: bool, committed: bool)
    | CrashAndReopen(found: map<nat, seq<Record>>, rebuilt: map<nat, set<Entry>>, newLog: nat)

  // ----- group commit -----

  const MAX_GROUP: nat := 0x10_0000
  const SMALL_GROUP: nat := 0x2_0000

  /** BuildBatchGroup's bound: a small leader is not slowed down by a big group. */
  function MaxSize(bytes: nat): nat {
    if bytes <= SMALL_GROUP then bytes + SMALL_GROUP else MAX_GROUP
  }

  /** How many writers, from the front, BuildBatchGroup takes along once it has taken `i`. */
  function GroupEnd(ws: seq<Writer>, i: nat, size: nat): (n: nat)
    requires 1 <= i <= |ws|
    ensures i <= n <= |ws|
    decreases |ws| - i
  {
    if i == |ws| || (ws[i].sync && !ws[0].sync) then
      i
    else if ws[i].batch.None? then
      GroupEnd(ws, i + 1, size)
    else if size + ws[i].bytes > MaxSize(ws[0].bytes) then
      i
    else
      GroupEnd(ws, i + 1, size + ws[i].bytes)
  }

  function BatchOf(w: Writer): seq<Op> {
    if w.batch.Some? then w.batch.value else []
  }

  function GroupOps(ws: seq<Writer>): seq<Op> {
    if ws == [] then [] else GroupOps(ws[..|ws| - 1]) + BatchOf(ws[|ws| - 1])
  }

  function AllTaken(n: nat): (fs: seq<Fate>)
    ensures |fs| == n && forall i :: 0 <= i < n ==> fs[i].Taken?
  {
    seq(n, i => Taken)
  }

  function InFlight(p: Phase): nat {
    if p.Ready? then 0 else p.n
  }

  // ----- the steps -----

  function SmallestSnapshot(d: Db): nat {
    if d.snapshots == [] then d.lastSequence else d.snapshots[0]
  }

  /** An empty memtable leaves no table behind. */
  function FlushTables(d: Db, n: nat): set<nat> {
    if d.imm == Some({}) then {} else {n}
  }

  /** `a` is what is left of `b` when some of it is left out. */
  ghost predicate Picks(a: seq<Record>, b: seq<Record>) {
    a == [] || (b != [] && ((a[0] == b[0] && Picks(a[1..], b[1..])) || Picks(a, b[1..])))
  }

  /** The records of log `n` in front of its first torn append, and those behind it. */
  function Sound(d: Db, n: nat): seq<Record>
    requires n in d.logs
  {
    if n in d.torn && d.torn[n] <= |d.logs[n]| then d.logs[n][..d.torn[n]] else d.logs[n]
  }

  function Behind(d: Db, n: nat): seq<Record>
    requires n in d.logs
  {
    d.logs[n][|Sound(d, n)|..]
  }

  /** What the log readers are sure to return after a crash: of each log first all that is in front of a
      torn append, and nothing else when there is none. */
  ghost predicate ReadsSound(d: Db, found: map<nat, seq<Record>>) {
    && found.Keys == d.logs.Keys
    && forall n :: n in found ==> Sound(d, n) <= found[n] && (n !in d.torn ==> found[n] == Sound(d, n))
  }

  /** Behind a torn append of log `n` only records come back that were appended there, in order. Bytes
      inside a stored value might look like a record of their own to a reader that is out of step. */
  ghost predicate Genuine(d: Db, n: nat, rs: seq<Record>)
    requires n in d.logs
  {
    |Sound(d, n)| <= |rs| && Picks(rs[|Sound(d, n)|..], Behind(d, n))
  }

  ghost predicate Readable(d: Db, found: map<nat, seq<Record>>) {
    ReadsSound(d, found) && forall n :: n in found && n in d.torn ==> Genuine(d, n, found[n])
  }

  ghost predicate Enabled(d: Db, ev: Event) {
    match ev
    case Enqueue(w) => true
    // a null batch, a background error, or no new log file to make room with
    case Refuse => d.phase.Ready? && d.writers != []
    case Switch => d.phase.Ready? && d.writers != [] && !d.bgError && d.imm.None?
    case Begin => d.phase.Ready? && d.writers != [] && !d.bgError && d.writers[0].batch.Some?
    case Append(o) => d.phase.Logging? && d.logNumber in d.logs
    case InsertNext => d.phase.Applying? && d.phase.i < |d.phase.r.ops|
    case Finish => d.phase.Failed? || (d.phase.Applying? && d.phase.i == |d.phase.r.ops|)
    case GetSnapshot => true
    case ReleaseSnapshot(i) => i < |d.snapshots|
    case OpenReader => true
    case CloseReader(i) => i < |d.readers|
    case StartFlush => d.imm.Some? && d.flush.NoFlush? && (d.bgError ==> d.comp.Compacting?)
                       && (d.comp.Compacting? ==> d.comp.seal.None?)
    case FlushBuilt(built) => d.flush.Building? && d.imm.Some?
    case FlushInstalled(installed, committed) => d.flush.Installing? && d.imm.Some?
    case StartCompaction(inputs, deeper, kept) =>
      && d.imm.None? && d.flush.NoFlush? && d.comp.NoCompaction? && !d.bgError
      && inputs <= d.current && deeper <= d.current && inputs !! deeper
      // the drop rule, with the tables it asks for a user key's base level
      && C.GoodDrop(TableEntries(inputs, d.files), kept, TableEntries(deeper, d.files), SmallestSnapshot(d))
    case CompactionOutput(entries) => d.comp.Compacting? && d.comp.seal.None? && d.flush.NoFlush?
      && entries <= d.comp.kept
    case SealCompaction => d.comp.Compacting? && d.comp.seal.None? && d.flush.NoFlush?
                           && TableEntries(d.comp.outs, d.files) == d.comp.kept
    case AbortCompaction => d.comp.Compacting? && d.comp.seal.None? && d.flush.NoFlush?
    case CompactionInstalled(installed, committed) => d.comp.Compacting? && d.comp.seal.Some? && d.flush.NoFlush?
    case CrashAndReopen(found, rebuilt, newLog) =>
      && Readable(d, found)
      // VersionSet::Recover starts numbering behind the descriptor's NextFile; every log read is
      // then marked used, so the new log comes last
      && d.manifest.nextFile < newLog && (forall n :: n in rebuilt ==> d.manifest.nextFile < n < newLog)
      && (forall n :: n in d.logs && d.manifest.log <= n ==> n < newLog)
      && TableEntries(rebuilt.Keys, rebuilt) == LogsFrom(found, d.manifest.log)
  }

  ghost function Above(n: nat, s: set<nat>): (m: nat)
    ensures n <= m && forall x :: x in s ==> x <= m
    ensures m == n || m in s
    decreases |s|
  {
    if x :| x in s then
      var m := Above(n, s - {x});
      assert forall y :: y in s ==> y == x || y in s - {x};
      if x > m then x else m
    else n
  }

  function Held(readers: seq<set<nat>>): set<nat> {
    set v, n | v in readers && n in v :: n
  }

  /** AddLiveFiles: the tables of the current version and of every version a reader holds. */
  function Live(d: Db): set<nat> {
    d.current + Held(d.readers)
  }

  /** DeleteObsoleteFiles: nothing is deleted once a background error leaves it open which
      version was committed. */
  ghost function Collect(d: Db): Db {
    if d.bgError then d
    else d.(files := map n | n in d.files && (n in Live(d) || n in d.pending) :: d.files[n],
            logs := map n | n in d.logs && d.versionLog <= n :: d.logs[n],
            torn := map n | n in d.torn && d.versionLog <= n :: d.torn[n])
  }

  function Max(a: nat, b: nat): nat {
    if a < b then b else a
  }

  ghost function AfterFlush(d: Db): Manifest
    requires d.flush.Installing?
  {
    Manifest(d.manifest.tables + FlushTables(d, d.flush.number), d.logNumber, d.flush.lastSeq, d.flush.nextFile)
  }

  ghost function AfterCompaction(d: Db): Manifest
    requires d.comp.Compacting? && d.comp.seal.Some?
  {
    Manifest(d.manifest.tables - d.comp.inputs + d.comp.outs, d.versionLog, d.comp.seal.value.0, d.comp.seal.value.1)
  }

  /** MakeRoomForWrite's switch to a new log and memtable. */
  ghost function Switched(d: Db): Db {
    d.(logs := d.logs[d.nextFile := []], logNumber := d.nextFile, nextFile := d.nextFile + 1,
       imm := Some(d.mem), mem := {}, earlier := d.switched, switched := |d.inserted|)
  }

  /** Write once there is room: the first `n` batches become one record. */
  ghost function Begun(d: Db, n: nat): Db
    requires n <= |d.writers|
  {
    var r := Record(d.lastSequence + 1, GroupOps(d.writers[..n]));
    d.(phase := Logging(r, n), attempts := d.attempts + [r], fates := d.fates + AllTaken(n))
  }

  /** The record is in the log; unless it was also synced it is never inserted. */
  ghost function Appended(d: Db, o: Outcome): Db
    requires d.phase.Logging? && d.logNumber in d.logs
  {
    var r, n := d.phase.r, d.phase.n;
    d.(logs := d.logs[d.logNumber := d.logs[d.logNumber] + [r]], records := d.records + [r],
       phase := if Applies(o) then Applying(r, n, 0) else Failed(r, n, true, o.Written?),
       refused := if Applies(o) then d.refused else d.refused + AllOf(r))
  }

  /** log_->AddRecord and the sync behind it. */
  ghost function Settled(d: Db, o: Outcome): Db
    requires d.phase.Logging? && d.logNumber in d.logs
  {
    var e := if Stored(o) then Appended(d, o) else d.(phase := Failed(d.phase.r, d.phase.n, false, false));
    e.(torn := if Tears(o) && d.logNumber !in d.torn then d.torn[d.logNumber := |d.logs[d.logNumber]|] else d.torn,
       landings := d.landings + [Landing(d.logNumber, o)])
  }

  ghost function Inserted(d: Db): Db
    requires d.phase.Applying? && d.phase.i < |d.phase.r.ops|
  {
    var x := EntryOf(d.phase.r, d.phase.i);
    d.(mem := d.mem + {x}, phase := d.phase.(i := d.phase.i + 1), inserted := d.inserted + [x])
  }

  /** The tail of Write: the sequence numbers are spent whether or not the write succeeded. */
  ghost function Finished(d: Db): Db
    requires !d.phase.Ready?
  {
    d.(bgError := d.bgError || (d.phase.Failed? && d.phase.syncError),
       lastSequence := d.lastSequence + |d.phase.r.ops|,
       writers := if d.phase.n <= |d.writers| then d.writers[d.phase.n..] else [],
       phase := Ready)
  }

  /** WriteLevel0Table has its file; the edit that will install it is fixed now. */
  ghost function Built(d: Db): Db
    requires d.flush.Building? && d.imm.Some?
  {
    var n := d.flush.number;
    d.(files := if d.imm == Some({}) then d.files else d.files[n := d.imm.value],
       pending := d.pending - {n}, flush := Installing(n, d.lastSequence, d.nextFile))
  }

  /** CompactMemTable after a successful LogAndApply. */
  ghost function FlushDone(d: Db): Db
    requires d.flush.Installing?
  {
    d.(manifest := AfterFlush(d), current := d.current + FlushTables(d, d.flush.number),
       versionLog := d.logNumber, imm := None, flush := NoFlush)
  }

  ghost function OutputWritten(d: Db, entries: set<Entry>): Db
    requires d.comp.Compacting?
  {
    d.(files := d.files[d.nextFile := entries], pending := d.pending + {d.nextFile},
       comp := d.comp.(outs := d.comp.outs + {d.nextFile}), nextFile := d.nextFile + 1)
  }

  ghost function ImmOf(d: Db): set<Entry> {
    if d.imm.Some? then d.imm.value else {}
  }

  /** What readers search besides the inputs of the running compaction. */
  ghost function Others(d: Db): set<Entry>
    requires d.comp.Compacting?
  {
    d.mem + ImmOf(d) + TableEntries(d.current - d.comp.inputs, d.files)
  }

  /** The running compaction drops a deletion that hides a value in no input. The choice of inputs does
      not exclude it: a user key's versions may be spread over two tables of a level. */
  ghost predicate Spoils(d: Db) {
    d.comp.Compacting? && C.BringsBack(Others(d), TableEntries(d.comp.inputs, d.files), d.comp.kept, d.comp.ss)
  }

  /** InstallCompactionResults and CleanupCompaction. */
  ghost function CompactionDone(d: Db): Db
    requires d.comp.Compacting? && d.comp.seal.Some?
  {
    d.(manifest := AfterCompaction(d), current := d.current - d.comp.inputs + d.comp.outs,
       pending := d.pending - d.comp.outs, comp := NoCompaction, horizon := Max(d.horizon, d.comp.ss),
       spoilt := d.spoilt || Spoils(d))
  }

  ghost function Apply(d: Db, ev: Event): Db
    requires Enabled(d, ev)
  {
    match ev
    case Enqueue(w) =>
      d.(writers := d.writers + [w], arrived := d.arrived + [w])
    case Refuse =>
      d.(writers := d.writers[1..], fates := d.fates + [Refused])
    case Switch =>
      Switched(d)
    case Begin =>
      Begun(d, GroupEnd(d.writers, 1, d.writers[0].bytes))
    case Append(o) =>
      Settled(d, o)
    case InsertNext =>
      Inserted(d)
    case Finish =>
      Finished(d)
    case GetSnapshot =>
      d.(snapshots := d.snapshots + [d.lastSequence])
    case ReleaseSnapshot(i) =>
      d.(snapshots := d.snapshots[..i] + d.snapshots[i + 1..])
    case OpenReader =>
      d.(readers := d.readers + [d.current])
    case CloseReader(i) =>
      d.(readers := d.readers[..i] + d.readers[i + 1..])
    case StartFlush =>
      d.(flush := Building(d.nextFile), pending := d.pending + {d.nextFile}, nextFile := d.nextFile + 1)
    case FlushBuilt(built) =>
      if built then Built(d)
      else d.(pending := d.pending - {d.flush.number}, flush := NoFlush, bgError := true)
    case FlushInstalled(installed, committed) =>
      if installed then Collect(FlushDone(d))
      else
        d.(manifest := if committed then AfterFlush(d) else d.manifest, flush := NoFlush, bgError := true)
    case StartCompaction(inputs, deeper, kept) =>
      d.(comp := Compacting(inputs, deeper, SmallestSnapshot(d), kept, {}, None))
    case CompactionOutput(entries) =>
      OutputWritten(d, entries)
    case SealCompaction =>
      d.(comp := d.comp.(seal := Some((d.lastSequence, d.nextFile))))
    case AbortCompaction =>
      d.(comp := NoCompaction, pending := d.pending - d.comp.outs, bgError := true)
    case CompactionInstalled(installed, committed) =>
      if installed then Collect(CompactionDone(d))
      else
        d.(manifest := if committed then AfterCompaction(d) else d.manifest,
           horizon := if committed then Max(d.horizon, d.comp.ss) else d.horizon,
           spoilt := d.spoilt || (committed && Spoils(d)),
           pending := d.pending - d.comp.outs, comp := NoCompaction, bgError := true)
    case CrashAndReopen(found, rebuilt, newLog) =>
      Reopened(d, found, rebuilt, newLog)
  }

  /** The number after the last operation of a record. */
  function End(r: Record): nat {
    r.base + |r.ops|
  }

  /** Where the records end that recovery reads. */
  ghost function Ends(m: Manifest, found: map<nat, seq<Record>>): set<nat> {
    set n, r | n in found && m.log <= n && r in found[n] :: End(r)
  }

  /** One more than LastSequence after Recover: the descriptor's, or the largest number met in
      the logs if that is larger. */
  ghost function RecoveredEnd(m: Manifest, found: map<nat, seq<Record>>): (end: nat)
    ensures end >= 1
  {
    Above(m.lastSeq + 1, Ends(m, found))
  }

  /** What Recover has to work with: the descriptor's tables and the records read back. */
  ghost function Recovered(d: Db, found: map<nat, seq<Record>>): set<Entry> {
    TableEntries(d.manifest.tables, d.files) + LogsFrom(found, d.manifest.log)
  }

  /** DB::Open on what a crash leaves: the logs not yet covered by tables are replayed into new
      tables and a new descriptor and log are started. */
  ghost function Reopened(d: Db, found: map<nat, seq<Record>>, rebuilt: map<nat, set<Entry>>, newLog: nat): Db {
    var last := RecoveredEnd(d.manifest, found) - 1;
    var tables := d.manifest.tables + rebuilt.Keys;
    Db([], Ready, last, {}, None, newLog, false, [], tables, newLog, [], {}, newLog + 1, NoFlush, NoCompaction,
       map[newLog := []], map[],
       map n | n in (d.files + rebuilt) && n in tables :: (d.files + rebuilt)[n],
       Manifest(tables, newLog, last, newLog + 1),
       Recovered(d, found), last, [], {}, d.horizon, [], [], [], [], [], 0, 0, false)
  }

  // ----- what the state means -----

  /** What readers search: both memtables and the current version. */
  ghost function View(d: Db): set<Entry> {
    d.mem + ImmOf(d) + TableEntries(d.current, d.files)
  }

  /** What a crash at this moment leaves for Recover, if every record is read back. */
  ghost function Durable(d: Db): set<Entry> {
    TableEntries(d.manifest.tables, d.files) + LogsFrom(d.logs, d.manifest.log)
  }

  /** The rest of the group being inserted. */
  ghost function Rest(d: Db): set<Entry> {
    if d.phase.Applying? && d.phase.i <= |d.phase.r.ops| then Suffix(d.phase.r, d.phase.i) else {}
  }

  /** Logged but not in memory: the rest of the group being inserted, and groups that were refused
      although their record is in the log. */
  ghost function Unapplied(d: Db): set<Entry> {
    Rest(d) + d.refused
  }

  /** Everything the store was opened with or ever logged since. */
  ghost function Known(d: Db): set<Entry> {
    d.origin + Logged(d.records)
  }

  /** Everything there was to see since the store was opened, nothing compacted away: the map
      readers must see. */
  ghost function Intended(d: Db): set<Entry> {
    d.origin + (Logged(d.records) - Unapplied(d))
  }

  /** Of that, what a crash leaves. */
  ghost function Secured(d: Db): set<Entry> {
    Durable(d) - Unapplied(d)
  }
}
