/**
  What every reachable state of the store satisfies, group by group, and the proof that every
  event keeps it.
 */
module StoreInvariant {
  import opened Format
  import opened Store
  import C = Compaction

  // ----- sequence numbers -----

  ghost predicate Disjoint(rs: seq<Record>) {
    forall i, j :: 0 <= i < j < |rs| ==> rs[i].base + |rs[i].ops| <= rs[j].base
  }

  /** `r` is the group that is in the log but not yet published. */
  ghost predicate Unpublished(d: Db, r: Record) {
    (d.phase.Applying? || (d.phase.Failed? && d.phase.stored)) && d.phase.r == r
  }

  /** Sequence numbers identify entries. */
  ghost predicate Unique(es: set<Entry>) {
    (forall e :: e in es ==> Parses(e)) && forall e, f :: e in es && f in es && e.sn == f.sn ==> e == f
  }

  ghost predicate Numbering(d: Db) {
    && Disjoint(d.records)
    && (forall r :: r in d.records ==> d.start < r.base && (End(r) <= d.lastSequence + 1 || Unpublished(d, r)))
    && (!d.phase.Ready? ==> d.phase.r.base == d.lastSequence + 1)
    && (forall r :: Unpublished(d, r) ==> r in d.records)
    && (d.phase.Applying? ==> d.phase.i <= |d.phase.r.ops|)
    && Unique(d.origin) && UpTo(d.origin, d.start) && d.start <= d.lastSequence
  }

  /** A record in the log was refused as a whole or not at all. */
  ghost predicate Refusals(d: Db) {
    && d.refused <= Logged(d.records)
    && (forall r :: r in d.records ==> AllOf(r) <= d.refused || AllOf(r) !! d.refused)
    && (d.phase.Applying? ==> AllOf(d.phase.r) !! d.refused)
  }

  // ----- where everything is -----

  ghost predicate Placement(d: Db) {
    && d.logNumber in d.logs && (forall n :: n in d.logs ==> n <= d.logNumber)
    && d.versionLog <= d.manifest.log <= d.logNumber
    && d.mem == Logged(d.logs[d.logNumber]) - Unapplied(d)
    && Rest(d) <= Logged(d.logs[d.logNumber])
    && LogsBetween(d.logs, d.versionLog, d.logNumber) <= ImmOf(d) + d.refused
    && ImmOf(d) <= Durable(d)
    && View(d) <= Intended(d)
    && TableEntries(d.manifest.tables, d.files) <= Intended(d)
  }

  ghost predicate Below(es: set<Entry>, fs: set<Entry>) {
    forall e, f :: e in es && f in fs ==> e.sn < f.sn
  }

  ghost predicate UpTo(es: set<Entry>, s: nat) {
    forall e :: e in es ==> e.sn <= s
  }

  /** Tables below the immutable memtable below the memtable below what is still to come. */
  ghost predicate Order(d: Db) {
    && Below(TableEntries(d.current, d.files), ImmOf(d) + d.mem)
    && Below(ImmOf(d), d.mem)
    && Below(View(d), Rest(d))
    && UpTo(TableEntries(d.current, d.files) + ImmOf(d), d.lastSequence)
    && (!d.phase.Applying? ==> UpTo(d.mem, d.lastSequence))
    && UpTo(TableEntries(d.manifest.tables, d.files), d.manifest.lastSeq)
  }

  /** A version edit under way names a LastSequence that covers everything it installs. */
  ghost predicate Edits(d: Db) {
    && d.manifest.lastSeq <= d.lastSequence
    && (d.flush.Installing?
      ==> d.manifest.lastSeq <= d.flush.lastSeq <= d.lastSequence && UpTo(ImmOf(d), d.flush.lastSeq))
    && (d.comp.Compacting? && d.comp.seal.Some? ==>
          d.manifest.lastSeq <= d.comp.seal.value.0 <= d.lastSequence && d.comp.ss <= d.comp.seal.value.0)
  }

  /** Nothing a protected reader can ask for has been lost: not from memory, not from the disk. */
  ghost predicate SameReads(es: set<Entry>, fs: set<Entry>, from: nat) {
    forall k, s :: from <= s ==> Read(es, k, s) == Read(fs, k, s)
  }

  ghost predicate Meaning(d: Db) {
    !d.spoilt ==> SameReads(View(d), Intended(d), d.horizon) && SameReads(Secured(d), Intended(d), d.horizon)
  }

  // ----- files -----

  ghost predicate Files(d: Db) {
    && d.current + d.manifest.tables <= d.files.Keys
    && (forall v :: v in d.readers ==> v <= d.files.Keys)
    && (!d.bgError ==> d.manifest.tables == d.current && d.manifest.log == d.versionLog)
    && (forall n :: n in d.files || n in d.logs || n in d.pending ==> n < d.nextFile)
    && (forall n :: n in d.manifest.tables ==> n < d.manifest.nextFile)
    && d.manifest.log < d.manifest.nextFile <= d.nextFile
  }

  ghost predicate Flushing(d: Db) {
    match d.flush
    case NoFlush => true
    case Building(n) => d.imm.Some? && n in d.pending && n !in d.files
      && n !in d.current + d.manifest.tables + CompactionOuts(d)
                        && (d.comp.Compacting? ==> d.comp.seal.None?)
    case Installing(n, _, nextFile) =>
      && d.imm.Some? && n !in d.current + d.manifest.tables + CompactionOuts(d)
      && (d.comp.Compacting? ==> d.comp.seal.None?)
      && (d.imm != Some({}) ==> n in d.files && d.files[n] == d.imm.value)
      && n < nextFile && d.logNumber < nextFile && d.manifest.nextFile <= nextFile <= d.nextFile
  }

  ghost function CompactionOuts(d: Db): set<nat> {
    if d.comp.Compacting? then d.comp.outs else {}
  }

  ghost predicate CompactionFiles(d: Db) {
    d.comp.Compacting? ==>
      && d.comp.inputs + d.comp.deeper <= d.current * d.manifest.tables && d.comp.inputs !! d.comp.deeper
      && d.comp.outs <= d.pending * d.files.Keys && d.comp.outs !! d.current + d.manifest.tables
      && TableEntries(d.comp.outs, d.files) <= d.comp.kept
      && (d.comp.seal.Some? ==> (
            && TableEntries(d.comp.outs, d.files) == d.comp.kept
            && d.manifest.nextFile <= d.comp.seal.value.1 <= d.nextFile
            && (forall n :: n in d.comp.outs ==> n < d.comp.seal.value.1)))
  }

  /** What a running compaction relies on still holds when it installs. */
  ghost predicate Guard(d: Db) {
    d.comp.Compacting? ==>
      && C.GoodDrop(TableEntries(d.comp.inputs, d.files), d.comp.kept, TableEntries(d.comp.deeper, d.files), d.comp.ss)
      && d.comp.ss <= d.lastSequence && forall s :: s in d.snapshots ==> d.comp.ss <= s
  }

  /** While a compaction runs the descriptor lists the tables of the current version, and besides at most
      what readers find elsewhere: a flushed memtable whose installation is uncertain. */
  ghost predicate Listed(d: Db) {
    d.comp.Compacting? ==>
      && d.current <= d.manifest.tables
      && TableEntries(d.manifest.tables - d.current, d.files)
         <= TableEntries(d.current - d.comp.inputs, d.files) + ImmOf(d)
  }

  // ----- snapshots -----

  /** No group straddles sequence number `s`: a reader at `s` sees all of it or none of it. */
  ghost predicate Uncut(rs: seq<Record>, s: nat) {
    forall r :: r in rs ==> r.base > s || r.base + |r.ops| <= s + 1
  }

  ghost predicate Snaps(d: Db) {
    && (forall i, j :: 0 <= i < j < |d.snapshots| ==> d.snapshots[i] <= d.snapshots[j])
    && (forall s :: s in d.snapshots ==> d.horizon <= s <= d.lastSequence && Uncut(d.records, s))
    && d.horizon <= d.manifest.lastSeq
  }

  // ----- the writer queue -----

  function TakenOps(arrived: seq<Writer>, fates: seq<Fate>): seq<Op>
    requires |fates| <= |arrived|
  {
    if fates == [] then []
    else
      var n := |fates| - 1;
      TakenOps(arrived, fates[..n]) + if fates[n].Taken? then BatchOf(arrived[n]) else []
  }

  function AttemptedOps(attempts: seq<Record>): seq<Op> {
    if attempts == [] then [] else AttemptedOps(attempts[..|attempts| - 1]) + attempts[|attempts| - 1].ops
  }

  /** The next sequence number to hand out, once the group in flight is finished. */
  function Top(p: Phase, lastSequence: nat): nat {
    lastSequence + 1 + if p.Ready? then 0 else |p.r.ops|
  }

  /** The queue is what arrived and is not yet served; the group in flight is its front. */
  ghost predicate InOrder(writers: seq<Writer>, n: nat, arrived: seq<Writer>, fates: seq<Fate>) {
    && n <= |writers| && n <= |fates| && |fates| - n + |writers| == |arrived|
    && writers == arrived[|fates| - n..]
    && (forall i :: |fates| - n <= i < |fates| ==> fates[i].Taken?)
  }

  function NextBase(attempts: seq<Record>, i: nat, top: nat): nat {
    if i + 1 < |attempts| then attempts[i + 1].base else top
  }

  /** Each attempt starts where the one before it ended. */
  ghost predicate Consecutive(attempts: seq<Record>, top: nat) {
    forall i :: 0 <= i < |attempts| ==> attempts[i].base + |attempts[i].ops| == NextBase(attempts, i, top)
  }

  ghost predicate EachTakenOnce(arrived: seq<Writer>, fates: seq<Fate>, attempts: seq<Record>) {
    |fates| <= |arrived| && AttemptedOps(attempts) == TakenOps(arrived, fates)
  }

  /** Arrival order is service order; every batch taken is attempted once, in that order, under
      consecutive sequence numbers that are used up even when the write fails. */
  ghost predicate QueueOf(writers: seq<Writer>, p: Phase, lastSequence: nat, arrived: seq<Writer>, fates: seq<Fate>,
                          attempts: seq<Record>) {
    && InOrder(writers, InFlight(p), arrived, fates)
    && EachTakenOnce(arrived, fates, attempts)
    && Consecutive(attempts, Top(p, lastSequence))
    && (!p.Ready? ==> p.n >= 1 && attempts != [] && attempts[|attempts| - 1] == p.r)
    && (!p.Ready? ==> p.n <= |writers| && p.r.ops == GroupOps(writers[..p.n]))
  }

  // ----- what the log and the memtable received -----

  /** Of the attempts, those whose record is in a log numbered from `lo` up to but not including `hi`. */
  function Kept(attempts: seq<Record>, landings: seq<Landing>, lo: nat, hi: nat): seq<Record>
    requires |landings| <= |attempts|
  {
    if landings == [] then []
    else
      var n := |landings| - 1;
      Kept(attempts, landings[..n], lo, hi)
      + if Stored(landings[n].outcome) && lo <= landings[n].log < hi then [attempts[n]] else []
  }

  /** The first `n` entries of a record, in order. */
  function Updates(r: Record, n: nat): (es: seq<Entry>)
    requires n <= |r.ops|
    ensures |es| == n && forall i :: 0 <= i < n ==> es[i] == EntryOf(r, i)
  {
    seq(n, i requires 0 <= i < n => EntryOf(r, i))
  }

  /** How much of the last attempt is in the memtable. */
  function Done(r: Record, o: Outcome, p: Phase): (n: nat)
    ensures n <= |r.ops|
  {
    if !Applies(o) then 0 else if p.Applying? && p.i <= |r.ops| then p.i else |r.ops|
  }

  /** The entries of the attempts that were logged and synced, in order. */
  function Applied(attempts: seq<Record>, landings: seq<Landing>, p: Phase): seq<Entry>
    requires |landings| <= |attempts|
  {
    if landings == [] then []
    else
      var n := |landings| - 1;
      Applied(attempts, landings[..n], Ready) + Updates(attempts[n], Done(attempts[n], landings[n].outcome, p))
  }

  /** An attempt still in flight is the last one; once its append is over it has landed. */
  ghost predicate LastLanded(attempts: seq<Record>, landings: seq<Landing>, p: Phase) {
    && |attempts| == |landings| + (if p.Logging? then 1 else 0)
    && (!p.Ready? ==> attempts != [] && attempts[|attempts| - 1] == p.r)
    && (p.Applying? || p.Failed? ==> (Applies(landings[|landings| - 1].outcome) <==> p.Applying?))
  }

  ghost predicate LogsAscend(landings: seq<Landing>, logNumber: nat) {
    && (forall i, j :: 0 <= i < j < |landings| ==> landings[i].log <= landings[j].log)
    && (forall l :: l in landings ==> l.log <= logNumber)
  }

  /** The log an append tore is known by that append, and a refused entry by the attempt it belongs to. */
  ghost predicate Blamed(d: Db) {
    && (forall n :: n in d.torn ==> exists l :: l in d.landings && l.log == n && Tears(l.outcome))
    && (forall x :: x in d.refused ==>
          exists i :: RefusedAttempt(d.attempts, d.landings, i) && x in AllOf(d.attempts[i]))
  }

  ghost predicate RefusedAttempt(attempts: seq<Record>, landings: seq<Landing>, i: int) {
    0 <= i < |landings| && i < |attempts| && Stored(landings[i].outcome) && !Applies(landings[i].outcome)
  }

  /** Each log holds the records of the attempts that went there and got there, in order and
      once each. */
  ghost predicate LogJournal(d: Db) {
    && |d.landings| <= |d.attempts| && LogsAscend(d.landings, d.logNumber)
    && d.records == Kept(d.attempts, d.landings, 0, d.logNumber + 1)
    && (forall n :: n in d.logs ==> d.logs[n] == Kept(d.attempts, d.landings, n, n + 1))
    && (forall l :: l in d.landings && d.versionLog <= l.log ==> l.log in d.logs)
    && d.torn.Keys <= d.logs.Keys && (forall n :: n in d.torn ==> d.torn[n] <= |d.logs[n]|)
  }

  /** The memtable was given the batches of the attempts that were logged and synced, in order and
      once each. */
  ghost predicate MemJournal(d: Db) {
    && LastLanded(d.attempts, d.landings, d.phase)
    && d.inserted == Applied(d.attempts, d.landings, d.phase)
    && d.earlier <= d.switched <= |d.inserted| && d.mem == Elements(d.inserted[d.switched..])
    && (d.imm.Some? ==> d.imm.value == Elements(d.inserted[d.earlier..d.switched]))
  }

  ghost predicate Journal(d: Db) {
    LogJournal(d) && MemJournal(d) && Blamed(d)
  }

  ghost predicate Queue(d: Db) {
    QueueOf(d.writers, d.phase, d.lastSequence, d.arrived, d.fates, d.attempts)
  }

  /** The half of the invariant about entries. */
  ghost predicate Data(d: Db) {
    Numbering(d) && Refusals(d) && Placement(d) && Order(d) && Meaning(d)
  }

  /** Every record is accounted for: it is in a log that recovery will read, or the descriptor's
      LastSequence is already past it. */
  ghost predicate InLogs(logs: map<nat, seq<Record>>, lo: nat, r: Record) {
    exists n :: n in logs && lo <= n && r in logs[n]
  }

  /** The records of the logs before log `hi` end at `s` or before. */
  ghost predicate OlderLogsEnd(logs: map<nat, seq<Record>>, hi: nat, s: nat) {
    forall n, r :: n in logs && n < hi && r in logs[n] ==> End(r) <= s + 1
  }

  ghost predicate Coverage(d: Db) {
    && (forall n, r :: n in d.logs && r in d.logs[n] ==> r in d.records)
    && OlderLogsEnd(d.logs, d.logNumber, d.lastSequence)
    && (forall r :: r in d.records ==> End(r) <= d.manifest.lastSeq + 1 || InLogs(d.logs, d.manifest.log, r))
    && (d.flush.Installing? ==> OlderLogsEnd(d.logs, d.logNumber, d.flush.lastSeq))
  }

  /** The half about files, flushes, compactions and snapshots. */
  ghost predicate Control(d: Db) {
    Edits(d) && Files(d) && Flushing(d) && CompactionFiles(d) && Guard(d) && Listed(d) && Snaps(d)
  }

  ghost predicate Inv(d: Db) {
    Data(d) && Control(d) && Queue(d) && Coverage(d) && Journal(d)
  }
}
