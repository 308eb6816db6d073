/**
  From the bytes of a log file to the records of the store (DBImpl::RecoverLogFile, db/db_impl.cc:371-455):
  what the log reader returns and the write batches hold is what `Store` lets recovery find in front of a
  torn append.
 */
module LogReplay {
  import opened Coding
  import opened LogFormat
  import opened LogReader
  import opened WriteBatches
  import opened LogRoundTrip
  import F = Format
  import S = Store

  /** How user keys and values are spelled. */
  datatype Spelling = Spelling(key: F.UserKey -> Bytes, value: F.Value -> Bytes)

  function UpdateOf(op: S.Op, sp: Spelling): Update {
    match op
    case Write(k, v) => Put(sp.key(k), sp.value(v))
    case Erase(k) => Delete(sp.key(k))
  }

  function UpdatesOf(r: S.Record, sp: Spelling): seq<Update> {
    seq(|r.ops|, i requires 0 <= i < |r.ops| => UpdateOf(r.ops[i], sp))
  }

  /** The limits of the format: 64 and 32 bits in the header, 32 bits for the length of a string. */
  ghost predicate Writable(r: S.Record, sp: Spelling) {
    && r.base < 0x1_0000_0000_0000_0000 && |r.ops| < 0x1_0000_0000
    && forall u :: u in UpdatesOf(r, sp) ==> Fits(u)
  }

  ghost predicate AllWritable(rs: seq<S.Record>, sp: Spelling) {
    forall i :: 0 <= i < |rs| ==> Writable(rs[i], sp)
  }

  /** The write batch of a record, as it goes into the log. */
  function BatchOf(r: S.Record, sp: Spelling): (b: Bytes)
    requires r.base < 0x1_0000_0000_0000_0000
    ensures |b| >= WriteBatches.HEADER
  {
    Header(r.base, |r.ops| % 0x1_0000_0000) + AllBytes(UpdatesOf(r, sp))
  }

  function BatchesOf(rs: seq<S.Record>, sp: Spelling): seq<Bytes>
    requires forall i :: 0 <= i < |rs| ==> rs[i].base < 0x1_0000_0000_0000_0000
  {
    seq(|rs|, i requires 0 <= i < |rs| => BatchOf(rs[i], sp))
  }

  /** What the memtable is given of a record: its entries, spelled out. */
  function InsertedOf(r: S.Record, sp: Spelling): (added: seq<Added>)
    ensures |added| == |r.ops|
    ensures forall i :: 0 <= i < |r.ops| ==>
      var e := S.EntryOf(r, i);
      && added[i].sn == e.sn && !e.kind.Unknown?
      && added[i].update == if e.kind.Put? then Put(sp.key(e.key), sp.value(e.value)) else Delete(sp.key(e.key))
  {
    Numbered(r.base, UpdatesOf(r, sp))
  }

  /** One record of the log: its batch is handed to the memtable. */
  method ReplayRecord(record: Bytes, ghost known: bool, ghost r: S.Record, ghost sp: Spelling)
    returns (ok: bool, added: seq<Added>)
    requires |record| >= WriteBatches.HEADER
    requires known ==> Writable(r, sp) && record == BatchOf(r, sp)
    ensures known ==> ok && added == InsertedOf(r, sp)
  {
    hide Fits, Header, AllBytes, Numbered, UpdateOf;
    var batch := new WriteBatch();
    batch.SetContents(record);
    ghost var base: Long := if known then r.base else 0;
    ghost var us := if known then UpdatesOf(r, sp) else [];
    ok, added := batch.InsertInto(base, us);
  }

  /** What has been replayed begins with the first records of the log. */
  ghost predicate Replays(got: seq<seq<Added>>, rs: seq<S.Record>, n: nat, sp: Spelling) {
    n <= |rs| && n <= |got| && forall i :: 0 <= i < n ==> got[i] == InsertedOf(rs[i], sp)
  }

  /** A log that lies in the file whole is due whole. */
  lemma DueWhole(file: Bytes, recs: seq<Bytes>)
    requires Image(0, recs) <= file
    ensures Agrees(file, 0, Image(0, recs)) && |Due(file, 0, recs, 0)| == |recs|
    ensures forall j :: 0 <= j < |recs| ==> Due(file, 0, recs, 0)[j].1 == recs[j]
  {
    hide Image, Due, Behind, Start;
    var n := DueIsPrefix(file, 0, recs);
    assert recs[..|recs|] == recs;
    if n < |recs| {
      BehindIsImage(0, recs, n + 1);
      ImageGrows(recs, n + 1, |recs|);
    }
  }

  lemma WholeEnds(recs: seq<Bytes>)
    ensures Ends(Image(0, recs), |Image(0, recs)|)
  {
    hide Image;
    WholeIsCut(recs);
    EndOfCut(Image(0, recs), recs);
  }

  /** The records the reader returns are those of the log, and then whatever else it makes of the file. */
  method ReadBatches(file: Bytes, ghost known: bool, ghost recs: seq<Bytes>)
    returns (read: seq<(nat, Bytes)>, reports: seq<nat>)
    requires known ==> Image(0, recs) <= file
    ensures known ==> |recs| <= |read| && forall j :: 0 <= j < |recs| ==> read[j].1 == recs[j]
    ensures known && file == Image(0, recs) ==> |read| == |recs| && reports == []
  {
    hide Image, Agrees, Due, Ends, Late;
    read, reports := Reader.ReadAll(file, true, 0, recs);
    if known {
      DueWhole(file, recs);
      if file == Image(0, recs) {
        WholeEnds(recs);
      }
    }
  }

  /** The loop of RecoverLogFile: batch by batch into the memtable. A record too short for a batch is left
      out; with `paranoid` checks a batch that does not parse ends the loop. */
  method ReplayBatches(read: seq<(nat, Bytes)>, paranoid: bool, ghost known: bool, ghost rs: seq<S.Record>,
                       ghost sp: Spelling)
    returns (got: seq<seq<Added>>)
    requires known ==> AllWritable(rs, sp) && |rs| <= |read|
    requires known ==> forall j :: 0 <= j < |rs| ==> read[j].1 == BatchesOf(rs, sp)[j]
    ensures known ==> Replays(got, rs, |rs|, sp) && |got| <= |read|
  {
    hide Writable, BatchOf, InsertedOf;
    got := [];
    var i := 0;
    while i < |read|
      invariant i <= |read|
      invariant known ==> if i <= |rs| then |got| == i else |rs| <= |got| <= i
      invariant known ==> Replays(got, rs, if i < |rs| then i else |rs|, sp)
    {
      var record := read[i].1;
      if |record| >= WriteBatches.HEADER {
        ghost var mine := known && i < |rs|;
        ghost var r := if mine then rs[i] else S.Record(0, []);
        var ok, added := ReplayRecord(record, mine, r, sp);
        got := got + [added];
        if !ok && paranoid {
          return;
        }
      }
      i := i + 1;
    }
  }

  /** A log file that begins with the log of `rs`, whatever stands behind it: first come the entries of these
      records, record by record; and if the file holds nothing else, nothing else comes and nothing is
      reported. */
  method ReplayLog(file: Bytes, paranoid: bool, ghost rs: seq<S.Record>, ghost sp: Spelling)
    returns (got: seq<seq<Added>>, reports: seq<nat>)
    ensures AllWritable(rs, sp) && Image(0, BatchesOf(rs, sp)) <= file ==> Replays(got, rs, |rs|, sp)
    ensures AllWritable(rs, sp) && file == Image(0, BatchesOf(rs, sp)) ==> |got| == |rs| && reports == []
  {
    hide Image, BatchOf, Replays;
    ghost var known := AllWritable(rs, sp) && Image(0, BatchesOf(rs, sp)) <= file;
    var read;
    read, reports := ReadBatches(file, known, if known then BatchesOf(rs, sp) else []);
    got := ReplayBatches(read, paranoid, known, rs, sp);
    assert known ==> |rs| <= |got| by { Length(got, rs, known, sp); }
  }

  lemma Length(got: seq<seq<Added>>, rs: seq<S.Record>, known: bool, sp: Spelling)
    requires known ==> Replays(got, rs, |rs|, sp)
    ensures known ==> |rs| <= |got|
  {
  }
}
