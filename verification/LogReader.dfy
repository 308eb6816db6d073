/**
  Reading the log back (db/log_reader.h, db/log_reader.cc), from any initial offset.
 */
module LogReader {
  import opened Coding
  import opened LogFormat

  /** As far as the file goes, the next physical record after `p` is this one. */
  ghost predicate Expects(file: Bytes, p: nat, kind: Byte, payload: Bytes) {
    && FULL <= kind <= LAST && |payload| <= Avail(p)
    && forall k :: Start(p) <= k < |file| && k < Start(p) + HEADER + |payload| ==>
         file[k] == Physical(kind, payload)[k - Start(p)]
  }

  /** A physical record whose checksum fits. */
  ghost predicate Intact(file: Bytes, p: nat, kind: Byte, payload: Bytes) {
    && |payload| < 0x1_0000 && p + HEADER + |payload| <= |file|
    && file[p..p + HEADER + |payload|] == Physical(kind, payload)
  }

  // ----- what a reader standing at `pl` meets next -----

  function NextKind(p: nat, pl: Place): Byte {
    if pl.End? then FULL else KindOf(pl.begin, Take(p, |pl.rest|) == |pl.rest|)
  }

  function NextPayload(p: nat, pl: Place): Bytes {
    if pl.End? then [] else pl.rest[..Take(p, |pl.rest|)]
  }

  function NextOffset(p: nat, pl: Place): nat {
    Start(p) + HEADER + |NextPayload(p, pl)|
  }

  function NextPlace(p: nat, pl: Place): Place
    requires pl.At?
  {
    var n := Take(p, |pl.rest|);
    if n == |pl.rest| then Before(After(p, |pl.rest|), pl.later) else pl.(rest := pl.rest[n..], begin := false)
  }

  lemma Regroup(a: Bytes, b: Bytes, c: Bytes, d: Bytes)
    ensures ((a + b) + c) + d == a + (b + (c + d))
  {
  }

  lemma PhysicalAhead(file: Bytes, p: nat, kind: Byte, payload: Bytes, tail: Bytes)
    requires FULL <= kind <= LAST && |payload| <= Avail(p) && |payload| < BLOCK
    requires Agrees(file, p, Pad(p) + (Physical(kind, payload) + tail))
    ensures Expects(file, p, kind, payload) && Agrees(file, Start(p) + HEADER + |payload|, tail)
  {
    hide Physical, Pad, Avail, Start;
    AgreesRest(file, p, Pad(p), Physical(kind, payload) + tail);
    AgreesRest(file, Start(p), Physical(kind, payload), tail);
  }

  lemma FragAhead(file: Bytes, p: nat, data: Bytes, begin: bool, tail: Bytes)
    requires Agrees(file, p, Frags(p, data, begin) + tail)
    ensures var n := Take(p, |data|);
      && Expects(file, p, KindOf(begin, n == |data|), data[..n])
      && Agrees(file, After(p, |data|), FragRest(p, data) + tail)
  {
    hide Expects, Frags, FragRest, Physical, Agrees, Pad, Start, Avail, Take;
    var n := Take(p, |data|);
    var kind := KindOf(begin, n == |data|);
    FragsSplit(p, data, begin);
    Regroup(Pad(p), Physical(kind, data[..n]), FragRest(p, data), tail);
    PhysicalAhead(file, p, kind, data[..n], FragRest(p, data) + tail);
  }

  /** Where the log ends for a reader at `pl`. */
  function LogEnd(p: nat, pl: Place): nat {
    p + |Ahead(p, pl)|
  }

  lemma PlaceAhead(file: Bytes, p: nat, pl: Place)
    requires Stands(file, p, pl) && pl.At?
    ensures Expects(file, p, NextKind(p, pl), NextPayload(p, pl))
    ensures Stands(file, NextOffset(p, pl), NextPlace(p, pl))
    ensures LogEnd(NextOffset(p, pl), NextPlace(p, pl)) == LogEnd(p, pl)
  {
    hide Agrees, Expects, Frag, Frags, Avail, Start, Take, Image;
    var q := After(p, |pl.rest|);
    FragsSplit(p, pl.rest, pl.begin);
    var e := p + |Frags(p, pl.rest, pl.begin)|;
    FragAhead(file, p, pl.rest, pl.begin, Image(e, pl.later));
    if Take(p, |pl.rest|) == |pl.rest| {
      BeforeAhead(q, pl.later);
      assert [] + Image(q, pl.later) == Image(q, pl.later);
    }
  }

  lemma BeforeAhead(p: nat, recs: seq<Bytes>)
    ensures Ahead(p, Before(p, recs)) == Image(p, recs)
  {
    hide Frags, Start;
  }

  // ----- what is still to be returned -----

  /** Of the records ahead of a reader that stands at `pl` and has already collected `scratch` of
      the record it is in: those complete in the file that start at `initial` or later. */
  function DueAt(file: Bytes, p: nat, pl: Place, scratch: Bytes, initial: nat): seq<(nat, Bytes)> {
    if pl.End? then []
    else
      var e := p + |Frags(p, pl.rest, pl.begin)|;
      if e > |file| then []
      else (if pl.start >= initial then [(pl.start, scratch + pl.rest)] else []) + Due(file, e, pl.later, initial)
  }

  lemma DueBefore(file: Bytes, p: nat, recs: seq<Bytes>, initial: nat)
    ensures DueAt(file, p, Before(p, recs), [], initial) == Due(file, p, recs, initial)
  {
    hide Frags, Start;
    if recs != [] {
      assert [] + recs[0] == recs[0];
    }
  }

  /** What reading or skipping one fragment changes. */
  lemma DueStep(file: Bytes, p: nat, pl: Place, scratch: Bytes, initial: nat)
    requires pl.At?
    ensures var due := DueAt(file, p, pl, scratch, initial); var q := NextOffset(p, pl);
      && (q > |file| ==> due == [])
      && (|NextPayload(p, pl)| < |pl.rest| ==>
            due == DueAt(file, q, NextPlace(p, pl), scratch + NextPayload(p, pl), initial))
      && (|NextPayload(p, pl)| == |pl.rest| && q <= |file| ==>
            due == (if pl.start >= initial then [(pl.start, scratch + NextPayload(p, pl))] else [])
                   + DueAt(file, q, NextPlace(p, pl), [], initial))
  {
    hide Frag, Start, Frags, Due, Avail;
    FragsSplit(p, pl.rest, pl.begin);
    var n := Take(p, |pl.rest|);
    if n == |pl.rest| {
      DueBefore(file, After(p, |pl.rest|), pl.later, initial);
      assert pl.rest[..n] == pl.rest;
    } else {
      assert (scratch + pl.rest[..n]) + pl.rest[n..] == scratch + pl.rest;
    }
  }

  lemma SkippedAlike(file: Bytes, p: nat, pl: Place, a: Bytes, b: Bytes, initial: nat)
    requires pl.At? ==> pl.start < initial
    ensures DueAt(file, p, pl, a, initial) == DueAt(file, p, pl, b, initial)
  {
  }

  // ----- fragments without their beginning -----

  /** Of the record a reader at `pl` stands in or before, or of a later one, that begins before
      `initial`, a complete fragment begins at `initial` or behind it. */
  predicate LateAt(file: Bytes, p: nat, pl: Place, initial: nat) {
    && pl.At?
    && ((pl.start < initial && FragmentFrom(file, p, pl.rest, initial))
        || Late(file, p + |Frags(p, pl.rest, pl.begin)|, pl.later, initial))
  }

  lemma LateBefore(file: Bytes, p: nat, recs: seq<Bytes>, initial: nat)
    ensures LateAt(file, p, Before(p, recs), initial) == Late(file, p, recs, initial)
  {
    hide Frags, Start, FragmentFrom;
  }

  /** One physical record on: it is itself such a fragment, or one is still ahead. */
  lemma LateStep(file: Bytes, p: nat, pl: Place, initial: nat)
    requires pl.At?
    ensures var q := NextOffset(p, pl);
      LateAt(file, p, pl, initial)
      <==> (pl.start < initial && initial <= Start(p) && q <= |file|) || LateAt(file, q, NextPlace(p, pl), initial)
  {
    hide Frag, Start, Frags, Late, Avail, FragmentFrom;
    FragsSplit(p, pl.rest, pl.begin);
    FragmentFromStep(file, p, pl.rest, initial);
    if Take(p, |pl.rest|) == |pl.rest| {
      LateBefore(file, After(p, |pl.rest|), pl.later, initial);
    }
    hide Before;
  }

  lemma FragmentFromStep(file: Bytes, p: nat, data: Bytes, initial: nat)
    ensures FragmentFrom(file, p, data, initial)
      <==> (Start(p) >= initial && After(p, |data|) <= |file|)
           || (Take(p, |data|) < |data| && FragmentFrom(file, After(p, |data|), data[Take(p, |data|)..], initial))
  {
  }

  lemma {:induction false} FragmentPast(file: Bytes, p: nat, data: Bytes, initial: nat)
    requires After(p, |data|) > |file|
    ensures !FragmentFrom(file, p, data, initial)
    decreases |data|, if Avail(p) == 0 then 1 else 0
  {
    if Take(p, |data|) < |data| {
      FragmentPast(file, After(p, |data|), data[Take(p, |data|)..], initial);
    }
  }

  lemma {:induction false} LatePast(file: Bytes, p: nat, recs: seq<Bytes>, initial: nat)
    requires p > |file|
    ensures !Late(file, p, recs, initial)
    decreases |recs|
  {
    hide Frags, FragmentFrom;
    if recs != [] {
      FragmentPast(file, p, recs[0], initial);
      LatePast(file, p + |Frags(p, recs[0], true)|, recs[1..], initial);
    }
  }

  /** When the next physical record is cut off nothing complete comes behind it. */
  lemma LateCut(file: Bytes, p: nat, pl: Place, initial: nat)
    requires pl.At? && NextOffset(p, pl) > |file|
    ensures !LateAt(file, p, pl, initial)
  {
    hide Frags, Frag, Late, FragmentFrom;
    FragsSplit(p, pl.rest, pl.begin);
    FragmentPast(file, p, pl.rest, initial);
    LatePast(file, p + |Frags(p, pl.rest, pl.begin)|, pl.later, initial);
  }

  /** Records that begin at `initial` or behind it have no such fragment. */
  lemma {:induction false} LateNone(file: Bytes, p: nat, recs: seq<Bytes>, initial: nat)
    requires initial <= Start(p)
    ensures !Late(file, p, recs, initial)
    decreases |recs|
  {
    if recs != [] {
      var b := Frags(p, recs[0], true);
      assert p + |b| >= Start(p);
      hide Frags, FragmentFrom;
      LateNone(file, p + |b|, recs[1..], initial);
    }
  }

  /** The block SkipToInitialBlock goes to. */
  function InitialBlock(initial: nat): (b: nat)
    ensures b % BLOCK == 0 && b < initial + HEADER
  {
    var offset := initial % BLOCK;
    if offset > BLOCK - 6 then initial - offset + BLOCK else initial - offset
  }

  lemma PadAhead(p: nat, data: Bytes, begin: bool)
    ensures Frags(p, data, begin) == Pad(p) + Frags(Start(p), data, begin)
  {
    hide Physical, Pad, Start, FragRest;
    StartOfStart(p);
    FragsSplit(p, data, begin);
    FragsSplit(Start(p), data, begin);
    SameRest(p, data);
    hide Frags;
    assert Pad(Start(p)) == [];
  }

  lemma StartOfStart(p: nat)
    ensures Start(Start(p)) == Start(p) && Avail(Start(p)) == Avail(p)
  {
  }

  lemma SameRest(p: nat, data: Bytes)
    ensures FragRest(Start(p), data) == FragRest(p, data) && Take(Start(p), |data|) == Take(p, |data|)
  {
    hide Frags, Start;
    StartOfStart(p);
  }

  lemma SameFragments(file: Bytes, p: nat, data: Bytes, initial: nat)
    ensures FragmentFrom(file, Start(p), data, initial) == FragmentFrom(file, p, data, initial)
  {
    hide FragmentFrom, Start;
    StartOfStart(p);
    FragmentFromStep(file, p, data, initial);
    FragmentFromStep(file, Start(p), data, initial);
  }

  lemma PadSkipped(file: Bytes, p: nat, pl: Place, initial: nat)
    requires pl.At? && Stands(file, p, pl)
    ensures Stands(file, Start(p), pl) && DueAt(file, Start(p), pl, [], initial) == DueAt(file, p, pl, [], initial)
    ensures LogEnd(Start(p), pl) == LogEnd(p, pl) && LateAt(file, Start(p), pl, initial) == LateAt(file, p, pl, initial)
  {
    hide Frags, Frag, FragRest, Agrees, Image, Pad, Start, Due, Late, FragmentFrom;
    PadAhead(p, pl.rest, pl.begin);
    StartOfStart(p);
    SameFragments(file, p, pl.rest, initial);
    var b := Frags(Start(p), pl.rest, pl.begin);
    var tail := Image(Start(p) + |b|, pl.later);
    assert (Pad(p) + b) + tail == Pad(p) + (b + tail);
    AgreesRest(file, p, Pad(p), b + tail);
  }

  lemma EndAhead(file: Bytes, p: nat, block: nat, pl: Place, initial: nat)
    requires Stands(file, p, pl) && p <= block && (p == block || pl.End?) && block % BLOCK == 0
    ensures Stands(file, block, pl) && DueAt(file, block, pl, [], initial) == DueAt(file, p, pl, [], initial)
    ensures Ends(file, LogEnd(p, pl)) ==> Ends(file, LogEnd(block, pl))
    ensures LateAt(file, block, pl, initial) == LateAt(file, p, pl, initial)
  {
    if pl.End? && Ends(file, p) {
      EndsFurther(file, p, block);
    }
    hide Ends;
  }

  /** Behind the end of the file there is no record either. */
  lemma EndsFurther(file: Bytes, p: nat, block: nat)
    requires Ends(file, p) && p <= block && block % BLOCK == 0
    ensures Ends(file, block)
  {
    assert Start(block) == block;
    if block != Start(p) && |file| >= Start(p) + HEADER {
      NextBlock(Start(p), block);
    }
  }

  lemma NextBlock(s: nat, block: nat)
    requires block % BLOCK == 0 && s < block
    ensures s - s % BLOCK + BLOCK <= block
  {
  }

  lemma PastEnd(file: Bytes, p: nat, pl: Place, initial: nat)
    ensures p > |file| ==> DueAt(file, p, pl, [], initial) == []
  {
    hide Frag;
  }

  lemma FragmentInBlock(p: nat, pl: Place, block: nat)
    requires pl.At? && p < block && block % BLOCK == 0
    ensures Start(p) <= block && (Start(p) < block ==> NextOffset(p, pl) <= block && Start(p) + HEADER <= block)
  {
  }

  /** A block begins between two fragments, and skipping to it loses no record that is due. */
  lemma {:induction false} Land(file: Bytes, p: nat, pl: Place, block: nat, initial: nat) returns (there: Place)
    requires Stands(file, p, pl) && p <= block && block % BLOCK == 0 && block < initial + HEADER
    requires pl.At? && !pl.begin ==> pl.start < initial
    ensures Stands(file, block, there) && (there.At? && !there.begin ==> there.start < initial)
    ensures DueAt(file, block, there, [], initial) == DueAt(file, p, pl, [], initial)
    ensures Ends(file, LogEnd(p, pl)) ==> Ends(file, LogEnd(block, there))
    ensures block <= initial ==> LateAt(file, block, there, initial) == LateAt(file, p, pl, initial)
    decreases block - p
  {
    hide Frags, Frag, FragRest, Due, DueAt, Pad, Agrees, Image, Start, Take, Ahead, LateAt, Ends, LogEnd;
    there := pl;
    if p == block || pl.End? {
      EndAhead(file, p, block, pl, initial);
      return;
    }
    FragmentInBlock(p, pl, block);
    if Start(p) == block {
      PadSkipped(file, p, pl, initial);
    } else {
      var q := NextOffset(p, pl);
      PastEnd(file, q, NextPlace(p, pl), initial);
      PlaceAhead(file, p, pl);
      DueStep(file, p, pl, [], initial);
      LateStep(file, p, pl, initial);
      if |NextPayload(p, pl)| < |pl.rest| {
        assert [] + NextPayload(p, pl) == NextPayload(p, pl);
        SkippedAlike(file, q, NextPlace(p, pl), NextPayload(p, pl), [], initial);
      }
      there := Land(file, q, NextPlace(p, pl), block, initial);
    }
  }

  /** The header of a physical record says what it holds. */
  lemma HeaderOf(kind: Byte, payload: Bytes)
    requires |payload| < 0x1_0000
    ensures var b := Physical(kind, payload);
      && Length(b) == |payload| && b[6] == kind && b[HEADER..] == payload
      && Unmask(DecodeFixed32(b)) == Crc(b[6..])
  {
    hide Crc, Mask, Unmask, Fixed32;
    var crc := Mask(Crc([kind] + payload));
    Fixed32RoundTrip(crc);
    UnmaskMask(Crc([kind] + payload));
    var b := Physical(kind, payload);
    assert b[..4] == Fixed32(crc);
    assert b[6..] == [kind] + payload;
    DecodePrefix(b, 4);
  }

  /** And the other way round: what passes the reader's checks is a physical record. */
  lemma ChecksSuffice(b: Bytes)
    requires |b| >= HEADER && |b| == HEADER + Length(b)
    requires Unmask(DecodeFixed32(b)) == Crc(b[6..])
    ensures b == Physical(b[6], b[HEADER..])
  {
    hide Crc, Mask, Unmask;
    MaskUnmask(DecodeFixed32(b));
    Fixed32Injective(b[..4]);
    DecodePrefix(b, 4);
    hide Fixed32, DecodeFixed32;
    assert b[6..] == [b[6]] + b[HEADER..];
    assert b == b[..4] + [b[4], b[5], b[6]] + b[HEADER..];
  }

  /** A header read from a log is the one that was written, and so is what comes behind it. */
  lemma HeaderSeen(file: Bytes, p: nat, e: nat, buffer: Bytes, kind: Byte, payload: Bytes)
    requires p <= e <= |file| && buffer == file[p..e] && |buffer| >= HEADER && p == Start(p)
    requires Expects(file, p, kind, payload)
    ensures Length(buffer) == |payload| && buffer[6] == kind && FULL <= kind <= LAST
    ensures |buffer| >= HEADER + |payload| ==>
      && buffer[HEADER..HEADER + |payload|] == payload
      && Unmask(DecodeFixed32(buffer)) == Crc(buffer[6..HEADER + |payload|])
  {
    HeaderOf(kind, payload);
    hide Physical, Crc, Unmask;
    forall k | 0 <= k < |buffer| && k < HEADER + |payload| ensures buffer[k] == Physical(kind, payload)[k] {
      assert buffer[k] == file[p + k];
    }
    if |buffer| >= HEADER + |payload| {
      var b := buffer[..HEADER + |payload|];
      assert b == Physical(kind, payload);
      DecodePrefix(buffer, |b|);
      assert b[6..] == buffer[6..HEADER + |payload|] && b[HEADER..] == buffer[HEADER..HEADER + |payload|];
    }
  }

  lemma RecordSeen(file: Bytes, p: nat, e: nat, buffer: Bytes)
    requires p <= e <= |file| && buffer == file[p..e] && |buffer| >= HEADER && HEADER + Length(buffer) <= |buffer|
    requires Unmask(DecodeFixed32(buffer)) == Crc(buffer[6..HEADER + Length(buffer)])
    ensures Intact(file, p, buffer[6], buffer[HEADER..HEADER + Length(buffer)])
  {
    hide Crc, Unmask, Physical, DecodeFixed32;
    var b := buffer[..HEADER + Length(buffer)];
    DecodePrefix(buffer, |b|);
    assert b[6..] == buffer[6..HEADER + Length(buffer)] && b[HEADER..] == buffer[HEADER..HEADER + Length(buffer)];
    ChecksSuffice(b);
    assert file[p..p + |b|] == b;
  }

  /** A header that announces more than is left of the incomplete last block. */
  ghost predicate TooLong(file: Bytes, s: nat) {
    && s + HEADER <= |file| < s - s % BLOCK + BLOCK && |file| < s + HEADER + Length(file[s..])
  }

  lemma HeaderTooLong(file: Bytes, p: nat)
    requires Ends(file, p) && Start(p) + HEADER <= |file|
    ensures TooLong(file, Start(p))
  {
  }

  lemma LengthInBuffer(file: Bytes, p: nat, e: nat, buffer: Bytes)
    requires TooLong(file, p) && p <= e <= |file| && buffer == file[p..e] && |buffer| >= HEADER
    ensures |buffer| < HEADER + Length(buffer) && |buffer| < BLOCK - p % BLOCK
  {
    assert buffer[4] == file[p..][4] && buffer[5] == file[p..][5];
  }

  class Reader {
    const file: Bytes
    const checksum: bool
    const initialOffset: nat
    var pos: nat
    var buffer: Bytes
    var eof: bool
    var lastRecordOffset: nat
    var endOfBuffer: nat
    var resyncing: bool
    var reports: seq<nat>

    constructor (file: Bytes, checksum: bool, initialOffset: nat)
      ensures this.file == file && this.checksum == checksum && this.initialOffset == initialOffset
      ensures Ready() && Here() == 0 && reports == []
    {
      this.file, this.checksum, this.initialOffset := file, checksum, initialOffset;
      pos, buffer, eof, lastRecordOffset, endOfBuffer := 0, [], false, 0, 0;
      resyncing := initialOffset > 0;
      reports := [];
    }

    ghost predicate Untouched()
      reads this
    {
      pos == 0 && buffer == [] && !eof && endOfBuffer == 0 && resyncing == (initialOffset > 0)
    }

    /** The buffer holds the unread rest of one block of the file. */
    ghost predicate Valid()
      reads this`pos, this`buffer, this`eof, this`endOfBuffer
    {
      && |buffer| <= endOfBuffer
      && (!eof ==> pos == endOfBuffer && pos % BLOCK == 0)
      && (buffer != [] ==>
            && endOfBuffer <= |file| && buffer == file[Here()..endOfBuffer]
            && endOfBuffer <= Here() - Here() % BLOCK + BLOCK)
      && (eof ==> |file| <= endOfBuffer)
    }

    ghost function Here(): nat
      reads this`buffer, this`endOfBuffer
    {
      if |buffer| <= endOfBuffer then endOfBuffer - |buffer| else 0
    }

    /** bytes are only counted as dropped from the initial offset on */
    method ReportDrop(bytes: nat)
      modifies this`reports
      ensures reports == if endOfBuffer - |buffer| - bytes >= initialOffset then old(reports) + [bytes]
        else old(reports)
    {
      if endOfBuffer - |buffer| - bytes >= initialOffset {
        reports := reports + [bytes];
      }
    }

    /** A record that was cut short by the beginning of another one. */
    method DropUnfinished(inFragmentedRecord: bool, scratch: Bytes)
      modifies this`reports
      ensures !inFragmentedRecord ==> reports == old(reports)
    {
      if inFragmentedRecord && scratch != [] {
        ReportDrop(|scratch|);
      }
    }

    /** While resyncing, pass over the fragments of a record whose beginning was not read. */
    method Resync(kind: Byte) returns (skip: bool)
      modifies this`resyncing
      ensures skip == (old(resyncing) && (kind == MIDDLE || kind == LAST))
        && resyncing == (old(resyncing) && kind == MIDDLE)
    {
      skip := false;
      if resyncing {
        if kind == MIDDLE {
          return true;
        } else if kind == LAST {
          resyncing := false;
          return true;
        } else {
          resyncing := false;
        }
      }
    }

    /** Read the next block. */
    method Refill()
      requires Valid() && !eof
      modifies this`pos, this`buffer, this`eof, this`endOfBuffer
      ensures Valid() && Here() == old(endOfBuffer) && (|buffer| == BLOCK || eof)
    {
      var n := if pos >= |file| then 0 else if |file| - pos < BLOCK then |file| - pos else BLOCK;
      buffer := if n == 0 then [] else file[pos..pos + n];
      pos := pos + n;
      endOfBuffer := endOfBuffer + n;
      if n < BLOCK {
        eof := true;
      }
    }

    /** Have at least a header in the buffer, skipping the trailer of a block. */
    method FillHeader() returns (ok: bool)
      requires Valid()
      modifies this`pos, this`buffer, this`eof, this`endOfBuffer
      ensures Valid() && Here() == endOfBuffer - |buffer| && old(Here()) <= Here()
      ensures ok ==> |buffer| >= HEADER && Here() == Start(Here()) == Start(old(Here()))
      ensures ok && !eof ==> |buffer| == BLOCK - Here() % BLOCK
      ensures !ok ==> |file| < Start(old(Here())) + HEADER
    {
      while |buffer| < HEADER
        invariant Valid() && Start(Here()) == Start(old(Here())) && old(Here()) <= Here()
        decreases if |buffer| < HEADER then if eof then 1 else 2 else 0
      {
        if eof {
          buffer := [];
          return false;
        }
        Refill();
      }
      ok := true;
    }

    method SkipToInitialBlock()
      requires Untouched()
      modifies this`pos, this`endOfBuffer
      ensures Valid() && Here() == InitialBlock(initialOffset) && !eof
    {
      var offsetInBlock := initialOffset % BLOCK;
      var blockStart := initialOffset - offsetInBlock;
      if offsetInBlock > BLOCK - 6 {
        blockStart := blockStart + BLOCK;
      }
      endOfBuffer := blockStart;
      if blockStart > 0 {
        pos := pos + blockStart;
      }
    }

    /** The next physical record. Whatever the file holds, what is returned is in the file with a
        checksum that fits; and if a record that a writer made comes next, that one is returned
        unless it is cut off or starts too early, and nothing is reported. */
    method ReadPhysicalRecord(ghost expected: Byte, ghost payload: Bytes) returns (kind: Byte, fragment: Bytes)
      requires Valid()
      modifies this`pos, this`buffer, this`eof, this`endOfBuffer, this`reports
      ensures Valid() && Here() == endOfBuffer - |buffer|
      ensures kind != EOF ==> old(Here()) < Here() <= |file|
      ensures kind != EOF && kind != BAD ==> initialOffset + HEADER + |fragment| <= Here()
      ensures checksum && kind != EOF && kind != BAD ==> Intact(file, Here() - HEADER - |fragment|, kind, fragment)
      ensures var s := Start(old(Here())); var q := s + HEADER + |payload|;
        Expects(file, old(Here()), expected, payload) ==>
          && reports == old(reports)
          && (q > |file| ==> kind == EOF)
          && (q <= |file| ==> Here() == q && if s < initialOffset then kind == BAD && fragment == []
                              else kind == expected && fragment == payload)
      ensures Ends(file, old(Here())) ==> kind == EOF && reports == old(reports)
    {
      hide Physical, Expects, Start, Valid, Intact, Length;
      ghost var p := Here();
      var ok := FillHeader();
      if !ok {
        return EOF, [];
      }
      if Ends(file, p) {
        HeaderTooLong(file, p);
      }
      if Expects(file, p, expected, payload) {
        ExpectsSame(file, p, Here(), expected, payload);
      }
      kind, fragment := ParseRecord(expected, payload);
    }

    lemma InBuffer()
      requires Valid()
      ensures Here() == endOfBuffer - |buffer| && (eof ==> |file| <= endOfBuffer)
      ensures buffer != [] ==> endOfBuffer <= |file| && buffer == file[Here()..endOfBuffer]
    {
    }

    /** Drop the first `n` bytes of the buffer. */
    method RemovePrefix(n: nat)
      requires Valid() && n <= |buffer|
      modifies this`buffer
      ensures Valid() && Here() == old(Here()) + n == endOfBuffer - |buffer| && |buffer| == old(|buffer|) - n
    {
      ghost var b := buffer;
      buffer := buffer[n..];
      if buffer != [] {
        assert buffer == file[Here()..endOfBuffer];
      }
    }

    /** The header and what it announces, once a header is in the buffer. */
    method ParseRecord(ghost expected: Byte, ghost payload: Bytes) returns (kind: Byte, fragment: Bytes)
      requires Valid() && |buffer| >= HEADER && (!eof ==> |buffer| == BLOCK - Here() % BLOCK)
      modifies this`buffer, this`reports
      ensures Valid() && Here() == endOfBuffer - |buffer| && (kind != EOF ==> old(Here()) < Here() <= |file|)
      ensures kind != EOF && kind != BAD ==> initialOffset + HEADER + |fragment| <= Here()
      ensures checksum && kind != EOF && kind != BAD ==> Intact(file, Here() - HEADER - |fragment|, kind, fragment)
      ensures var s := old(Here()); var q := s + HEADER + |payload|;
        s == Start(s) && Expects(file, s, expected, payload) && |payload| <= BLOCK - s % BLOCK - HEADER ==>
          && reports == old(reports)
          && (q > |file| ==> kind == EOF)
          && (q <= |file| ==> Here() == q && if s < initialOffset then kind == BAD && fragment == []
                              else kind == expected && fragment == payload)
      ensures TooLong(file, old(Here())) ==> kind == EOF && reports == old(reports)
    {
      hide Physical, Crc, Unmask, Expects, Start, DecodeFixed32, Length, Intact, Avail, Valid, Here, TooLong;
      InBuffer();
      ghost var p := Here();
      if TooLong(file, p) {
        LengthInBuffer(file, p, endOfBuffer, buffer);
      }
      if p == Start(p) && Expects(file, p, expected, payload) {
        HeaderSeen(file, p, endOfBuffer, buffer, expected, payload);
      }
      var size := |buffer|;
      var length := Length(buffer);
      kind, fragment := buffer[6], [];
      if HEADER + length > size {
        RemovePrefix(size);
        if !eof {
          ReportDrop(size);
          return BAD, [];
        }
        return EOF, [];
      }
      if kind == ZERO && length == 0 {
        RemovePrefix(size);
        return BAD, [];
      }
      if checksum && Crc(buffer[6..HEADER + length]) != Unmask(DecodeFixed32(buffer)) {
        RemovePrefix(size);
        ReportDrop(size);
        return BAD, [];
      }
      if checksum {
        RecordSeen(file, p, endOfBuffer, buffer);
      }
      fragment := buffer[HEADER..HEADER + length];
      RemovePrefix(HEADER + length);
      if endOfBuffer - |buffer| - HEADER - length < initialOffset {
        return BAD, [];
      }
    }

    /** The start of ReadRecord: the first call goes to the block of the initial offset. */
    method Begin(ghost recs: seq<Bytes>) returns (ghost pl: Place)
      requires Ready()
      modifies this`pos, this`endOfBuffer
      ensures Valid() && old(Here()) <= Here() && (lastRecordOffset >= initialOffset ==> Here() == old(Here()))
      ensures var p := old(Here()); Agrees(file, p, Image(p, recs)) ==>
        && Reading(file, Here(), pl, [], false, 0, Due(file, p, recs, initialOffset), initialOffset)
        && (Ends(file, p + |Image(p, recs)|) ==> Ends(file, LogEnd(Here(), pl)))
        && (initialOffset > InitialBlock(initialOffset) ==>
              LateAt(file, Here(), pl, initialOffset) == Late(file, p, recs, initialOffset))
      ensures initialOffset <= InitialBlock(initialOffset) ==> initialOffset <= Here() && (Mid(pl) ==> resyncing)
      ensures initialOffset > InitialBlock(initialOffset) && Here() != old(Here()) ==> Start(Here()) < initialOffset
      ensures initialOffset > InitialBlock(initialOffset) && Here() == old(Here()) && Here() < initialOffset ==>
        Start(Here()) < initialOffset
    {
      hide Image, Due, Agrees, Reading, InitialBlock, Late, LateAt, Ends, LogEnd;
      ghost var p, skip := Here(), lastRecordOffset < initialOffset;
      if lastRecordOffset < initialOffset {
        SkipToInitialBlock();
        assert Start(Here()) == Here();
      }
      pl := End;
      if Agrees(file, p, Image(p, recs)) {
        pl := Starts(file, p, recs, initialOffset, skip);
      }
    }

    /** ReadRecord's switch: what a physical record does to the logical one being collected. */
    method Assemble(kind: Byte, fragment: Bytes, offset: int, before: Bytes, collecting: bool, start: nat)
      returns (done: bool, record: Bytes, scratch: Bytes, inside: bool, prospective: nat)
      requires kind != EOF && offset == endOfBuffer - |buffer| - HEADER - |fragment|
      requires FULL <= kind <= LAST ==> 0 <= initialOffset <= offset
      requires collecting ==> !resyncing && initialOffset <= start
      modifies this`resyncing, this`reports, this`lastRecordOffset
      ensures var v := Vars(before, collecting, start, old(resyncing), old(reports));
        && done == Completes(v, kind)
        && (!done && (kind == FIRST || kind == BAD ==> !collecting) && kind <= BAD && kind != ZERO ==>
              Vars(scratch, inside, prospective, resyncing, reports)
                == Turn(v, kind, fragment, if kind == FIRST then offset else 0))
        && (done ==> record == (if kind == FULL then fragment else before + fragment))
        && (done ==> lastRecordOffset == (if kind == FULL then offset else start) && lastRecordOffset >= initialOffset)
        && (done && !(kind == FULL && collecting) ==> reports == old(reports))
        && (!done ==> lastRecordOffset == old(lastRecordOffset) && (resyncing ==> !inside))
        && (!done && inside ==> initialOffset <= prospective)
    {
      done, record, scratch, inside, prospective := false, [], before, collecting, start;
      var skip := Resync(kind);
      if skip {
        return;
      }
      if kind == FULL {
        DropUnfinished(inside, scratch);
        prospective := offset;
        record := fragment;
        lastRecordOffset := prospective;
        done := true;
      } else if kind == FIRST {
        DropUnfinished(inside, scratch);
        prospective := offset;
        scratch := fragment;
        inside := true;
      } else if kind == MIDDLE {
        if !inside {
          ReportDrop(|fragment|);
        } else {
          scratch := scratch + fragment;
        }
      } else if kind == LAST {
        if !inside {
          ReportDrop(|fragment|);
        } else {
          scratch := scratch + fragment;
          record := scratch;
          lastRecordOffset := prospective;
          done := true;
        }
      } else if kind == BAD {
        if inside {
          ReportDrop(|scratch|);
          inside := false;
          scratch := [];
        }
      } else {
        ReportDrop(|fragment| + if inside then |scratch| else 0);
        inside := false;
        scratch := [];
      }
    }

    /** The next physical record, seen from a reader that stands at `pl` of a log. */
    method ReadNext(ghost pl: Place, ghost scratch: Bytes, ghost inside: bool, ghost start: nat,
                    ghost due: seq<(nat, Bytes)>, ghost live: bool, ghost ends: bool)
      returns (kind: Byte, fragment: Bytes, ghost next: Place)
      requires Valid()
      requires live ==> Reading(file, Here(), pl, scratch, inside, start, due, initialOffset)
      requires live && ends ==> Ends(file, LogEnd(Here(), pl))
      modifies this`pos, this`buffer, this`eof, this`endOfBuffer, this`reports
      ensures Valid() && Here() == endOfBuffer - |buffer| && (kind != EOF ==> old(Here()) < Here() <= |file|)
      ensures kind != EOF && kind != BAD ==> initialOffset + HEADER + |fragment| <= Here()
      ensures live && pl.End? ==> due == [] && (ends ==> kind == EOF && reports == old(reports))
      ensures live && pl.At? ==> reports == old(reports)
      ensures live && (pl.At? || ends) ==>
        && Met(file, old(Here()), pl, scratch, inside, start, due, initialOffset, kind, fragment, Here(), next)
        && (ends && kind != EOF ==> Ends(file, LogEnd(Here(), next)))
          && (kind == BAD ==> Start(old(Here())) < initialOffset)
    {
      hide Frags, Frag, FragRest, Image, Due, DueAt, Agrees, Stands, Expects, Start, Take, Avail, Intact, Physical,
        Ahead, InitialBlock, Before, NextKind, NextPayload, NextPlace, Reading, Returned, Valid, Here, Mid, KindOf,
        Late, LateAt, Ends, LogEnd;
      ghost var p, expected, payload := Here(), NextKind(Here(), pl), NextPayload(Here(), pl);
      if live {
        Meets(file, p, pl, scratch, inside, start, due, initialOffset);
        MeetsLate(file, p, pl, initialOffset);
      }
      kind, fragment := ReadPhysicalRecord(expected, payload);
      next := pl;
      if live && pl.At? && kind != EOF {
        next := NextPlace(p, pl);
      }
    }

    /** The next logical record at the initial offset or behind it. Where the file begins like a log
        it is the first one due, with its offset, and false means that no more is due. When the file
        ends with that log, cut off or not, nothing but what is due is returned, and something is
        reported exactly if the reader started inside a block and a record that began before the
        initial offset has a complete fragment at or behind it. */
    method ReadRecord(ghost recs: seq<Bytes>) returns (ok: bool, record: Bytes, ghost rest: seq<Bytes>)
      requires Ready()
      modifies this
      ensures ok ==> Ready() && old(Here()) < Here() <= |file| && initialOffset <= Here()
      ensures var p := old(Here()); Agrees(file, p, Image(p, recs)) ==>
        Delivered(TaskAt(file, p, recs, initialOffset, old(reports)), ok, record, lastRecordOffset, Here(), rest,
          reports)
    {
      hide Frags, Frag, FragRest, Image, Due, DueAt, Agrees, Stands, Expects, Start, Take, Avail, Intact, Physical,
        Ahead, InitialBlock, Before, NextKind, NextPayload, NextPlace, Reading, Returned, Valid, Here, Mid, KindOf,
        Late, LateAt, Ends, LogEnd, Going, Met, Delivered;
      ghost var p := Here();
      ghost var known := Agrees(file, p, Image(p, recs));
      ghost var t := TaskAt(file, p, recs, initialOffset, reports);
      if initialOffset <= p {
        LateNone(file, p, recs, initialOffset);
      }
      rest := [];
      ghost var live := known;
      ghost var pl := Begin(recs);
      var scratch: Bytes := [];
      record := [];
      var inFragmentedRecord := false;
      var prospectiveRecordOffset: nat := 0;
      if known {
        Sets(t, Here(), pl, resyncing);
      }
      while true
        invariant Valid() && (resyncing ==> !inFragmentedRecord) && old(Here()) <= Here()
        invariant inFragmentedRecord ==> initialOffset <= prospectiveRecordOffset
        invariant live ==> Going(t, Here(), pl,
          Vars(scratch, inFragmentedRecord, prospectiveRecordOffset, resyncing, reports))
        invariant !live && known ==> t.due == [] && !t.ends
        decreases |file| - Here()
      {
        ghost var was, v := pl, Vars(scratch, inFragmentedRecord, prospectiveRecordOffset, resyncing, reports);
        ghost var q := Here();
        if live {
          GoingReads(t, q, pl, v);
        }
        var kind, fragment;
        kind, fragment, pl :=
          ReadNext(pl, scratch, inFragmentedRecord, prospectiveRecordOffset, t.due, live, t.ends);
        var physicalRecordOffset := endOfBuffer - |buffer| - HEADER - |fragment|;
        live := live && (was.At? || t.ends);
        if live {
          Goes(t, q, was, v, kind, fragment, Here(), pl);
        } else if known {
          NothingDelivered(t);
        }
        if kind == EOF {
          return false, [], [];
        }
        if live {
          rest := if was.At? then was.later else [];
        }
        ok, record, scratch, inFragmentedRecord, prospectiveRecordOffset :=
          Assemble(kind, fragment, physicalRecordOffset, scratch, inFragmentedRecord, prospectiveRecordOffset);
        if ok {
          return true, record, rest;
        }
      }
    }

    ghost predicate Ready()
      reads this
    {
      Valid() && if lastRecordOffset < initialOffset then Untouched() else initialOffset <= Here()
    }

    /** Read to the end, as RecoverLogFile does. A file that begins like a log yields first all that
        is due of it, whatever comes behind. If the file ends with that log, it yields nothing else,
        and there is a report exactly if the reader starts inside a block and a record that began
        before the initial offset has a complete fragment at or behind it. */
    static method ReadAll(file: Bytes, checksum: bool, initialOffset: nat, ghost recs: seq<Bytes>)
      returns (got: seq<(nat, Bytes)>, reports: seq<nat>)
      ensures Agrees(file, 0, Image(0, recs)) ==> Due(file, 0, recs, initialOffset) <= got
      ensures Agrees(file, 0, Image(0, recs)) && Ends(file, |Image(0, recs)|) ==>
        && got == Due(file, 0, recs, initialOffset)
        && (reports == [] <==> initialOffset <= InitialBlock(initialOffset) || !Late(file, 0, recs, initialOffset))
    {
      hide Agrees, Image, Due, InitialBlock, Late, Ends, Returned;
      var reader := new Reader(file, checksum, initialOffset);
      ghost var known := Agrees(file, 0, Image(0, recs));
      ghost var all, ends, left := Due(file, 0, recs, initialOffset), Ends(file, |Image(0, recs)|), recs;
      ghost var silent := initialOffset <= InitialBlock(initialOffset) || !Late(file, 0, recs, initialOffset);
      ghost var live, begun := known, false;
      got := [];
      while true
        invariant reader.Ready() && reader.file == file && reader.initialOffset == initialOffset
        invariant fresh(reader)
        invariant live ==> Agrees(file, reader.Here(), Image(reader.Here(), left))
        invariant live ==> all == got + Due(file, reader.Here(), left, initialOffset)
        invariant known && !live ==> !ends && all <= got
        invariant live && ends ==> Ends(file, reader.Here() + |Image(reader.Here(), left)|)
        invariant !begun ==> reader.Here() == 0 && left == recs && reader.reports == []
        invariant begun ==> initialOffset <= reader.Here()
        invariant live && ends && begun ==> (reader.reports == [] <==> silent)
        decreases |file| - reader.Here()
      {
        ghost var p, due := reader.Here(), Due(file, reader.Here(), left, initialOffset);
        if begun {
          LateNone(file, p, left, initialOffset);
        }
        ghost var rest;
        var ok, record;
        ok, record, rest := reader.ReadRecord(left);
        begun := true;
        if !ok {
          break;
        }
        got := got + [(reader.lastRecordOffset, record)];
        if live && due != [] {
          NextDue(file, reader.Here(), due, record, reader.lastRecordOffset, rest, initialOffset);
        }
        live := live && due != [];
        left := rest;
      }
      reports := reader.reports;
    }
  }

  lemma NextDue(file: Bytes, p: nat, due: seq<(nat, Bytes)>, record: Bytes, offset: nat, rest: seq<Bytes>, initial: nat)
    requires Returned(file, p, due, record, offset, rest, initial)
    ensures due == [(offset, record)] + Due(file, p, rest, initial) && Agrees(file, p, Image(p, rest))
  {
    hide Due, Agrees, Image;
  }

  /** What ReadRecord is about: what is due, whether the file ends with the log, and whether
      there is a fragment to be reported. */
  datatype Task = Task(file: Bytes, due: seq<(nat, Bytes)>, initial: nat, ends: bool, late: bool, before: seq<nat>)

  ghost function TaskAt(file: Bytes, p: nat, recs: seq<Bytes>, initial: nat, before: seq<nat>): Task {
    Task(file, Due(file, p, recs, initial), initial, Ends(file, p + |Image(p, recs)|), Late(file, p, recs, initial),
      before)
  }

  /** What came of it: the first record due, or false when none is. When the file ends with the log,
      nothing but what is due is returned, and something is reported exactly if the reader started
      inside a block and there is a fragment to be reported. */
  ghost predicate Delivered(t: Task, ok: bool, record: Bytes, offset: int, q: nat, rest: seq<Bytes>,
    reports: seq<nat>) {
    && (if ok then t.due != [] ==> Returned(t.file, q, t.due, record, offset, rest, t.initial) else t.due == [])
    && (ok && t.ends ==> t.due != [] && Ends(t.file, q + |Image(q, rest)|))
    && (t.ends ==> (reports == t.before <==> Calm(t.initial) || !t.late))
  }

  lemma NothingDelivered(t: Task)
    requires t.due == [] && !t.ends
    ensures forall ok, record, offset, q, rest, reports :: Delivered(t, ok, record, offset, q, rest, reports)
  {
  }

  /** The variables of its loop. */
  datatype Vars = Vars(scratch: Bytes, inside: bool, start: nat, resyncing: bool, reports: seq<nat>)

  ghost predicate Calm(initial: nat) {
    initial <= InitialBlock(initial)
  }

  /** What holds between two physical records. A reader that starts at a block reports nothing; any
      other has reported the fragments without their beginning, or they are still ahead. */
  ghost predicate Going(t: Task, p: nat, pl: Place, v: Vars) {
    && Reading(t.file, p, pl, v.scratch, v.inside, v.start, t.due, t.initial)
    && (t.ends ==>
          && Ends(t.file, LogEnd(p, pl)) && t.before <= v.reports
          && (Calm(t.initial) ==> t.initial <= p && v.reports == t.before && (!v.inside && Mid(pl) ==> v.resyncing))
          && (!Calm(t.initial) ==>
                && (t.late <==> (v.reports != t.before || LateAt(t.file, p, pl, t.initial)))
                && (t.late && v.resyncing ==> Start(p) < t.initial)))
  }

  lemma Sets(t: Task, p: nat, pl: Place, resyncing: bool)
    requires Reading(t.file, p, pl, [], false, 0, t.due, t.initial) && (t.ends ==> Ends(t.file, LogEnd(p, pl)))
    requires Calm(t.initial) ==> t.initial <= p && (Mid(pl) ==> resyncing)
    requires !Calm(t.initial)
      ==> t.late == LateAt(t.file, p, pl, t.initial) && (t.late && resyncing ==> Start(p) < t.initial)
    ensures Going(t, p, pl, Vars([], false, 0, resyncing, t.before))
  {
  }

  lemma GoingReads(t: Task, p: nat, pl: Place, v: Vars)
    requires Going(t, p, pl, v)
    ensures Reading(t.file, p, pl, v.scratch, v.inside, v.start, t.due, t.initial)
    ensures t.ends ==> Ends(t.file, LogEnd(p, pl))
  {
  }

  /** The switch over a physical record that does not complete a logical one. */
  ghost function Turn(v: Vars, kind: Byte, fragment: Bytes, offset: nat): Vars {
    if v.resyncing && (kind == MIDDLE || kind == LAST) then
      v.(resyncing := kind == MIDDLE)
    else
      var w := v.(resyncing := false);
      if kind == FIRST then w.(scratch := fragment, inside := true, start := offset)
      else if kind == MIDDLE && v.inside then w.(scratch := v.scratch + fragment)
      else if kind == MIDDLE || kind == LAST then w.(reports := v.reports + [|fragment|])
      else w
  }

  predicate Completes(v: Vars, kind: Byte) {
    kind == FULL || (kind == LAST && v.inside)
  }

  /** One physical record on. */
  lemma Goes(t: Task, p: nat, pl: Place, v: Vars, kind: Byte, fragment: Bytes, q: nat, next: Place)
    requires Going(t, p, pl, v) && (v.resyncing ==> !v.inside)
    requires Met(t.file, p, pl, v.scratch, v.inside, v.start, t.due, t.initial, kind, fragment, q, next)
    requires kind != EOF ==> p <= q
    requires t.ends && kind != EOF ==> Ends(t.file, LogEnd(q, next))
    requires kind == BAD ==> Start(p) < t.initial
    ensures kind == EOF ==> forall offset :: Delivered(t, false, [], offset, q, [], v.reports)
    ensures (kind == FIRST || kind == BAD || kind == FULL) ==> !v.inside
    ensures FULL <= kind <= BAD && (kind == FIRST ==> HEADER + |fragment| <= q)
    ensures kind != EOF && !Completes(v, kind) ==>
      Going(t, q, next, Turn(v, kind, fragment, if kind == FIRST then q - HEADER - |fragment| else 0))
    ensures Completes(v, kind) ==> pl.At? && (kind == FULL ==> HEADER + |fragment| <= q)
    ensures kind == FULL ==> Delivered(t, true, fragment, q - HEADER - |fragment|, q, pl.later, v.reports)
    ensures kind == LAST && v.inside ==> Delivered(t, true, v.scratch + fragment, v.start, q, pl.later, v.reports)
  {
    hide Reading, Returned, LateAt, Ends, LogEnd, Start, Mid, Image, InitialBlock;
    assert p <= Start(p) by { StartsBehind(p); }
  }

  lemma StartsBehind(p: nat)
    ensures p <= Start(p)
  {
  }

  lemma Departs(file: Bytes, p: nat, recs: seq<Bytes>, initial: nat)
    ensures Agrees(file, p, Image(p, recs)) ==> Stands(file, p, Before(p, recs))
    ensures DueAt(file, p, Before(p, recs), [], initial) == Due(file, p, recs, initial)
    ensures var pl := Before(p, recs); pl.At? ==> pl.begin
  {
    hide Due, DueAt, Image, Ahead, Agrees, Start;
    BeforeAhead(p, recs);
    DueBefore(file, p, recs, initial);
  }

  lemma Starts(file: Bytes, p: nat, recs: seq<Bytes>, initial: nat, skip: bool) returns (pl: Place)
    requires Agrees(file, p, Image(p, recs)) && (skip ==> p <= InitialBlock(initial))
    ensures !skip ==> !Mid(pl)
    ensures var q := if skip then InitialBlock(initial) else p;
      && Reading(file, q, pl, [], false, 0, Due(file, p, recs, initial), initial)
      && (Ends(file, p + |Image(p, recs)|) ==> Ends(file, LogEnd(q, pl)))
      && (!skip || InitialBlock(initial) <= initial ==> LateAt(file, q, pl, initial) == Late(file, p, recs, initial))
  {
    hide Due, DueAt, Image, Ahead, Agrees, Start, Before, InitialBlock, Stands, Late, LateAt, Ends;
    pl := Before(p, recs);
    Departs(file, p, recs, initial);
    PlaceBefore(p, recs);
    LateBefore(file, p, recs, initial);
    BeforeAhead(p, recs);
    if skip {
      pl := Land(file, p, pl, InitialBlock(initial), initial);
    }
  }

  lemma Arrives(file: Bytes, p: nat, recs: seq<Bytes>, initial: nat)
    requires Stands(file, p, Before(p, recs))
    ensures Agrees(file, p, Image(p, recs))
      && Due(file, p, recs, initial) == DueAt(file, p, Before(p, recs), [], initial)
  {
    hide Due, DueAt, Image, Before, Ahead, Agrees;
    BeforeAhead(p, recs);
    DueBefore(file, p, recs, initial);
  }

  /** ReadRecord's loop: what is due is what stands in the file ahead, the record half collected
      first; a record that is not being collected started too early. */
  ghost predicate Reading(file: Bytes, p: nat, pl: Place, scratch: Bytes, inside: bool, start: nat,
    due: seq<(nat, Bytes)>, initial: nat) {
    && Stands(file, p, pl) && due == DueAt(file, p, pl, scratch, initial)
    && (inside ==> Mid(pl) && pl.start == start && initial <= start)
    && (!inside ==> scratch == [] && (Mid(pl) ==> pl.start < initial))
  }

  predicate Mid(pl: Place) {
    pl.At? && !pl.begin
  }

  /** The first one due was returned and the reader stands before `rest`. */
  ghost predicate Returned(file: Bytes, p: nat, due: seq<(nat, Bytes)>, record: Bytes, offset: int, rest: seq<Bytes>,
    initial: nat) {
    && due != [] && due[0] == (offset, record)
    && Agrees(file, p, Image(p, rest)) && Due(file, p, rest, initial) == due[1..]
  }

  /** What the next physical record does to what is due: a skipped one nothing, a collected one
      moves into `scratch`, the last one of a record completes it. */
  lemma Meets(file: Bytes, p: nat, pl: Place, scratch: Bytes, inside: bool, start: nat, due: seq<(nat, Bytes)>,
    initial: nat)
    requires Reading(file, p, pl, scratch, inside, start, due, initial)
    ensures pl.At? ==> Expects(file, p, NextKind(p, pl), NextPayload(p, pl))
    ensures FULL <= NextKind(p, pl) <= LAST && (!inside ==> scratch == [])
    ensures pl.End? || NextOffset(p, pl) > |file| ==> due == []
    ensures pl.End? ==> LogEnd(p, pl) == p
    ensures pl.At? ==> LogEnd(NextOffset(p, pl), NextPlace(p, pl)) == LogEnd(p, pl)
    ensures pl.At? && !Mid(pl) ==> pl.start == Start(p)
    ensures pl.At? && (inside || Mid(pl)) ==> (inside <==> initial <= pl.start)
    ensures pl.At? && NextOffset(p, pl) <= |file| ==>
      var s, q, next, kind, data := Start(p), NextOffset(p, pl), NextPlace(p, pl), NextKind(p, pl), NextPayload(p, pl);
      && (inside ==> initial <= s && (kind == MIDDLE || kind == LAST))
      && (!inside && (s < initial || kind == MIDDLE || kind == LAST)
        ==> Reading(file, q, next, [], false, start, due, initial))
      && (kind == MIDDLE || kind == LAST <==> Mid(pl)) && (kind == LAST ==> !Mid(next))
      && (initial <= s && kind == FULL ==> due != [] && Returned(file, q, due, data, s, pl.later, initial))
      && (initial <= s && kind == FIRST ==> Reading(file, q, next, data, true, s, due, initial))
      && (inside && kind == MIDDLE ==> Reading(file, q, next, scratch + data, true, start, due, initial))
      && (inside && kind == LAST ==> due != [] && Returned(file, q, due, scratch + data, start, pl.later, initial))
  {
    hide Frags, Frag, Start, Take, Avail, Due, Image, Agrees, Expects, DueAt, Before, Ahead;
    if pl.End? {
      NothingDue(file, p, scratch, initial);
      return;
    }
    var q, next, data := NextOffset(p, pl), NextPlace(p, pl), NextPayload(p, pl);
    PlaceAhead(file, p, pl);
    DueStep(file, p, pl, scratch, initial);
    assert [] + data == data;
    if |data| < |pl.rest| {
      if pl.start < initial {
        SkippedAlike(file, q, next, scratch + data, [], initial);
      }
    } else {
      Arrives(file, q, pl.later, initial);
      PlaceBefore(q, pl.later);
    }
  }

  /** The same after the reading, by the kind of record that was returned. */
  ghost predicate Met(file: Bytes, p: nat, pl: Place, scratch: Bytes, inside: bool, start: nat, due: seq<(nat, Bytes)>,
                      initial: nat, kind: Byte, fragment: Bytes, q: nat, next: Place) {
    var was, ahead := LateAt(file, p, pl, initial), LateAt(file, q, next, initial);
    if kind == EOF then
      due == [] && !was
    else if kind == BAD then
      pl.At? && !inside && was == ahead && Reading(file, q, next, scratch, false, start, due, initial)
    else if Start(p) < initial then
      false
    else if kind == FULL then
      && pl.At? && !inside && !was && LogEnd(q, next) == q + |Image(q, pl.later)| && HEADER + |fragment| <= q
      && due != [] && Returned(file, q, due, fragment, q - HEADER - |fragment|, pl.later, initial)
    else if kind == FIRST then
      && pl.At? && !inside && was == ahead && HEADER + |fragment| <= q
      && Reading(file, q, next, fragment, true, q - HEADER - |fragment|, due, initial)
    else if kind == MIDDLE then
      && Mid(pl) && (if inside then was == ahead else was)
      && Reading(file, q, next, if inside then scratch + fragment else scratch, inside, start, due, initial)
    else if inside then
      && kind == LAST && pl.At? && Mid(pl) && !was && LogEnd(q, next) == q + |Image(q, pl.later)|
      && due != [] && Returned(file, q, due, scratch + fragment, start, pl.later, initial)
    else
      kind == LAST && Mid(pl) && was && !ahead && !Mid(next)
        && Reading(file, q, next, scratch, false, start, due, initial)
  }

  lemma PlaceBefore(p: nat, recs: seq<Bytes>)
    ensures !Mid(Before(p, recs))
  {
  }

  lemma NothingDue(file: Bytes, p: nat, scratch: Bytes, initial: nat)
    ensures DueAt(file, p, End, scratch, initial) == [] && Ahead(p, End) == []
  {
  }

  /** What it does to the fragments that would be reported. */
  lemma MeetsLate(file: Bytes, p: nat, pl: Place, initial: nat)
    ensures pl.End? || NextOffset(p, pl) > |file| ==> !LateAt(file, p, pl, initial)
    ensures pl.At? ==> var q, next := NextOffset(p, pl), NextPlace(p, pl);
      && (LateAt(file, p, pl, initial)
          <==> (pl.start < initial && initial <= Start(p) && q <= |file|) || LateAt(file, q, next, initial))
      && (NextKind(p, pl) == FULL || NextKind(p, pl) == LAST ==>
            && LogEnd(q, next) == q + |Image(q, pl.later)|
            && (initial <= Start(p) ==> !LateAt(file, q, next, initial)))
  {
    hide LateAt, NextOffset, Start, Image;
    if pl.End? {
      LateNowhere(file, p, initial);
    } else {
      LateStep(file, p, pl, initial);
      if NextOffset(p, pl) > |file| {
        LateCut(file, p, pl, initial);
      }
      if NextKind(p, pl) == FULL || NextKind(p, pl) == LAST {
        LastFragment(file, p, pl, initial);
      }
    }
  }

  lemma LateNowhere(file: Bytes, p: nat, initial: nat)
    ensures !LateAt(file, p, End, initial)
  {
  }

  /** Behind the last fragment of a record the next one begins. */
  lemma LastFragment(file: Bytes, p: nat, pl: Place, initial: nat)
    requires pl.At? && (NextKind(p, pl) == FULL || NextKind(p, pl) == LAST)
    ensures var q, next := NextOffset(p, pl), NextPlace(p, pl);
      LogEnd(q, next) == q + |Image(q, pl.later)| && (initial <= Start(p) ==> !LateAt(file, q, next, initial))
  {
    hide Late, LateAt, Frags, Image, Ahead, Take;
    var q := NextOffset(p, pl);
    assert NextPlace(p, pl) == Before(q, pl.later);
    hide Before;
    BeforeAhead(q, pl.later);
    LateBefore(file, q, pl.later, initial);
    if initial <= Start(p) {
      LateNone(file, q, pl.later, initial);
    }
  }

  lemma ExpectsSame(file: Bytes, p: nat, q: nat, kind: Byte, payload: Bytes)
    requires Expects(file, p, kind, payload) && q == Start(q) == Start(p)
    ensures Expects(file, q, kind, payload) && |payload| <= BLOCK - q % BLOCK - HEADER
  {
  }
}
