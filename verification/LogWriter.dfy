/**
  Appending to the log (db/log_writer.h, db/log_writer.cc).
 */
module LogWriter {
  import opened Coding
  import opened LogFormat

  /** A file that only grows; an append that fails may leave any part of its data behind. */
  class WritableFile {
    var contents: Bytes

    constructor ()
      ensures contents == []
    {
      contents := [];
    }

    method Append(data: Bytes) returns (ok: bool)
      modifies this
      ensures Grown(old(contents), contents, data, ok)
    {
      ok := *;
      if ok {
        contents := contents + data;
      } else {
        var n: nat :| n <= |data|;
        contents := contents + data[..n];
      }
    }
  }

  /** `data` was appended; if that failed, a prefix of it was. */
  ghost predicate Grown(before: Bytes, after: Bytes, data: Bytes, ok: bool) {
    before <= after <= before + data && (ok ==> after == before + data)
  }

  class Writer {
    const dest: WritableFile
    var blockOffset: nat

    ghost predicate Valid()
      reads this, dest
    {
      blockOffset <= BLOCK && |dest.contents| % BLOCK == blockOffset % BLOCK
    }

    /** Also for a file that is not empty: what comes next depends on the length only. */
    constructor (dest: WritableFile)
      ensures Valid() && this.dest == dest
    {
      this.dest := dest;
      blockOffset := |dest.contents| % BLOCK;
    }

    method EmitPhysicalRecord(kind: Byte, payload: Bytes) returns (ok: bool)
      requires |payload| < 0x1_0000
      modifies this`blockOffset, dest
      ensures blockOffset == old(blockOffset) + HEADER + |payload|
      ensures Grown(old(dest.contents), dest.contents, Physical(kind, payload), ok)
    {
      var length := |payload|;
      var crc := Mask(Crc([kind] + payload));
      var header := Fixed32(crc) + [length % 256, length / 256, kind];
      assert Physical(kind, payload) == header + payload;
      hide Physical, Fixed32, Mask, Crc;
      ok := dest.Append(header);
      if ok {
        ok := dest.Append(payload);
        if ok {
          ok := *;  // Flush
        }
      }
      blockOffset := blockOffset + HEADER + length;
    }

    /** Fill up the block if no header fits any more. The source ignores the status of this append. */
    method SkipTrailer() returns (ghost filled: bool)
      requires blockOffset <= BLOCK
      modifies this`blockOffset, dest
      ensures blockOffset <= BLOCK - HEADER
      ensures blockOffset == if BLOCK - old(blockOffset) < HEADER then 0 else old(blockOffset)
      ensures !filled ==> 0 < BLOCK - old(blockOffset) < HEADER
      ensures var p := |old(dest.contents)|; old(Valid()) && filled ==>
        Valid() && dest.contents == old(dest.contents) + Pad(p)
    {
      filled := true;
      var leftover := BLOCK - blockOffset;
      if leftover < HEADER {
        if leftover > 0 {
          filled := dest.Append(seq(leftover, _ => 0));
        }
        blockOffset := 0;
      }
    }

    /** The body of AddRecord's loop: one fragment of what is left, `n` bytes of it. */
    method AddFragment(left: Bytes, begin: bool) returns (ok: bool, n: nat, ghost filled: bool)
      requires blockOffset <= BLOCK
      modifies this`blockOffset, dest
      ensures n <= |left| && blockOffset <= BLOCK && (n < |left| ==> blockOffset == BLOCK)
      ensures n == 0 ==> left == [] || old(blockOffset) == BLOCK - HEADER
      ensures !filled ==> 0 < BLOCK - old(blockOffset) < HEADER
      ensures old(Valid()) && filled
        ==> Written(old(dest.contents), dest.contents, left, begin, ok) && n == Take(|old(dest.contents)|, |left|)
      ensures old(Valid()) && filled && (ok || |dest.contents| == After(|old(dest.contents)|, |left|)) ==> Valid()
    {
      hide Physical, Pad, Start, Frags, Mask, Crc, Fixed32, Written;
      ghost var p := dest.contents;
      ghost var aligned := Valid();
      filled := SkipTrailer();
      var avail := BLOCK - blockOffset - HEADER;
      n := if |left| < avail then |left| else avail;
      var end := |left| == n;
      var kind := if begin && end then FULL else if begin then FIRST else if end then LAST else MIDDLE;
      ok := EmitPhysicalRecord(kind, left[..n]);
      if aligned && filled {
        StartsFit(|p|, blockOffset - HEADER - n, |left|);
        hide After, Take, Avail;
        FragmentWritten(p, dest.contents, left, begin, ok);
      }
    }

    /** The record is appended in fragments. When an append fails, part of it may be there, and the
        writer may be out of step with the file: it is in step again if the whole record is there.
        Only the filling of a trailer, one to six bytes, can fail unnoticed. */
    method AddRecord(slice: Bytes) returns (ok: bool, ghost filled: bool)
      requires blockOffset <= BLOCK
      modifies this`blockOffset, dest
      ensures blockOffset <= BLOCK
      ensures var before, whole := old(dest.contents), Frags(|old(dest.contents)|, slice, true);
        old(Valid()) && filled ==>
          && Grown(before, dest.contents, whole, ok)
          && (ok || dest.contents == before + whole ==> Valid())
      ensures old(Valid()) && !filled ==> 0 < BLOCK - old(blockOffset) < HEADER
    {
      hide Physical, Start, Frags, Mask, Crc, Fixed32;
      ghost var before, whole := dest.contents, Frags(|dest.contents|, slice, true);
      ghost var aligned := Valid();
      var left, begin := slice, true;
      filled := true;
      while true
        invariant blockOffset <= BLOCK && (!begin ==> blockOffset == BLOCK)
        invariant begin ==> blockOffset == old(blockOffset) && filled
        invariant !filled ==> 0 < BLOCK - old(blockOffset) < HEADER
        invariant aligned && filled ==> Valid() && before <= dest.contents
        invariant aligned && filled ==> dest.contents + Frags(|dest.contents|, left, begin) == before + whole
        decreases |left|, if blockOffset == BLOCK - HEADER then 1 else 0
      {
        var n; ghost var padded;
        ghost var p, was := dest.contents, begin;
        ok, n, padded := AddFragment(left, begin);
        if aligned && filled && padded && dest.contents == before + whole {
          WholeFragment(p, dest.contents, left, was, ok);
        }
        filled := filled && padded;
        left := left[n..];
        begin := false;
        if !(ok && |left| > 0) {
          break;
        }
      }
    }
  }

  /** One fragment, or part of it, was appended to `p`. */
  ghost predicate Written(p: Bytes, r: Bytes, data: Bytes, begin: bool, ok: bool) {
    var target := p + Frags(|p|, data, begin);
    && p <= r <= target && |r| <= After(|p|, |data|) && (ok ==> |r| == After(|p|, |data|))
    && (ok ==> r + FragRest(|p|, data) == target)
  }

  /** When nothing is missing from the record, nothing is missing from its last fragment. */
  lemma WholeFragment(p: Bytes, r: Bytes, data: Bytes, begin: bool, ok: bool)
    requires Written(p, r, data, begin, ok) && r == p + Frags(|p|, data, begin)
    ensures |r| == After(|p|, |data|)
  {
    FragsSplit(|p|, data, begin);
  }

  /** The writer's block offset, behind a trailer, gives the room that is left in the block. */
  lemma StartsFit(p: nat, blockOffset: nat, left: nat)
    requires blockOffset <= BLOCK - HEADER && Start(p) % BLOCK == blockOffset
    ensures var avail := BLOCK - blockOffset - HEADER; var n := Take(p, left);
      && n == (if left < avail then left else avail)
      && After(p, left) % BLOCK == (blockOffset + HEADER + n) % BLOCK
  {
  }

  lemma AppendedTwice(p: Bytes, r: Bytes, pad: Bytes, phys: Bytes, tail: Bytes, ok: bool)
    requires Grown(p + pad, r, phys, ok)
    ensures |r| <= |p| + |pad| + |phys| && p <= r <= p + ((pad + phys) + tail)
      && (ok ==> r + tail == p + ((pad + phys) + tail))
  {
    assert p + ((pad + phys) + tail) == ((p + pad) + phys) + tail;
  }

  lemma FragmentWritten(p: Bytes, r: Bytes, data: Bytes, begin: bool, ok: bool)
    requires var n := Take(|p|, |data|);
      Grown(p + Pad(|p|), r, Physical(KindOf(begin, n == |data|), data[..n]), ok)
    ensures Written(p, r, data, begin, ok)
  {
    var n := Take(|p|, |data|);
    FragsSplit(|p|, data, begin);
    hide FragRest, Physical, Pad, Start, Frags;
    AppendedTwice(p, r, Pad(|p|), Physical(KindOf(begin, n == |data|), data[..n]), FragRest(|p|, data), ok);
    hide *;
  }

  /** Record by record the file grows into the image of the log; an append that failed, or a crash
      in the middle of it, leaves a byte prefix of the longer log. */
  lemma AddedToLog(recs: seq<Bytes>, before: Bytes, after: Bytes, r: Bytes, ok: bool)
    requires before == Image(0, recs) && Grown(before, after, Frags(|before|, r, true), ok)
    ensures IsCut(after, recs + [r]) && (ok ==> after == Image(0, recs + [r]))
  {
    hide Frags, Image;
    ImageAppend(0, recs, r);
  }
}
