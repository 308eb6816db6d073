/**
  The log from end to end: what the writer appended, cut off anywhere, is what the reader returns;
  and what a torn append does to the records behind it.
 */
module LogRoundTrip {
  import opened Coding
  import opened LogFormat
  import opened LogWriter
  import opened LogReader

  /** Records added one after the other, until one fails; `n` are in the log whole. `filled` is
      false when filling the trailer of a block failed, which the writer does not notice. */
  method AddRecords(writer: Writer, recs: seq<Bytes>) returns (n: nat, ghost filled: bool)
    requires writer.Valid() && writer.dest.contents == []
    modifies writer`blockOffset, writer.dest
    ensures n <= |recs|
    ensures filled && n == |recs| ==> writer.dest.contents == Image(0, recs)
    ensures filled && n < |recs|
      ==> IsCut(writer.dest.contents, recs[..n + 1]) && Image(0, recs[..n]) <= writer.dest.contents
  {
    hide Image, Frags;
    n, filled := 0, true;
    NothingWritten();
    while n < |recs|
      invariant n <= |recs| && writer.blockOffset <= BLOCK
      invariant filled ==> writer.Valid() && writer.dest.contents == Image(0, recs[..n])
    {
      ghost var before := writer.dest.contents;
      var ok; ghost var padded;
      ok, padded := writer.AddRecord(recs[n]);
      if filled && padded {
        assert recs[..n + 1] == recs[..n] + [recs[n]];
        AddedToLog(recs[..n], before, writer.dest.contents, recs[n], ok);
      }
      filled := filled && padded;
      if !ok {
        return;
      }
      n := n + 1;
    }
    assert recs[..|recs|] == recs;
  }

  lemma NothingWritten()
    ensures Image(0, []) == []
  {
  }

  /** `got` are the first `m` of the records, with the offsets at which they were written. */
  ghost predicate FirstOf(got: seq<(nat, Bytes)>, recs: seq<Bytes>, m: nat) {
    && m <= |recs| && |got| == m
    && forall i :: 0 <= i < m ==> got[i] == (Start(Behind(0, recs, i)), recs[i])
  }

  /** The longest list of records that lies in the file whole. */
  ghost predicate LongestWhole(file: Bytes, recs: seq<Bytes>, m: nat) {
    m <= |recs| && |Image(0, recs[..m])| <= |file| && (m < |recs| ==> |file| < |Image(0, recs[..m + 1])|)
  }

  /** Reading any byte prefix of a log gives the longest list of its records that lies in the prefix
      whole, each with its offset, without a report. */
  method ReadCut(file: Bytes, ghost recs: seq<Bytes>) returns (got: seq<(nat, Bytes)>, reports: seq<nat>)
    ensures IsCut(file, recs) ==> FirstOf(got, recs, |got|) && LongestWhole(file, recs, |got|) && reports == []
  {
    hide Image, Due, Start, Behind, Ends, Agrees;
    got, reports := Reader.ReadAll(file, true, 0, recs);
    if IsCut(file, recs) {
      EndOfCut(file, recs);
      ghost var n := DueIsPrefix(file, 0, recs);
      BehindIsImage(0, recs, n);
      if n < |recs| {
        BehindIsImage(0, recs, n + 1);
      }
    }
  }

  lemma EndOfCut(file: Bytes, recs: seq<Bytes>)
    requires IsCut(file, recs)
    ensures Ends(file, |Image(0, recs)|)
  {
    hide Image;
  }

  lemma {:induction false} ImageGrows(recs: seq<Bytes>, i: nat, j: nat)
    requires i <= j <= |recs|
    ensures Image(0, recs[..i]) <= Image(0, recs[..j])
    decreases j
  {
    hide Image, Frags;
    if i < j {
      ImageGrows(recs, i, j - 1);
      ImageAppend(0, recs[..j - 1], recs[j - 1]);
      assert recs[..j] == recs[..j - 1] + [recs[j - 1]];
    }
  }

  lemma CutAgain(file: Bytes, recs: seq<Bytes>, cut: nat)
    requires IsCut(file, recs) && cut <= |file|
    ensures IsCut(file[..cut], recs)
  {
    hide Image;
  }

  lemma WholeIsCut(recs: seq<Bytes>)
    ensures IsCut(Image(0, recs), recs)
  {
    hide Image;
  }

  lemma FirstOfMore(got: seq<(nat, Bytes)>, recs: seq<Bytes>, k: nat)
    requires k <= |recs| && FirstOf(got, recs[..k], |got|)
    ensures FirstOf(got, recs, |got|)
  {
    hide Behind, Image, Start;
    forall i | 0 <= i < |got| ensures got[i] == (Start(Behind(0, recs, i)), recs[i]) {
      BehindIsImage(0, recs, i);
      BehindIsImage(0, recs[..k], i);
      assert recs[..k][..i] == recs[..i];
    }
  }

  /** Write until an append fails or all `recs` are written, lose everything behind the first `cut`
      bytes of the file, read: the records come back in order, with their offsets, up to the first
      that is not there whole, and nothing is reported. */
  method WriteCutRead(recs: seq<Bytes>, cut: nat)
    returns (n: nat, file: Bytes, got: seq<(nat, Bytes)>, reports: seq<nat>, ghost filled: bool)
    ensures n <= |recs| && |file| <= cut
    ensures filled ==> FirstOf(got, recs, |got|) && reports == [] && |Image(0, recs[..|got|])| <= |file|
    ensures filled && |got| < n ==> |file| < |Image(0, recs[..|got| + 1])|
    ensures filled && cut >= |Image(0, recs[..n])| ==> |got| >= n
  {
    hide Image, FirstOf, IsCut;
    var dest := new WritableFile();
    var writer := new Writer(dest);
    n, filled := AddRecords(writer, recs);
    var contents := dest.contents;
    file := if cut < |contents| then contents[..cut] else contents;
    ghost var k := if n < |recs| then n + 1 else n;
    ghost var written := recs[..k];
    assert recs[..|recs|] == recs;
    if filled {
      WholeIsCut(recs);
      assert contents[..|contents|] == contents;
      CutAgain(contents, written, |file|);
    }
    got, reports := ReadCut(file, written);
    if filled {
      PartOfWritten(got, recs, k, n, file);
      if n < |recs| {
        ImageGrows(recs, n, n + 1);
      }
    }
  }

  lemma PartOfWritten(got: seq<(nat, Bytes)>, recs: seq<Bytes>, k: nat, n: nat, file: Bytes)
    requires n <= k <= |recs| && FirstOf(got, recs[..k], |got|) && LongestWhole(file, recs[..k], |got|)
    ensures FirstOf(got, recs, |got|) && |Image(0, recs[..|got|])| <= |file|
    ensures |got| < n ==> |file| < |Image(0, recs[..|got| + 1])| <= |Image(0, recs[..n])|
  {
    hide Image, Behind, Start;
    FirstOfMore(got, recs, k);
    assert recs[..k][..|got|] == recs[..|got|];
    if |got| < n {
      assert recs[..k][..|got| + 1] == recs[..|got| + 1];
      ImageGrows(recs, |got| + 1, n);
    }
  }

  // ----- starting inside a block -----

  /** A record longer than a block has a fragment at the next one. */
  lemma LongRecordIsLate(data: Bytes)
    requires |data| > BLOCK - HEADER
    ensures Late(Image(0, [data]), 0, [data], 1) && InitialBlock(1) == 0
  {
    var rest := data[BLOCK - HEADER..];
    assert Start(0) == 0 && Take(0, |data|) == BLOCK - HEADER && After(0, |data|) == BLOCK && Start(BLOCK) == BLOCK;
    FragsSplit(0, data, true);
    FragsSplit(BLOCK, rest, false);
    assert Image(0, [data]) == Frags(0, data, true) + Image(|Frags(0, data, true)|, []);
    FragmentFromStep(Image(0, [data]), 0, data, 1);
    FragmentFromStep(Image(0, [data]), BLOCK, rest, 1);
    hide Frags, FragmentFrom, Physical, Start, Take, After;
  }

  /** Nothing is wrong with this log, and yet a reader that is to start at its second byte reports
      corruption. */
  method StartInsideReports(data: Bytes) returns (got: seq<(nat, Bytes)>, reports: seq<nat>)
    requires |data| > BLOCK - HEADER
    ensures reports != []
  {
    hide Image, Late, InitialBlock, Due, Agrees, Ends, IsCut;
    LongRecordIsLate(data);
    WholeIsCut([data]);
    EndOfCut(Image(0, [data]), [data]);
    CutAgrees(Image(0, [data]), [data]);
    got, reports := Reader.ReadAll(Image(0, [data]), true, 1, [data]);
  }

  lemma CutAgrees(file: Bytes, recs: seq<Bytes>)
    requires IsCut(file, recs)
    ensures Agrees(file, 0, Image(0, recs))
  {
    hide Image;
  }

  // ----- behind a torn append -----

  /** An append that fails behind the header of its record leaves the file a prefix of what was to
      be written. A shorter record that is then added with success is not read: the reader takes the
      torn header at its word, meets the end of the file, and returns only what lies in front. */
  method TornHeaderHides(recs: seq<Bytes>, torn: Bytes, next: Bytes) returns (got: seq<(nat, Bytes)>, reports: seq<nat>)
    requires var p := |Image(0, recs)|; HEADER + |next| < |torn| <= Avail(p)
    ensures var before := Image(0, recs); var after := before + TornHeader(|before|, torn);
      && Grown(before, after, Frags(|before|, torn, true), false)
    ensures FirstOf(got, recs, |recs|) && |got| == |recs|
  {
    hide Image, Due, Behind, Agrees, Ends, Physical;
    var before := Image(0, recs);
    var p := |before|;
    var file := before + TornHeader(p, torn) + Physical(FULL, next);
    TornEnds(before, torn, next);
    BeginsLikeLog(recs, TornHeader(p, torn) + Physical(FULL, next));
    assert file == before + (TornHeader(p, torn) + Physical(FULL, next));
    got, reports := Reader.ReadAll(file, true, 0, recs);
    WholeLogDue(file, recs);
  }

  /** What is there of a record when everything behind its header is missing. */
  function TornHeader(p: nat, torn: Bytes): Bytes
    requires |torn| < BLOCK
  {
    Pad(p) + Physical(FULL, torn)[..HEADER]
  }

  lemma BeginsLikeLog(recs: seq<Bytes>, more: Bytes)
    ensures Agrees(Image(0, recs) + more, 0, Image(0, recs))
  {
    hide Image;
  }

  /** All of a log that is there whole is due. */
  lemma WholeLogDue(file: Bytes, recs: seq<Bytes>)
    requires Agrees(file, 0, Image(0, recs)) && |Image(0, recs)| <= |file|
    ensures FirstOf(Due(file, 0, recs, 0), recs, |recs|)
  {
    hide Image, Due, Start, Behind;
    assert recs[..|recs|] == recs;
    var n := DueIsPrefix(file, 0, recs);
    if n < |recs| {
      BehindIsImage(0, recs, n + 1);
      ImageGrows(recs, n + 1, |recs|);
    }
  }

  lemma WholeFrag(p: nat, data: Bytes)
    requires |data| <= Avail(p) && |data| < BLOCK
    ensures Frags(p, data, true) == Pad(p) + Physical(FULL, data)
  {
    hide Physical, Start, Avail, Pad;
    FragsSplit(p, data, true);
    assert data[..|data|] == data;
  }

  lemma PrefixOfBoth(before: Bytes, pad: Bytes, whole: Bytes, n: nat)
    requires n <= |whole|
    ensures before <= before + (pad + whole[..n]) <= before + (pad + whole)
  {
    assert whole == whole[..n] + whole[n..];
    assert before + (pad + whole) == (before + (pad + whole[..n])) + whole[n..];
  }

  lemma TornGrown(before: Bytes, torn: Bytes)
    requires |torn| <= Avail(|before|) && |torn| < BLOCK
    ensures Grown(before, before + TornHeader(|before|, torn), Frags(|before|, torn, true), false)
  {
    hide Physical, Start, Avail, Pad, Frags;
    WholeFrag(|before|, torn);
    PrefixOfBoth(before, Pad(|before|), Physical(FULL, torn), HEADER);
  }

  lemma TornLength(before: Bytes, torn: Bytes, more: Bytes)
    requires |torn| < BLOCK
    ensures var file := before + TornHeader(|before|, torn) + more; var s := Start(|before|);
      && s + HEADER + |more| == |file| && Length(file[s..]) == |torn|
  {
    var file, s := before + TornHeader(|before|, torn) + more, Start(|before|);
    HeaderOf(FULL, torn);
    hide Physical, Start, Pad;
    var header := Physical(FULL, torn)[..HEADER];
    assert file == (before + Pad(|before|)) + (header + more);
    assert file[s..] == header + more;
  }

  lemma TornEnds(before: Bytes, torn: Bytes, next: Bytes)
    requires HEADER + |next| < |torn| <= Avail(|before|)
    ensures var after := before + TornHeader(|before|, torn);
      Ends(after + Physical(FULL, next), |before|) && Grown(before, after, Frags(|before|, torn, true), false)
  {
    TornGrown(before, torn);
    TornLength(before, torn, Physical(FULL, next));
    hide Grown, Frags, TornHeader, Physical, Start, Length;
  }
}
