/**
  The format of the write-ahead log (db/log_format.h): blocks of 32 KB holding physical records,
  a logical record being one of them or a run of fragments.
 */
module LogFormat {
  import opened Coding

  const BLOCK: nat := 32768
  const HEADER: nat := 7

  // record types
  const ZERO: Byte := 0
  const FULL: Byte := 1
  const FIRST: Byte := 2
  const MIDDLE: Byte := 3
  const LAST: Byte := 4

  // what the reader returns besides
  const EOF: Byte := 5
  const BAD: Byte := 6

  /** Where the next physical record after `off` starts: fewer than seven bytes of a block are
      left as trailer. */
  function Start(off: nat): (s: nat)
    ensures off <= s < off + HEADER
  {
    if BLOCK - off % BLOCK < HEADER then off + (BLOCK - off % BLOCK) else off
  }

  /** The payload bytes left in the block of the next physical record. */
  function Avail(off: nat): (n: nat) {
    BLOCK - Start(off) % BLOCK - HEADER
  }

  function Take(off: nat, left: nat): (n: nat)
    ensures n <= left && n <= Avail(off) && n < BLOCK
  {
    if left < Avail(off) then left else Avail(off)
  }

  /** Where a fragment ends: at the end of its block if it is not the last one. */
  function After(off: nat, left: nat): (e: nat)
    ensures Take(off, left) < left ==> e % BLOCK == 0 && Avail(e) > 0
  {
    Start(off) + HEADER + Take(off, left)
  }

  function KindOf(begin: bool, end: bool): Byte {
    if begin && end then FULL else if begin then FIRST else if end then LAST else MIDDLE
  }

  function Physical(kind: Byte, payload: Bytes): (b: Bytes)
    requires |payload| < 0x1_0000
    ensures |b| == HEADER + |payload|
  {
    Fixed32(Mask(Crc([kind] + payload))) + [|payload| % 256, |payload| / 256, kind] + payload
  }

  /** The trailer of a block, filled with zeros. */
  function Pad(off: nat): (b: Bytes)
    ensures |b| == Start(off) - off
  {
    seq(Start(off) - off, _ => 0)
  }

  /** The next fragment of `data`, with the trailer it may have to skip first. */
  function Frag(off: nat, data: Bytes, begin: bool): (b: Bytes)
    ensures off + |b| == After(off, |data|)
  {
    var n := Take(off, |data|);
    Pad(off) + Physical(KindOf(begin, n == |data|), data[..n])
  }

  /** A logical record, or the rest of one, written at offset `off`. */
  function Frags(off: nat, data: Bytes, begin: bool): (b: Bytes)
    ensures |b| >= Start(off) - off + HEADER
    decreases |data|, if Avail(off) == 0 then 1 else 0
  {
    Frag(off, data, begin)
    + if Take(off, |data|) == |data| then [] else Frags(After(off, |data|), data[Take(off, |data|)..], false)
  }

  /** What follows the first fragment. */
  function FragRest(off: nat, data: Bytes): Bytes {
    if Take(off, |data|) == |data| then [] else Frags(After(off, |data|), data[Take(off, |data|)..], false)
  }

  lemma FragsSplit(off: nat, data: Bytes, begin: bool)
    ensures Frags(off, data, begin) == Frag(off, data, begin) + FragRest(off, data)
    ensures off + |Frags(off, data, begin)| == After(off, |data|) + |FragRest(off, data)|
  {
  }

  /** The whole log from offset `off` on. */
  function Image(off: nat, recs: seq<Bytes>): Bytes
    decreases |recs|
  {
    if recs == [] then []
    else
      var b := Frags(off, recs[0], true);
      b + Image(off + |b|, recs[1..])
  }

  lemma {:induction false} ImageAppend(off: nat, recs: seq<Bytes>, r: Bytes)
    ensures Image(off, recs + [r]) == Image(off, recs) + Frags(off + |Image(off, recs)|, r, true)
    decreases |recs|
  {
    hide Frags, Start;
    if recs == [] {
      assert (recs + [r])[1..] == [] && Image(off + |Frags(off, r, true)|, []) == [];
    } else {
      var b := Frags(off, recs[0], true);
      ImageAppend(off + |b|, recs[1..], r);
      assert (recs + [r])[1..] == recs[1..] + [r];
    }
  }

  // ----- reading -----

  /** As far as both go, `file` continues at `p` with `bytes`. */
  ghost predicate Agrees(file: Bytes, p: nat, bytes: Bytes) {
    forall k :: p <= k < |file| && k < p + |bytes| ==> file[k] == bytes[k - p]
  }

  lemma AgreesRest(file: Bytes, p: nat, a: Bytes, b: Bytes)
    requires Agrees(file, p, a + b)
    ensures Agrees(file, p + |a|, b) && forall k :: p <= k < |file| && k < p + |a| ==> file[k] == a[k - p]
  {
    forall k | p + |a| <= k < |file| && k < p + |a| + |b| ensures file[k] == b[k - p - |a|] {
      assert file[k] == (a + b)[k - p];
    }
  }

  function Length(header: Bytes): nat
    requires |header| >= HEADER
  {
    var low: int, high: int := header[4], header[5];
    low + 256 * high
  }

  /** A reader at `p` meets the end of the file: no header fits, or the header there announces
      more than is left of the file's last, incomplete block. */
  ghost predicate Ends(file: Bytes, p: nat) {
    var s := Start(p);
    || |file| < s + HEADER
    || (|file| < s - s % BLOCK + BLOCK && |file| < s + HEADER + Length(file[s..]))
  }

  /** The file is a log, cut off somewhere or not, and nothing else. */
  ghost predicate IsCut(file: Bytes, recs: seq<Bytes>) {
    Agrees(file, 0, Image(0, recs)) && |file| <= |Image(0, recs)|
  }

  /** Where in the log a reader stands: behind everything, or before the first (`begin`) or a
      later fragment of a record that began at `start`. */
  datatype Place = End | At(start: nat, rest: Bytes, begin: bool, later: seq<Bytes>)

  function Before(p: nat, recs: seq<Bytes>): Place {
    if recs == [] then End else At(Start(p), recs[0], true, recs[1..])
  }

  function Ahead(p: nat, pl: Place): Bytes {
    match pl
    case End => []
    case At(_, rest, begin, later) => var b := Frags(p, rest, begin); b + Image(p + |b|, later)
  }

  ghost predicate Stands(file: Bytes, p: nat, pl: Place) {
    Agrees(file, p, Ahead(p, pl)) && (pl.At? ==> pl.start <= Start(p) && (pl.begin <==> pl.start == Start(p)))
  }

  /** The records that start at `initial` or later and are complete in the file, with their offsets. */
  function Due(file: Bytes, p: nat, recs: seq<Bytes>, initial: nat): seq<(nat, Bytes)>
    decreases |recs|
  {
    if recs == [] then []
    else
      var e := p + |Frags(p, recs[0], true)|;
      if e > |file| then []
      else (if Start(p) >= initial then [(Start(p), recs[0])] else []) + Due(file, e, recs[1..], initial)
  }

  /** A record, or the rest of one, has a fragment that begins at `initial` or behind it and is complete. */
  predicate FragmentFrom(file: Bytes, p: nat, data: Bytes, initial: nat)
    decreases |data|, if Avail(p) == 0 then 1 else 0
  {
    || (Start(p) >= initial && After(p, |data|) <= |file|)
    || (Take(p, |data|) < |data| && FragmentFrom(file, After(p, |data|), data[Take(p, |data|)..], initial))
  }

  /** A record that begins before `initial` has such a fragment. */
  predicate Late(file: Bytes, p: nat, recs: seq<Bytes>, initial: nat)
    decreases |recs|
  {
    && recs != []
    && ((Start(p) < initial && FragmentFrom(file, p, recs[0], initial))
        || Late(file, p + |Frags(p, recs[0], true)|, recs[1..], initial))
  }

  /** The offset behind the first `i` records. */
  function Behind(p: nat, recs: seq<Bytes>, i: nat): nat
    requires i <= |recs|
    decreases |recs|
  {
    if i == 0 then p else Behind(p + |Frags(p, recs[0], true)|, recs[1..], i - 1)
  }

  lemma {:induction false} BehindIsImage(p: nat, recs: seq<Bytes>, i: nat)
    requires i <= |recs|
    ensures Behind(p, recs, i) == p + |Image(p, recs[..i])|
    decreases |recs|
  {
    hide Frags, Start;
    if i != 0 {
      BehindIsImage(p + |Frags(p, recs[0], true)|, recs[1..], i - 1);
      assert recs[..i][1..] == recs[1..][..i - 1];
    }
  }

  /** For a reader that starts at offset 0 of a byte prefix of a log: what is due is the longest
      list of records that lies in the file whole, each with its offset. */
  lemma {:induction false} DueIsPrefix(file: Bytes, p: nat, recs: seq<Bytes>) returns (n: nat)
    requires Agrees(file, p, Image(p, recs)) && p <= |file|
    ensures n <= |recs| && |Due(file, p, recs, 0)| == n
    ensures forall i :: 0 <= i < n ==> Due(file, p, recs, 0)[i] == (Start(Behind(p, recs, i)), recs[i])
    ensures Behind(p, recs, n) <= |file| && (n < |recs| ==> |file| < Behind(p, recs, n + 1))
    ensures |file| == p + |Image(p, recs)| ==> n == |recs|
    decreases |recs|
  {
    hide Frags, Start;
    n := 0;
    if recs != [] {
      var b := Frags(p, recs[0], true);
      var e := p + |b|;
      if e <= |file| {
        AgreesRest(file, p, b, Image(e, recs[1..]));
        hide Agrees;
        var m := DueIsPrefix(file, e, recs[1..]);
        n := m + 1;
      }
    }
  }
}
