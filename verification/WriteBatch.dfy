/**
  Write batches as bytes (db/write_batch.cc): sequence number, count, and the updates one after
  the other.
 */
module WriteBatches {
  import opened Coding

  datatype Update = Put(key: Bytes, value: Bytes) | Delete(key: Bytes)

  /** An update with its sequence number. */
  datatype Added = Added(sn: nat, update: Update)

  const HEADER: nat := 12
  const TYPE_DELETION: Byte := 0
  const TYPE_VALUE: Byte := 1

  // ----- the format -----

  function UpdateBytes(u: Update): (b: Bytes)
    ensures |b| >= 1
  {
    match u
    case Put(k, v) => [TYPE_VALUE] + Prefixed(k) + Prefixed(v)
    case Delete(k) => [TYPE_DELETION] + Prefixed(k)
  }

  function AllBytes(us: seq<Update>): Bytes {
    if us == [] then [] else AllBytes(us[..|us| - 1]) + UpdateBytes(us[|us| - 1])
  }

  lemma {:induction false} AllBytesConcat(us: seq<Update>, ws: seq<Update>)
    ensures AllBytes(us + ws) == AllBytes(us) + AllBytes(ws)
    decreases |ws|
  {
    hide UpdateBytes;
    if ws == [] {
      assert us + ws == us;
    } else {
      var n := |ws| - 1;
      AllBytesConcat(us, ws[..n]);
      assert (us + ws)[..|us + ws| - 1] == us + ws[..n];
    }
  }

  /** Strings whose length is not cut when it is written. */
  predicate Fits(u: Update) {
    |u.key| < 0x1_0000_0000 && (u.Put? ==> |u.value| < 0x1_0000_0000)
  }

  // ----- reading -----

  function ParseOne(b: Bytes): (r: Parsed<Update>)
    requires b != []
    ensures r.Got? ==> |r.rest| < |b|
  {
    if b[0] == TYPE_VALUE then
      match GetSlice(b[1..])
      case Fail => Fail
      case Got(k, rest) =>
        (match GetSlice(rest)
         case Fail => Fail
         case Got(v, rest') => Got(Put(k, v), rest'))
    else if b[0] == TYPE_DELETION then
      match GetSlice(b[1..])
      case Fail => Fail
      case Got(k, rest) => Got(Delete(k), rest)
    else Fail
  }

  /** The updates that can be read off a string of bytes, and whether they are all of it. */
  datatype Contents = Contents(updates: seq<Update>, whole: bool)

  function Parse(b: Bytes): Contents
    decreases |b|
  {
    if b == [] then Contents([], true)
    else
      match ParseOne(b)
      case Fail => Contents([], false)
      case Got(u, rest) => Contents([u] + Parse(rest).updates, Parse(rest).whole)
  }

  lemma OneRoundTrip(u: Update, rest: Bytes)
    requires Fits(u)
    ensures ParseOne(UpdateBytes(u) + rest) == Got(u, rest)
  {
    hide Prefixed, GetSlice;
    var b := UpdateBytes(u) + rest;
    match u
    case Put(k, v) =>
      assert b[1..] == Prefixed(k) + (Prefixed(v) + rest);
      SliceRoundTrip(k, Prefixed(v) + rest);
      SliceRoundTrip(v, rest);
    case Delete(k) =>
      assert b[1..] == Prefixed(k) + rest;
      SliceRoundTrip(k, rest);
  }

  /** Reading what was written gives back the updates, in order, and nothing is left over. */
  lemma {:induction false} BatchRoundTrip(us: seq<Update>)
    requires forall u :: u in us ==> Fits(u)
    ensures Parse(AllBytes(us)) == Contents(us, true)
    decreases |us|
  {
    hide UpdateBytes, ParseOne;
    if us != [] {
      AllBytesConcat([us[0]], us[1..]);
      AllBytesOne(us[0]);
      assert [us[0]] + us[1..] == us;
      OneRoundTrip(us[0], AllBytes(us[1..]));
      BatchRoundTrip(us[1..]);
    }
  }

  /** A record that begins with anything but the two tags ends the batch: what came before is replayed, and then it is
      corrupt. */
  lemma {:induction false} UnknownTagStops(us: seq<Update>, tag: Byte, rest: Bytes)
    requires (forall u :: u in us ==> Fits(u)) && tag >= 2
    ensures Parse(AllBytes(us) + [tag] + rest) == Contents(us, false)
    decreases |us|
  {
    hide UpdateBytes;
    if us != [] {
      AllBytesConcat([us[0]], us[1..]);
      AllBytesOne(us[0]);
      assert [us[0]] + us[1..] == us;
      var tail := AllBytes(us[1..]) + [tag] + rest;
      assert AllBytes(us) + [tag] + rest == UpdateBytes(us[0]) + tail;
      OneRoundTrip(us[0], tail);
      hide ParseOne, AllBytes;
      UnknownTagStops(us[1..], tag, rest);
    } else {
      assert AllBytes(us) + [tag] + rest == [tag] + rest;
    }
  }

  lemma AllBytesOne(u: Update)
    ensures AllBytes([u]) == UpdateBytes(u)
  {
    hide UpdateBytes;
    assert [u][..0] == [];
  }

  /** InsertInto numbers the updates it replays from the batch's sequence number on. */
  function Numbered(sn: nat, us: seq<Update>): seq<Added> {
    seq(|us|, i requires 0 <= i < |us| => Added(sn + i, us[i]))
  }

  function Header(sn: Long, count: Word): (b: Bytes)
    ensures |b| == HEADER
  {
    Fixed64(sn) + Fixed32(count)
  }

  lemma HeaderReads(sn: Long, count: Word, data: Bytes)
    ensures var b := Header(sn, count) + data;
      && DecodeFixed64(b) == sn && DecodeFixed32(b[8..]) == count && b[HEADER..] == data
      && (forall n: Word :: b[..8] + Fixed32(n) + b[HEADER..] == Header(sn, n) + data)
      && (forall s: Long :: Fixed64(s) + b[8..] == Header(s, count) + data)
  {
    hide Fixed64, Fixed32;
    var b := Header(sn, count) + data;
    assert b == Fixed64(sn) + (Fixed32(count) + data);
    Fixed64RoundTrip(sn, Fixed32(count) + data);
    Fixed32RoundTrip(count);
    assert b[8..] == Fixed32(count) + data;
    DecodePrefix(b[8..], 4);
    assert b[8..][..4] == Fixed32(count) && b[..8] == Fixed64(sn) && b[HEADER..] == data;
  }

  /** The handler InsertInto hands to Iterate. */
  class MemTableInserter {
    var sequence: nat
    var added: seq<Added>

    constructor (sequence: nat)
      ensures this.sequence == sequence && added == []
    {
      this.sequence, added := sequence, [];
    }

    method Add(u: Update)
      modifies this
      ensures added == old(added) + [Added(old(sequence), u)] && sequence == old(sequence) + 1
    {
      added := added + [Added(sequence, u)];
      sequence := sequence + 1;
    }
  }

  class WriteBatch {
    var rep: Bytes

    /** The batch holds these updates; the count is kept in 32 bits. */
    ghost predicate Holds(sn: Long, us: seq<Update>)
      reads this
    {
      rep == Header(sn, |us| % 0x1_0000_0000) + AllBytes(us)
    }

    constructor ()
      ensures Holds(0, [])
    {
      rep := [0, 0, 0, 0, 0, 0, 0, 0, 0, 0, 0, 0];
    }

    method Clear()
      modifies this
      ensures Holds(0, [])
    {
      rep := [0, 0, 0, 0, 0, 0, 0, 0, 0, 0, 0, 0];
    }

    function Count(): Word
      requires |rep| >= HEADER
      reads this
    {
      DecodeFixed32(rep[8..])
    }

    function Sequence(): Long
      requires |rep| >= HEADER
      reads this
    {
      DecodeFixed64(rep)
    }

    method SetCount(n: nat)
      requires |rep| >= HEADER
      modifies this
      ensures rep == old(rep)[..8] + Fixed32(n % 0x1_0000_0000) + old(rep)[HEADER..]
    {
      hide Fixed32;
      rep := rep[..8] + Fixed32(n % 0x1_0000_0000) + rep[HEADER..];
    }

    method SetSequence(sn: Long, ghost was: Long, ghost us: seq<Update>)
      requires Holds(was, us)
      modifies this
      ensures Holds(sn, us)
    {
      hide Fixed64, Fixed32, Header, AllBytes;
      HeaderReads(was, |us| % 0x1_0000_0000, AllBytes(us));
      rep := Fixed64(sn) + rep[8..];
    }

    method SetContents(contents: Bytes)
      requires |contents| >= HEADER
      modifies this
      ensures rep == contents
    {
      rep := contents;
    }

    method Put(key: Bytes, value: Bytes, ghost sn: Long, ghost us: seq<Update>)
      requires Holds(sn, us)
      modifies this
      ensures Holds(sn, us + [Update.Put(key, value)])
    {
      hide Fixed32, Header, AllBytes, Prefixed, DecodeFixed32;
      HeaderReads(sn, |us| % 0x1_0000_0000, AllBytes(us));
      OneMore(us, Update.Put(key, value));
      SetCount(Count() + 1);
      rep := rep + [TYPE_VALUE];
      rep := rep + Prefixed(key);
      rep := rep + Prefixed(value);
    }

    method Delete(key: Bytes, ghost sn: Long, ghost us: seq<Update>)
      requires Holds(sn, us)
      modifies this
      ensures Holds(sn, us + [Update.Delete(key)])
    {
      hide Fixed32, Header, AllBytes, Prefixed, DecodeFixed32;
      HeaderReads(sn, |us| % 0x1_0000_0000, AllBytes(us));
      OneMore(us, Update.Delete(key));
      SetCount(Count() + 1);
      rep := rep + [TYPE_DELETION];
      rep := rep + Prefixed(key);
    }

    /** Appending a batch appends its updates; the sequence number of the source is not used. */
    method Append(source: WriteBatch, ghost sn: Long, ghost us: seq<Update>, ghost s: Long, ghost ws: seq<Update>)
      requires Holds(sn, us) && source.Holds(s, ws)
      modifies this
      ensures Holds(sn, us + ws)
    {
      hide Fixed32, Fixed64, Header, AllBytes, DecodeFixed32, DecodeFixed64;
      HeaderReads(sn, |us| % 0x1_0000_0000, AllBytes(us));
      HeaderReads(s, |ws| % 0x1_0000_0000, AllBytes(ws));
      AllBytesConcat(us, ws);
      assert source.rep[HEADER..] == AllBytes(ws);
      SetCount(Count() + source.Count());
      assert rep == Header(sn, |us + ws| % 0x1_0000_0000) + AllBytes(us);
      assert source.rep[HEADER..] == AllBytes(ws);
      rep := rep + source.rep[HEADER..];
    }

    /** The switch on the tag of an update. */
    static method ReadUpdate(b: Bytes) returns (r: Parsed<Update>)
      requires b != []
      ensures r == ParseOne(b)
    {
      hide GetSlice;
      var tag := b[0];
      var input := b[1..];
      if tag == TYPE_VALUE {
        var key := GetSlice(input);
        if key.Fail? {
          return Fail;
        }
        var value := GetSlice(key.rest);
        if value.Fail? {
          return Fail;
        }
        return Got(Update.Put(key.value, value.value), value.rest);
      } else if tag == TYPE_DELETION {
        var key := GetSlice(input);
        if key.Fail? {
          return Fail;
        }
        return Got(Update.Delete(key.value), key.rest);
      } else {
        return Fail;
      }
    }

    /** Replay the updates on the handler; those before a fault have been replayed when it is found. */
    method Iterate(handler: MemTableInserter) returns (ok: bool)
      modifies handler
      ensures |rep| < HEADER ==> !ok && handler.added == old(handler.added)
      ensures |rep| >= HEADER ==> var c := Parse(rep[HEADER..]);
        && Delivered(old(handler.added), old(handler.sequence), c.updates, handler.added)
        && ok == (c.whole && |c.updates| == Count())
    {
      hide Parse, Delivered, DecodeFixed32;
      if |rep| < HEADER {
        return false;
      }
      var found;
      ok, found := Replay(rep[HEADER..], handler);
      if ok && found != Count() {
        ok := false;
      }
    }

    /** Iterate's loop. */
    static method Replay(data: Bytes, handler: MemTableInserter) returns (ok: bool, found: nat)
      modifies handler
      ensures Delivered(old(handler.added), old(handler.sequence), Parse(data).updates, handler.added)
      ensures ok == Parse(data).whole && (ok ==> found == |Parse(data).updates|)
    {
      hide ParseOne, Parse, Replayed, Delivered;
      var input := data;
      ghost var before, first, done: seq<Update> := handler.added, handler.sequence, [];
      found := 0;
      NoneYet(data, before, first);
      while input != []
        invariant found == |done| && handler.sequence == first + found
        invariant Replayed(data, done, input, before, first, handler.added)
        decreases |input|
      {
        ParseStep(data, done, input, before, first, handler.added);
        found := found + 1;
        var r := ReadUpdate(input);
        if r.Fail? {
          return false, found;
        }
        handler.Add(r.value);
        done := done + [r.value];
        input := r.rest;
      }
      ParseEnd(data, done, before, first, handler.added);
      ok := true;
    }

    /** InsertInto: what a batch holds arrives in the memtable, in order, numbered consecutively. */
    method InsertInto(ghost sn: Long, ghost us: seq<Update>) returns (ok: bool, added: seq<Added>)
      requires |rep| >= HEADER
      ensures Holds(sn, us) && |us| < 0x1_0000_0000 && (forall u :: u in us ==> Fits(u))
        ==> ok && added == Numbered(sn, us)
    {
      hide Fixed64, Fixed32, Header, AllBytes, DecodeFixed32, DecodeFixed64, Parse;
      if Holds(sn, us) && |us| < 0x1_0000_0000 && forall u :: u in us ==> Fits(u) {
        HeaderReads(sn, |us|, AllBytes(us));
        BatchRoundTrip(us);
      }
      var inserter := new MemTableInserter(Sequence());
      ok := Iterate(inserter);
      added := inserter.added;
    }
  }

  lemma OneMore(us: seq<Update>, u: Update)
    ensures AllBytes(us + [u]) == AllBytes(us) + UpdateBytes(u)
    ensures ((|us| % 0x1_0000_0000) + 1) % 0x1_0000_0000 == |us + [u]| % 0x1_0000_0000
  {
    hide UpdateBytes;
    AllBytesOne(u);
    AllBytesConcat(us, [u]);
    hide AllBytes;
  }

  /** These updates, numbered from `sn` on, have been added. */
  ghost predicate Delivered(before: seq<Added>, sn: nat, us: seq<Update>, after: seq<Added>) {
    after == before + Numbered(sn, us)
  }

  /** `done` has been replayed, `input` is still to come. */
  ghost predicate Replayed(data: Bytes, done: seq<Update>, input: Bytes, before: seq<Added>, sn: nat,
    added: seq<Added>) {
    && Parse(data).updates == done + Parse(input).updates && Parse(data).whole == Parse(input).whole
    && Delivered(before, sn, done, added)
  }

  lemma NoneYet(data: Bytes, before: seq<Added>, sn: nat)
    ensures Replayed(data, [], data, before, sn, before)
  {
    hide Parse;
  }

  lemma ParseEnd(data: Bytes, done: seq<Update>, before: seq<Added>, sn: nat, added: seq<Added>)
    requires Replayed(data, done, [], before, sn, added)
    ensures Parse(data).updates == done && Parse(data).whole && Delivered(before, sn, done, added)
  {
  }

  lemma ParseStep(data: Bytes, done: seq<Update>, b: Bytes, before: seq<Added>, sn: nat, added: seq<Added>)
    requires b != [] && Replayed(data, done, b, before, sn, added)
    ensures ParseOne(b).Fail?
      ==> Parse(data).updates == done && !Parse(data).whole && Delivered(before, sn, done, added)
    ensures ParseOne(b).Got? ==> var u := ParseOne(b).value;
      Replayed(data, done + [u], ParseOne(b).rest, before, sn, added + [Added(sn + |done|, u)])
  {
    hide ParseOne;
    if ParseOne(b).Got? {
      var u, rest := ParseOne(b).value, Parse(ParseOne(b).rest).updates;
      assert done + ([u] + rest) == (done + [u]) + rest;
      assert before + Numbered(sn, done + [u]) == (before + Numbered(sn, done)) + [Added(sn + |done|, u)];
    }
  }
}
