/**
  Version edits as bytes (db/version_edit.h, db/version_edit.cc): tagged fields one after the
  other, the records of the descriptor file.
 */
module VersionEdits {
  import opened Format
  import opened Coding

  const NUM_LEVELS: nat := 7

  datatype File = File(number: Long, size: Long, smallest: Bytes, largest: Bytes)

  datatype Counter = LogNumber | PrevLogNumber | NextFileNumber | LastSequence

  datatype Field =
    | Comparator(name: Bytes)
    | Number(which: Counter, n: Long)
    | CompactPointer(level: Word, key: Bytes)
    | DeletedFile(level: Word, n: Long)
    | NewFile(level: Word, file: File)

  /** The contents of an edit; None for a name or number that is not set. */
  datatype Edit = Edit(
    comparator: Option<Bytes>, logNumber: Option<Long>, prevLogNumber: Option<Long>, nextFile: Option<Long>,
    lastSequence: Option<Long>, pointers: seq<(Word, Bytes)>, deleted: set<(Word, Long)>, added: seq<(Word, File)>)

  // ----- the format -----

  function CounterTag(c: Counter): Word {
    match c
    case LogNumber => 2
    case PrevLogNumber => 9
    case NextFileNumber => 3
    case LastSequence => 4
  }

  function FileBytes(f: File): Bytes {
    Varint(f.number) + (Varint(f.size) + (Prefixed(f.smallest) + Prefixed(f.largest)))
  }

  function FieldBytes(f: Field): (b: Bytes)
    ensures |b| >= 1
  {
    match f
    case Comparator(name) => Varint(1) + Prefixed(name)
    case Number(c, n) => Varint(CounterTag(c)) + Varint(n)
    case CompactPointer(level, key) => Varint(5) + (Varint(level) + Prefixed(key))
    case DeletedFile(level, n) => Varint(6) + (Varint(level) + Varint(n))
    case NewFile(level, file) => Varint(7) + (Varint(level) + FileBytes(file))
  }

  function AllFields(fs: seq<Field>): Bytes {
    if fs == [] then [] else AllFields(fs[..|fs| - 1]) + FieldBytes(fs[|fs| - 1])
  }

  function SetNumber(c: Counter, n: Option<Long>): seq<Field> {
    if n.Some? then [Number(c, n.value)] else []
  }

  function Heading(e: Edit): seq<Field> {
    (if e.comparator.Some? then [Comparator(e.comparator.value)] else [])
    + SetNumber(LogNumber, e.logNumber) + SetNumber(PrevLogNumber, e.prevLogNumber)
    + SetNumber(NextFileNumber, e.nextFile) + SetNumber(LastSequence, e.lastSequence)
  }

  function Pointers(ps: seq<(Word, Bytes)>): seq<Field> {
    seq(|ps|, i requires 0 <= i < |ps| => CompactPointer(ps[i].0, ps[i].1))
  }

  function Deletions(ds: seq<(Word, Long)>): seq<Field> {
    seq(|ds|, i requires 0 <= i < |ds| => DeletedFile(ds[i].0, ds[i].1))
  }

  function Additions(fs: seq<(Word, File)>): seq<Field> {
    seq(|fs|, i requires 0 <= i < |fs| => NewFile(fs[i].0, fs[i].1))
  }

  /** The fields EncodeTo writes, in its order; `ds` lists the deleted files. */
  function Fields(e: Edit, ds: seq<(Word, Long)>): seq<Field> {
    Heading(e) + Pointers(e.pointers) + Deletions(ds) + Additions(e.added)
  }

  // ----- reading -----

  function GetLevel(b: Bytes): (r: Parsed<Word>)
    ensures r.Got? ==> |r.rest| < |b|
  {
    match Get32(b)
    case Fail => Fail
    case Got(level, rest) => if level < NUM_LEVELS then Got(level, rest) else Fail
  }

  function GetNumber(c: Counter, b: Bytes): (r: Parsed<Field>)
    ensures r.Got? ==> |r.rest| < |b|
  {
    match Get64(b)
    case Fail => Fail
    case Got(n, rest) => Got(Number(c, n), rest)
  }

  function GetFile(b: Bytes): (r: Parsed<File>)
    ensures r.Got? ==> |r.rest| < |b|
  {
    match Get64(b)
    case Fail => Fail
    case Got(number, b1) =>
      (match Get64(b1)
       case Fail => Fail
       case Got(size, b2) =>
         (match GetSlice(b2)
          case Fail => Fail
          case Got(smallest, b3) =>
            (match GetSlice(b3)
             case Fail => Fail
             case Got(largest, b4) => Got(File(number, size, smallest, largest), b4))))
  }

  function GetBody(tag: Word, b: Bytes): (r: Parsed<Field>)
    ensures r.Got? ==> |r.rest| < |b|
  {
    if tag == 1 then
      match GetSlice(b) case Fail => Fail case Got(name, rest) => Got(Comparator(name), rest)
    else if tag == 2 then GetNumber(LogNumber, b)
    else if tag == 9 then GetNumber(PrevLogNumber, b)
    else if tag == 3 then GetNumber(NextFileNumber, b)
    else if tag == 4 then GetNumber(LastSequence, b)
    else if 5 <= tag <= 7 then
      match GetLevel(b)
      case Fail => Fail
      case Got(level, rest) =>
        if tag == 5 then
          (match GetSlice(rest) case Fail => Fail case Got(key, r) => Got(CompactPointer(level, key), r))
        else if tag == 6 then
          (match Get64(rest) case Fail => Fail case Got(n, r) => Got(DeletedFile(level, n), r))
        else
          (match GetFile(rest) case Fail => Fail case Got(file, r) => Got(NewFile(level, file), r))
    else Fail
  }

  function GetField(b: Bytes): (r: Parsed<Field>)
    ensures r.Got? ==> |r.rest| < |b|
  {
    match Get32(b)
    case Fail => Fail
    case Got(tag, rest) => GetBody(tag, rest)
  }

  // ----- one field -----

  predicate Short(s: Bytes) { |s| < 0x1_0000_0000 }

  /** Strings whose length is not cut when it is written. */
  predicate FieldFits(f: Field) {
    match f
    case Comparator(name) => Short(name)
    case CompactPointer(_, key) => Short(key)
    case NewFile(_, file) => Short(file.smallest) && Short(file.largest)
    case _ => true
  }

  predicate LevelOk(f: Field) {
    f.CompactPointer? || f.DeletedFile? || f.NewFile? ==> f.level < 7
  }

  lemma FileRoundTrip(f: File, rest: Bytes)
    requires Short(f.smallest) && Short(f.largest)
    ensures GetFile(FileBytes(f) + rest) == Got(f, rest)
  {
    hide Get64, GetSlice, Varint, Prefixed;
    var b3 := Prefixed(f.largest) + rest;
    var b2 := Prefixed(f.smallest) + b3;
    var b1 := Varint(f.size) + b2;
    assert FileBytes(f) + rest == Varint(f.number) + b1;
    Get64RoundTrip(f.number, b1);
    Get64RoundTrip(f.size, b2);
    SliceRoundTrip(f.smallest, b3);
    SliceRoundTrip(f.largest, rest);
  }

  lemma LevelRoundTrip(level: Word, rest: Bytes)
    ensures GetLevel(Varint(level) + rest) == if level < NUM_LEVELS then Got(level, rest) else Fail
  {
    hide Get32, Varint;
    Get32RoundTrip(level, rest);
  }

  /** A field is read back as it was written, if its level exists; otherwise not at all. */
  lemma FieldRoundTrip(f: Field, rest: Bytes)
    requires FieldFits(f)
    ensures GetField(FieldBytes(f) + rest) == if LevelOk(f) then Got(f, rest) else Fail
  {
    hide Get32, Get64, GetSlice, GetLevel, GetFile, Varint, Prefixed, FileBytes;
    match f
    case Comparator(name) =>
      assert FieldBytes(f) + rest == Varint(1) + (Prefixed(name) + rest);
      Get32RoundTrip(1, Prefixed(name) + rest);
      SliceRoundTrip(name, rest);
    case Number(c, n) =>
      assert FieldBytes(f) + rest == Varint(CounterTag(c)) + (Varint(n) + rest);
      Get32RoundTrip(CounterTag(c), Varint(n) + rest);
      Get64RoundTrip(n, rest);
    case CompactPointer(level, key) =>
      assert FieldBytes(f) + rest == Varint(5) + (Varint(level) + (Prefixed(key) + rest));
      Get32RoundTrip(5, Varint(level) + (Prefixed(key) + rest));
      LevelRoundTrip(level, Prefixed(key) + rest);
      SliceRoundTrip(key, rest);
    case DeletedFile(level, n) =>
      assert FieldBytes(f) + rest == Varint(6) + (Varint(level) + (Varint(n) + rest));
      Get32RoundTrip(6, Varint(level) + (Varint(n) + rest));
      LevelRoundTrip(level, Varint(n) + rest);
      Get64RoundTrip(n, rest);
    case NewFile(level, file) =>
      assert FieldBytes(f) + rest == Varint(7) + (Varint(level) + (FileBytes(file) + rest));
      Get32RoundTrip(7, Varint(level) + (FileBytes(file) + rest));
      LevelRoundTrip(level, FileBytes(file) + rest);
      FileRoundTrip(file, rest);
  }

  /** Any other tag is refused, also the eighth, which is not used any more. */
  lemma UnknownTagRefused(tag: Word, rest: Bytes)
    requires tag == 0 || tag == 8 || tag > 9
    ensures GetField(Varint(tag) + rest) == Fail
  {
    hide Get32, Varint;
    Get32RoundTrip(tag, rest);
  }

  // ----- all fields -----

  /** The fields that can be read off a string of bytes, and whether they are all of it. */
  datatype Contents = Contents(fields: seq<Field>, whole: bool)

  function Parse(b: Bytes): Contents
    decreases |b|
  {
    if b == [] then Contents([], true)
    else
      match GetField(b)
      case Fail => Contents([], false)
      case Got(f, rest) => Contents([f] + Parse(rest).fields, Parse(rest).whole)
  }

  lemma {:induction false} AllFieldsConcat(fs: seq<Field>, gs: seq<Field>)
    ensures AllFields(fs + gs) == AllFields(fs) + AllFields(gs)
    decreases |gs|
  {
    hide FieldBytes;
    if gs == [] {
      assert fs + gs == fs;
    } else {
      var n := |gs| - 1;
      AllFieldsConcat(fs, gs[..n]);
      assert (fs + gs)[..|fs + gs| - 1] == fs + gs[..n];
    }
  }

  lemma AllFieldsOne(f: Field)
    ensures AllFields([f]) == FieldBytes(f)
  {
    hide FieldBytes;
    assert [f][..0] == [];
  }

  ghost predicate AllFit(fs: seq<Field>) {
    forall f :: f in fs ==> FieldFits(f)
  }

  ghost predicate LevelsOk(fs: seq<Field>) {
    forall f :: f in fs ==> LevelOk(f)
  }

  /** Fields written are read back one by one, up to the first one whose level does not exist. */
  lemma {:induction false} FieldsRoundTrip(fs: seq<Field>)
    requires AllFit(fs)
    ensures Parse(AllFields(fs)).whole <==> LevelsOk(fs)
    ensures LevelsOk(fs) ==> Parse(AllFields(fs)).fields == fs
    decreases |fs|
  {
    hide FieldBytes, GetField, FieldFits, LevelOk;
    if fs != [] {
      AllFieldsConcat([fs[0]], fs[1..]);
      AllFieldsOne(fs[0]);
      assert [fs[0]] + fs[1..] == fs;
      FieldRoundTrip(fs[0], AllFields(fs[1..]));
      FieldsRoundTrip(fs[1..]);
      assert LevelsOk(fs) <==> LevelOk(fs[0]) && LevelsOk(fs[1..]);
      hide AllFields;
    }
  }

  // ----- what reading fields does to an edit -----

  function SetCounter(e: Edit, c: Counter, n: Long): Edit {
    match c
    case LogNumber => e.(logNumber := Some(n))
    case PrevLogNumber => e.(prevLogNumber := Some(n))
    case NextFileNumber => e.(nextFile := Some(n))
    case LastSequence => e.(lastSequence := Some(n))
  }

  function ApplyField(e: Edit, f: Field): Edit {
    match f
    case Comparator(name) => e.(comparator := Some(name))
    case Number(c, n) => SetCounter(e, c, n)
    case CompactPointer(level, key) => e.(pointers := e.pointers + [(level, key)])
    case DeletedFile(level, n) => e.(deleted := e.deleted + {(level, n)})
    case NewFile(level, file) => e.(added := e.added + [(level, file)])
  }

  function ApplyAll(e: Edit, fs: seq<Field>): Edit {
    if fs == [] then e else ApplyField(ApplyAll(e, fs[..|fs| - 1]), fs[|fs| - 1])
  }

  /** Clear: everything but the compact pointers. */
  function Cleared(e: Edit): Edit {
    Edit(None, None, None, None, None, e.pointers, {}, [])
  }

  lemma {:induction false} ApplyConcat(e: Edit, fs: seq<Field>, gs: seq<Field>)
    ensures ApplyAll(e, fs + gs) == ApplyAll(ApplyAll(e, fs), gs)
    decreases |gs|
  {
    hide ApplyField;
    if gs == [] {
      assert fs + gs == fs;
    } else {
      var n := |gs| - 1;
      ApplyConcat(e, fs, gs[..n]);
      assert (fs + gs)[..|fs + gs| - 1] == fs + gs[..n];
    }
  }

  lemma ApplyOne(e: Edit, f: Field)
    ensures ApplyAll(e, [f]) == ApplyField(e, f)
  {
    hide ApplyField;
    assert [f][..0] == [];
  }

  lemma ApplyNumber(e: Edit, c: Counter, n: Option<Long>)
    ensures ApplyAll(e, SetNumber(c, n)) == if n.Some? then SetCounter(e, c, n.value) else e
  {
    if n.Some? {
      ApplyOne(e, Number(c, n.value));
    }
  }

  lemma ApplyHeading(e: Edit, x: Edit)
    requires x == Cleared(x)
    ensures ApplyAll(x, Heading(e)) == e.(pointers := x.pointers, deleted := {}, added := [])
  {
    hide ApplyAll, SetNumber;
    var c := if e.comparator.Some? then [Comparator(e.comparator.value)] else [];
    var l, p := SetNumber(LogNumber, e.logNumber), SetNumber(PrevLogNumber, e.prevLogNumber);
    var n, s := SetNumber(NextFileNumber, e.nextFile), SetNumber(LastSequence, e.lastSequence);
    ApplyConcat(x, c + l + p + n, s);
    ApplyConcat(x, c + l + p, n);
    ApplyConcat(x, c + l, p);
    ApplyConcat(x, c, l);
    var x1 := x.(comparator := e.comparator);
    assert ApplyAll(x, c) == x1 by {
      if e.comparator.Some? {
        ApplyOne(x, c[0]);
      } else {
        ApplyNone(x);
      }
    }
    var x2 := x1.(logNumber := e.logNumber);
    var x3 := x2.(prevLogNumber := e.prevLogNumber);
    var x4 := x3.(nextFile := e.nextFile);
    ApplyNumber(x1, LogNumber, e.logNumber);
    ApplyNumber(x2, PrevLogNumber, e.prevLogNumber);
    ApplyNumber(x3, NextFileNumber, e.nextFile);
    ApplyNumber(x4, LastSequence, e.lastSequence);
  }

  lemma ApplyNone(e: Edit)
    ensures ApplyAll(e, []) == e
  {
  }

  lemma {:induction false} ApplyPointers(e: Edit, ps: seq<(Word, Bytes)>)
    ensures ApplyAll(e, Pointers(ps)) == e.(pointers := e.pointers + ps)
  {
    if ps == [] {
      assert e.pointers + ps == e.pointers;
    } else {
      var n := |ps| - 1;
      ApplyPointers(e, ps[..n]);
      assert Pointers(ps)[..n] == Pointers(ps[..n]);
      assert ps[..n] + [(ps[n].0, ps[n].1)] == ps;
      assert e.pointers + ps == (e.pointers + ps[..n]) + [ps[n]];
    }
  }

  lemma {:induction false} ApplyDeletions(e: Edit, ds: seq<(Word, Long)>)
    ensures ApplyAll(e, Deletions(ds)) == e.(deleted := e.deleted + set d | d in ds)
  {
    if ds == [] {
      assert e.deleted + (set d | d in ds) == e.deleted;
    } else {
      var n := |ds| - 1;
      ApplyDeletions(e, ds[..n]);
      assert Deletions(ds) == Deletions(ds[..n]) + [DeletedFile(ds[n].0, ds[n].1)];
      ApplyNext(e, Deletions(ds[..n]), DeletedFile(ds[n].0, ds[n].1));
      hide ApplyAll, Deletions;
      assert (set d | d in ds) == (set d | d in ds[..n]) + {ds[n]};
      assert e.deleted + (set d | d in ds) == e.deleted + (set d | d in ds[..n]) + {ds[n]};
    }
  }

  lemma {:induction false} ApplyAdditions(e: Edit, fs: seq<(Word, File)>)
    ensures ApplyAll(e, Additions(fs)) == e.(added := e.added + fs)
  {
    if fs == [] {
      assert e.added + fs == e.added;
    } else {
      var n := |fs| - 1;
      ApplyAdditions(e, fs[..n]);
      assert Additions(fs)[..n] == Additions(fs[..n]);
      assert fs[..n] + [(fs[n].0, fs[n].1)] == fs;
      assert e.added + fs == (e.added + fs[..n]) + [fs[n]];
    }
  }

  /** Reading the fields of an edit into another one leaves the one written, but behind the compact
      pointers that were there before. */
  lemma ApplyFields(e: Edit, ds: seq<(Word, Long)>, before: Edit)
    requires e.deleted == set d | d in ds
    ensures ApplyAll(Cleared(before), Fields(e, ds)) == e.(pointers := before.pointers + e.pointers)
  {
    hide ApplyAll, Heading, Pointers, Deletions, Additions;
    var x := Cleared(before);
    ApplyConcat(x, Heading(e) + Pointers(e.pointers) + Deletions(ds), Additions(e.added));
    ApplyConcat(x, Heading(e) + Pointers(e.pointers), Deletions(ds));
    ApplyConcat(x, Heading(e), Pointers(e.pointers));
    ApplyHeading(e, x);
    var x1 := e.(pointers := before.pointers, deleted := {}, added := []);
    ApplyPointers(x1, e.pointers);
    var x2 := x1.(pointers := before.pointers + e.pointers);
    ApplyDeletions(x2, ds);
    var x3 := x2.(deleted := e.deleted);
    assert {} + e.deleted == e.deleted;
    ApplyAdditions(x3, e.added);
    assert [] + e.added == e.added;
  }

  // ----- round trip -----

  /** Every string an edit holds is short enough for its length prefix. */
  ghost predicate EditFits(e: Edit) {
    && (e.comparator.Some? ==> Short(e.comparator.value))
    && (forall p :: p in e.pointers ==> Short(p.1))
    && (forall f :: f in e.added ==> Short(f.1.smallest) && Short(f.1.largest))
  }

  /** Every level an edit names exists. */
  ghost predicate EditLevelsOk(e: Edit) {
    && (forall p :: p in e.pointers ==> p.0 < 7)
    && (forall d :: d in e.deleted ==> d.0 < 7)
    && (forall f :: f in e.added ==> f.0 < 7)
  }

  lemma FitConcat(fs: seq<Field>, gs: seq<Field>)
    ensures AllFit(fs + gs) <==> AllFit(fs) && AllFit(gs)
    ensures LevelsOk(fs + gs) <==> LevelsOk(fs) && LevelsOk(gs)
  {
    hide FieldFits, LevelOk;
    assert forall f :: f in fs + gs <==> f in fs || f in gs;
  }

  lemma HeadingFits(e: Edit)
    requires EditFits(e)
    ensures AllFit(Heading(e)) && LevelsOk(Heading(e))
  {
    forall f | f in Heading(e) ensures FieldFits(f) && LevelOk(f) { }
  }

  lemma PointersFit(ps: seq<(Word, Bytes)>)
    ensures AllFit(Pointers(ps)) <==> forall p :: p in ps ==> Short(p.1)
    ensures LevelsOk(Pointers(ps)) <==> forall p :: p in ps ==> p.0 < NUM_LEVELS
  {
    var fs := Pointers(ps);
    forall p | p in ps ensures CompactPointer(p.0, p.1) in fs {
      var i :| 0 <= i < |ps| && ps[i] == p;
      assert fs[i] == CompactPointer(p.0, p.1);
    }
    forall f | f in fs ensures f.CompactPointer? && (f.level, f.key) in ps {
      var i :| 0 <= i < |fs| && fs[i] == f;
      assert ps[i] == (f.level, f.key);
    }
  }

  lemma DeletionsFit(ds: seq<(Word, Long)>)
    ensures AllFit(Deletions(ds)) && (LevelsOk(Deletions(ds)) <==> forall d :: d in ds ==> d.0 < NUM_LEVELS)
  {
    var fs := Deletions(ds);
    forall d | d in ds ensures DeletedFile(d.0, d.1) in fs {
      var i :| 0 <= i < |ds| && ds[i] == d;
      assert fs[i] == DeletedFile(d.0, d.1);
    }
    forall f | f in fs ensures f.DeletedFile? && (f.level, f.n) in ds {
      var i :| 0 <= i < |fs| && fs[i] == f;
      assert ds[i] == (f.level, f.n);
    }
  }

  lemma AdditionsFit(gs: seq<(Word, File)>)
    ensures AllFit(Additions(gs)) <==> forall g :: g in gs ==> Short(g.1.smallest) && Short(g.1.largest)
    ensures LevelsOk(Additions(gs)) <==> forall g :: g in gs ==> g.0 < NUM_LEVELS
  {
    var fs := Additions(gs);
    forall g | g in gs ensures NewFile(g.0, g.1) in fs {
      var i :| 0 <= i < |gs| && gs[i] == g;
      assert fs[i] == NewFile(g.0, g.1);
    }
    forall f | f in fs ensures f.NewFile? && (f.level, f.file) in gs {
      var i :| 0 <= i < |fs| && fs[i] == f;
      assert gs[i] == (f.level, f.file);
    }
  }

  lemma FieldsFit(e: Edit, ds: seq<(Word, Long)>)
    requires EditFits(e) && e.deleted == set d | d in ds
    ensures AllFit(Fields(e, ds)) && (LevelsOk(Fields(e, ds)) <==> EditLevelsOk(e))
  {
    hide AllFit, LevelsOk, Heading, Pointers, Deletions, Additions, Short;
    HeadingFits(e);
    PointersFit(e.pointers);
    DeletionsFit(ds);
    AdditionsFit(e.added);
    FitConcat(Heading(e) + Pointers(e.pointers) + Deletions(ds), Additions(e.added));
    FitConcat(Heading(e) + Pointers(e.pointers), Deletions(ds));
    FitConcat(Heading(e), Pointers(e.pointers));
  }

  /** DecodeFrom accepts what EncodeTo wrote exactly if every level is below seven, and then
      restores it, behind the compact pointers the target already had: so it inverts EncodeTo
      exactly on targets without compact pointers. */
  lemma EditRoundTrip(e: Edit, ds: seq<(Word, Long)>, before: Edit)
    requires EditFits(e) && e.deleted == set d | d in ds
    ensures var c := Parse(AllFields(Fields(e, ds))); var after := ApplyAll(Cleared(before), c.fields);
      && (c.whole <==> EditLevelsOk(e))
      && (c.whole ==> after == e.(pointers := before.pointers + e.pointers))
      && (c.whole ==> (after == e <==> before.pointers == []))
  {
    hide Fields, Parse, AllFields, ApplyAll, EditFits, EditLevelsOk, AllFit, LevelsOk, Cleared;
    FieldsFit(e, ds);
    FieldsRoundTrip(Fields(e, ds));
    ApplyFields(e, ds, before);
    if before.pointers != [] {
      assert |before.pointers + e.pointers| > |e.pointers|;
    } else {
      assert [] + e.pointers == e.pointers;
    }
  }

  class VersionEdit {
    var comparator: Option<Bytes>
    var logNumber: Option<Long>
    var prevLogNumber: Option<Long>
    var nextFile: Option<Long>
    var lastSequence: Option<Long>
    var compactPointers: seq<(Word, Bytes)>
    var deletedFiles: set<(Word, Long)>
    var newFiles: seq<(Word, File)>

    ghost function State(): Edit
      reads this
    {
      Edit(comparator, logNumber, prevLogNumber, nextFile, lastSequence, compactPointers, deletedFiles, newFiles)
    }

    constructor ()
      ensures State() == Edit(None, None, None, None, None, [], {}, [])
    {
      comparator, logNumber, prevLogNumber, nextFile, lastSequence := None, None, None, None, None;
      compactPointers, deletedFiles, newFiles := [], {}, [];
    }

    method Clear()
      modifies this`comparator, this`logNumber, this`prevLogNumber, this`nextFile, this`lastSequence, this`deletedFiles,
        this`newFiles
      ensures State() == Cleared(old(State()))
    {
      comparator, logNumber, prevLogNumber, nextFile, lastSequence := None, None, None, None, None;
      deletedFiles, newFiles := {}, [];
    }

    /** Append the edit; `ds` is the order in which the deleted files were written. */
    method EncodeTo(dst: Bytes) returns (out: Bytes, ghost ds: seq<(Word, Long)>)
      ensures out == dst + AllFields(Fields(State(), ds)) && deletedFiles == set d | d in ds
    {
      hide AllFields, Heading, Pointers, Deletions, Additions;
      out := PutHeading(dst, comparator, logNumber, prevLogNumber, nextFile, lastSequence, State());
      out := PutPointers(out, compactPointers);
      out, ds := PutDeletions(out, deletedFiles);
      out := PutAdditions(out, newFiles);
      ghost var h, p, d := Heading(State()), Pointers(compactPointers), Deletions(ds);
      AllFieldsConcat(h, p);
      AllFieldsConcat(h + p, d);
      AllFieldsConcat(h + p + d, Additions(newFiles));
    }

    /** Read an edit into this one. What was read before a fault stays. */
    method DecodeFrom(src: Bytes) returns (ok: bool)
      modifies this
      ensures ok == Parse(src).whole && State() == ApplyAll(Cleared(old(State())), Parse(src).fields)
    {
      Clear();
      hide Parse, ApplyAll, ApplyField, GetField, ReadSoFar, Cleared;
      ghost var start, done: seq<Field> := State(), [];
      var input := src;
      ReadNothing(start, src);
      while input != []
        invariant ReadSoFar(src, done, input) && State() == ApplyAll(start, done)
        decreases |input|
      {
        ReadStep(src, done, input);
        var r := ReadField(input);
        if r.Fail? {
          return false;
        }
        ApplyNext(start, done, r.value);
        SetField(r.value);
        done := done + [r.value];
        input := r.rest;
      }
      ReadEnd(src, done);
      ok := true;
    }

    method SetField(f: Field)
      modifies this
      ensures State() == ApplyField(old(State()), f)
    {
      match f
      case Comparator(name) => comparator := Some(name);
      case Number(c, n) =>
        match c {
          case LogNumber => logNumber := Some(n);
          case PrevLogNumber => prevLogNumber := Some(n);
          case NextFileNumber => nextFile := Some(n);
          case LastSequence => lastSequence := Some(n);
        }
      case CompactPointer(level, key) => compactPointers := compactPointers + [(level, key)];
      case DeletedFile(level, n) => deletedFiles := deletedFiles + {(level, n)};
      case NewFile(level, file) => newFiles := newFiles + [(level, file)];
    }
  }

  // ----- EncodeTo, part by part -----

  /** A tag and what belongs to it. */
  method PutField(dst: Bytes, f: Field) returns (out: Bytes)
    ensures out == dst + FieldBytes(f)
  {
    hide Varint, Prefixed;
    match f
    case Comparator(name) =>
      out := dst + (Varint(1) + Prefixed(name));
    case Number(c, n) =>
      out := dst + (Varint(CounterTag(c)) + Varint(n));
    case CompactPointer(level, key) =>
      out := dst + (Varint(5) + (Varint(level) + Prefixed(key)));
    case DeletedFile(level, n) =>
      out := dst + (Varint(6) + (Varint(level) + Varint(n)));
    case NewFile(level, file) =>
      out := dst + (Varint(7) + (Varint(level) + (Varint(file.number) + (Varint(file.size)
                    + (Prefixed(file.smallest) + Prefixed(file.largest))))));
  }

  method PutNumber(dst: Bytes, c: Counter, n: Option<Long>) returns (out: Bytes)
    ensures out == dst + AllFields(SetNumber(c, n))
  {
    hide FieldBytes;
    out := dst;
    if n.Some? {
      out := PutField(dst, Number(c, n.value));
      AllFieldsOne(Number(c, n.value));
    }
  }

  lemma PutNext(dst: Bytes, fs: seq<Field>, gs: seq<Field>)
    ensures (dst + AllFields(fs)) + AllFields(gs) == dst + AllFields(fs + gs)
  {
    AllFieldsConcat(fs, gs);
    hide AllFields;
  }

  method PutHeading(dst: Bytes, comparator: Option<Bytes>, logNumber: Option<Long>, prevLogNumber: Option<Long>,
                    nextFile: Option<Long>, lastSequence: Option<Long>, ghost e: Edit) returns (out: Bytes)
    requires e.comparator == comparator && e.logNumber == logNumber && e.prevLogNumber == prevLogNumber
    requires e.nextFile == nextFile && e.lastSequence == lastSequence
    ensures out == dst + AllFields(Heading(e))
  {
    hide AllFields, SetNumber;
    out := dst;
    if comparator.Some? {
      out := PutField(dst, Comparator(comparator.value));
    }
    ghost var c := if comparator.Some? then [Comparator(comparator.value)] else [];
    PutFirst(dst, comparator);
    ghost var l, p, n := SetNumber(LogNumber, logNumber), SetNumber(PrevLogNumber, prevLogNumber),
      SetNumber(NextFileNumber, nextFile);
    out := PutNumber(out, LogNumber, logNumber);
    PutNext(dst, c, l);
    out := PutNumber(out, PrevLogNumber, prevLogNumber);
    PutNext(dst, c + l, p);
    out := PutNumber(out, NextFileNumber, nextFile);
    PutNext(dst, c + l + p, n);
    out := PutNumber(out, LastSequence, lastSequence);
    PutNext(dst, c + l + p + n, SetNumber(LastSequence, lastSequence));
  }

  lemma PutFirst(dst: Bytes, comparator: Option<Bytes>)
    ensures comparator.Some?
      ==> dst + FieldBytes(Comparator(comparator.value)) == dst + AllFields([Comparator(comparator.value)])
    ensures dst + AllFields([]) == dst
  {
    hide FieldBytes;
    if comparator.Some? {
      AllFieldsOne(Comparator(comparator.value));
    }
  }

  method PutPointers(dst: Bytes, ps: seq<(Word, Bytes)>) returns (out: Bytes)
    ensures out == dst + AllFields(Pointers(ps))
  {
    hide AllFields, FieldBytes;
    out := dst;
    PutFirst(dst, None);
    assert Pointers(ps[..0]) == [];
    for i := 0 to |ps|
      invariant out == dst + AllFields(Pointers(ps[..i]))
    {
      out := PutField(out, CompactPointer(ps[i].0, ps[i].1));
      assert Pointers(ps[..i + 1]) == Pointers(ps[..i]) + [CompactPointer(ps[i].0, ps[i].1)];
      PutOne(dst, Pointers(ps[..i]), CompactPointer(ps[i].0, ps[i].1));
    }
    assert ps[..|ps|] == ps;
  }

  method PutAdditions(dst: Bytes, fs: seq<(Word, File)>) returns (out: Bytes)
    ensures out == dst + AllFields(Additions(fs))
  {
    hide AllFields, FieldBytes;
    out := dst;
    PutFirst(dst, None);
    assert Additions(fs[..0]) == [];
    for i := 0 to |fs|
      invariant out == dst + AllFields(Additions(fs[..i]))
    {
      out := PutField(out, NewFile(fs[i].0, fs[i].1));
      assert Additions(fs[..i + 1]) == Additions(fs[..i]) + [NewFile(fs[i].0, fs[i].1)];
      PutOne(dst, Additions(fs[..i]), NewFile(fs[i].0, fs[i].1));
    }
    assert fs[..|fs|] == fs;
  }

  method PutDeletions(dst: Bytes, files: set<(Word, Long)>) returns (out: Bytes, ghost ds: seq<(Word, Long)>)
    ensures out == dst + AllFields(Deletions(ds)) && files == set d | d in ds
  {
    hide AllFields, FieldBytes;
    out, ds := dst, [];
    PutFirst(dst, None);
    assert Deletions(ds) == [];
    var left := files;
    while left != {}
      invariant left <= files && files - left == set d | d in ds
      invariant out == dst + AllFields(Deletions(ds))
    {
      var d :| d in left;
      out := PutField(out, DeletedFile(d.0, d.1));
      assert Deletions(ds + [d]) == Deletions(ds) + [DeletedFile(d.0, d.1)];
      PutOne(dst, Deletions(ds), DeletedFile(d.0, d.1));
      assert files - (left - {d}) == (set x | x in ds) + {d} == set x | x in ds + [d];
      ds := ds + [d];
      left := left - {d};
    }
  }

  lemma PutOne(dst: Bytes, fs: seq<Field>, f: Field)
    ensures (dst + AllFields(fs)) + FieldBytes(f) == dst + AllFields(fs + [f])
  {
    hide FieldBytes;
    AllFieldsOne(f);
    PutNext(dst, fs, [f]);
  }

  // ----- DecodeFrom, step by step -----

  /** The switch on the tag. */
  method ReadField(b: Bytes) returns (r: Parsed<Field>)
    ensures r == GetField(b)
  {
    hide Get32, Get64, GetSlice, GetLevel, GetFile;
    var tag := Get32(b);
    if tag.Fail? {
      return Fail;
    }
    if tag.value == 1 {
      var name := GetSlice(tag.rest);
      return if name.Got? then Got(Comparator(name.value), name.rest) else Fail;
    } else if tag.value == 2 || tag.value == 3 || tag.value == 4 || tag.value == 9 {
      var c := if tag.value == 2 then LogNumber else if tag.value == 3 then NextFileNumber
               else if tag.value == 4 then LastSequence else PrevLogNumber;
      var n := Get64(tag.rest);
      return if n.Got? then Got(Number(c, n.value), n.rest) else Fail;
    } else if tag.value == 5 {
      var level := GetLevel(tag.rest);
      if level.Fail? {
        return Fail;
      }
      var key := GetSlice(level.rest);
      return if key.Got? then Got(CompactPointer(level.value, key.value), key.rest) else Fail;
    } else if tag.value == 6 {
      var level := GetLevel(tag.rest);
      if level.Fail? {
        return Fail;
      }
      var n := Get64(level.rest);
      return if n.Got? then Got(DeletedFile(level.value, n.value), n.rest) else Fail;
    } else if tag.value == 7 {
      var level := GetLevel(tag.rest);
      if level.Fail? {
        return Fail;
      }
      var file := GetFile(level.rest);
      return if file.Got? then Got(NewFile(level.value, file.value), file.rest) else Fail;
    } else {
      return Fail;
    }
  }

  /** `done` has been read, `input` is still to come. */
  ghost predicate ReadSoFar(src: Bytes, done: seq<Field>, input: Bytes) {
    Parse(src).fields == done + Parse(input).fields && Parse(src).whole == Parse(input).whole
  }

  lemma ReadNothing(e: Edit, src: Bytes)
    ensures ReadSoFar(src, [], src) && ApplyAll(e, []) == e
  {
    hide Parse;
  }

  lemma ReadStep(src: Bytes, done: seq<Field>, b: Bytes)
    requires b != [] && ReadSoFar(src, done, b)
    ensures GetField(b).Fail? ==> Parse(src).fields == done && !Parse(src).whole
    ensures GetField(b).Got? ==> ReadSoFar(src, done + [GetField(b).value], GetField(b).rest)
  {
    hide GetField;
    if GetField(b).Got? {
      var f, rest := GetField(b).value, Parse(GetField(b).rest).fields;
      assert done + ([f] + rest) == (done + [f]) + rest;
    }
  }

  lemma ReadEnd(src: Bytes, done: seq<Field>)
    requires ReadSoFar(src, done, [])
    ensures Parse(src).fields == done && Parse(src).whole
  {
  }

  lemma ApplyNext(e: Edit, fs: seq<Field>, f: Field)
    ensures ApplyAll(e, fs + [f]) == ApplyField(ApplyAll(e, fs), f)
  {
    hide ApplyField;
    assert (fs + [f])[..|fs|] == fs;
  }
}
