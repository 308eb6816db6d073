/**
  Which tables a compaction takes (VersionSet::PickCompaction, CompactRange and SetupOtherInputs,
  db/version_set.cc:1270-1500, and Compaction::IsBaseLevelForKey).

  `inputs_[0]` is closed: whatever stays behind in its level is newer. `inputs_[1]` is not: the table behind
  it may begin with older versions of the user key it ends with. The theorems say what readers notice.
 */
module InputChoice {
  import opened Format
  import opened Versions
  import C = Compaction

  // ----- tables by range -----

  function Overlapping(files: seq<Table>, lo: Option<UserKey>, hi: Option<UserKey>): seq<Table> {
    if files == [] then []
    else (if Overlaps(files[0], lo, hi) then [files[0]] else []) + Overlapping(files[1..], lo, hi)
  }

  lemma {:induction false} OverlappingMembers(files: seq<Table>, lo: Option<UserKey>, hi: Option<UserKey>)
    ensures forall f :: f in Overlapping(files, lo, hi) <==> f in files && Overlaps(f, lo, hi)
  {
    hide Overlaps;
    if files != [] {
      OverlappingMembers(files[1..], lo, hi);
    }
  }

  lemma {:induction false} OverlappingAppend(files: seq<Table>, f: Table, lo: Option<UserKey>, hi: Option<UserKey>)
    ensures Overlapping(files + [f], lo, hi) == Overlapping(files, lo, hi) + if Overlaps(f, lo, hi) then [f] else []
  {
    hide Overlaps;
    if files == [] {
      assert [f][1..] == [] && files + [f] == [f];
    } else {
      OverlappingAppend(files[1..], f, lo, hi);
      var all, first := files + [f], if Overlaps(files[0], lo, hi) then [files[0]] else [];
      assert all[0] == files[0] && all[1..] == files[1..] + [f];
      assert Overlapping(all, lo, hi) == first + Overlapping(all[1..], lo, hi);
    }
  }

  /** The range of `f` does not stick out of that from `lo` to `hi`. */
  predicate Inside(f: Table, lo: Option<UserKey>, hi: Option<UserKey>) {
    (lo.Some? ==> lo.value <= f.Smallest().key) && (hi.Some? ==> f.Largest().key <= hi.value)
  }

  predicate Wider(lo: Option<UserKey>, hi: Option<UserKey>, begin: Option<UserKey>, end: Option<UserKey>) {
    && lo.Some? == begin.Some? && (lo.Some? ==> lo.value <= begin.value)
    && hi.Some? == end.Some? && (hi.Some? ==> end.value <= hi.value)
  }

  /** The tables that stick out of a range, at either end. */
  function Early(files: seq<Table>, lo: Option<UserKey>): set<int> {
    set j | 0 <= j < |files| && lo.Some? && files[j].Smallest().key < lo.value
  }

  function Late(files: seq<Table>, hi: Option<UserKey>): set<int> {
    set j | 0 <= j < |files| && hi.Some? && files[j].Largest().key > hi.value
  }

  lemma Widened(files: seq<Table>, i: nat, lo: Option<UserKey>, hi: Option<UserKey>)
    requires i < |files|
    ensures lo.Some? && files[i].Smallest().key < lo.value ==>
      |Early(files, Some(files[i].Smallest().key))| < |Early(files, lo)|
    ensures hi.Some? && files[i].Largest().key > hi.value ==>
      |Late(files, Some(files[i].Largest().key))| < |Late(files, hi)|
  {
    var early, late := Early(files, Some(files[i].Smallest().key)), Late(files, Some(files[i].Largest().key));
    if lo.Some? && files[i].Smallest().key < lo.value {
      assert i in Early(files, lo) && early <= Early(files, lo) - {i};
      SmallerSet(early, Early(files, lo) - {i});
    }
    if hi.Some? && files[i].Largest().key > hi.value {
      assert i in Late(files, hi) && late <= Late(files, hi) - {i};
      SmallerSet(late, Late(files, hi) - {i});
    }
  }

  lemma {:induction false} SmallerSet<T>(a: set<T>, b: set<T>)
    requires a <= b
    ensures |a| <= |b|
  {
    if x :| x in a {
      SmallerSet(a - {x}, b - {x});
    }
  }

  /** Version::GetOverlappingInputs. In level 0, whose tables may overlap each other, a table that sticks
      out of the range widens it, and the search starts again. */
  method GetOverlappingInputs(levelZero: bool, files: seq<Table>, begin: Option<UserKey>, end: Option<UserKey>,
                              ghost more: seq<Table>)
    returns (inputs: seq<Table>, ghost lo: Option<UserKey>, ghost hi: Option<UserKey>)
    ensures inputs == Overlapping(files, lo, hi) && Wider(lo, hi, begin, end)
    ensures !levelZero ==> lo == begin && hi == end
    ensures levelZero ==> forall f :: f in inputs ==> Inside(f, lo, hi)
    ensures Filled(files + more, begin, end) ==> Filled(files + more, lo, hi)
  {
    hide Overlaps, Overlapping, Early, Late, Inside, Filled;
    var userBegin, userEnd, i := begin, end, 0;
    inputs := [];
    NoTables(files, userBegin, userEnd);
    while i < |files|
      invariant i <= |files| && inputs == Overlapping(files[..i], userBegin, userEnd)
      invariant Wider(userBegin, userEnd, begin, end)
      invariant !levelZero ==> userBegin == begin && userEnd == end
      invariant levelZero ==> forall f :: f in inputs ==> Inside(f, userBegin, userEnd)
      invariant Filled(files + more, begin, end) ==> Filled(files + more, userBegin, userEnd)
      decreases |Early(files, userBegin)| + |Late(files, userEnd)|, |files| - i
    {
      OverlappingAppend(files[..i], files[i], userBegin, userEnd);
      assert files[..i + 1] == files[..i] + [files[i]];
      var f := files[i];
      i := i + 1;
      if Overlaps(f, userBegin, userEnd) {
        Widened(files, i - 1, userBegin, userEnd);
        if Filled(files + more, userBegin, userEnd) {
          StillFilled(files + more, f, userBegin, userEnd);
        }
        if levelZero && userBegin.Some? && f.Smallest().key < userBegin.value {
          userBegin, inputs, i := Some(f.Smallest().key), [], 0;
          NoTables(files, userBegin, userEnd);
        } else if levelZero && userEnd.Some? && f.Largest().key > userEnd.value {
          userEnd, inputs, i := Some(f.Largest().key), [], 0;
          NoTables(files, userBegin, userEnd);
        } else {
          NotSticking(f, userBegin, userEnd);
          inputs := inputs + [f];
        }
      }
    }
    assert files[..i] == files;
    lo, hi := userBegin, userEnd;
  }

  ghost predicate FilledAt(files: seq<Table>, lo: Option<UserKey>, hi: Option<UserKey>, k: UserKey) {
    exists f :: f in files && Covers(f, k) && Overlaps(f, lo, hi)
  }

  /** Every user key of a range is in the range of a table that overlaps it. */
  ghost predicate Filled(files: seq<Table>, lo: Option<UserKey>, hi: Option<UserKey>) {
    lo.Some? && hi.Some? && forall k :: lo.value <= k <= hi.value ==> FilledAt(files, lo, hi, k)
  }

  lemma StillFilled(files: seq<Table>, f: Table, lo: Option<UserKey>, hi: Option<UserKey>)
    requires Filled(files, lo, hi) && f in files && Overlaps(f, lo, hi)
    ensures f.Smallest().key < lo.value ==> Filled(files, Some(f.Smallest().key), hi)
    ensures f.Largest().key > hi.value ==> Filled(files, lo, Some(f.Largest().key))
  {
    if f.Smallest().key < lo.value {
      var lo' := Some(f.Smallest().key);
      forall k | lo'.value <= k <= hi.value ensures FilledAt(files, lo', hi, k) {
        assert lo.value <= k ==> FilledAt(files, lo, hi, k);
      }
    }
    if f.Largest().key > hi.value {
      var hi' := Some(f.Largest().key);
      forall k | lo.value <= k <= hi'.value ensures FilledAt(files, lo, hi', k) {
        assert k <= hi.value ==> FilledAt(files, lo, hi, k);
      }
    }
  }

  lemma NoTables(files: seq<Table>, lo: Option<UserKey>, hi: Option<UserKey>)
    ensures Overlapping(files[..0], lo, hi) == []
  {
  }

  lemma NotSticking(f: Table, lo: Option<UserKey>, hi: Option<UserKey>)
    ensures (lo.Some? && f.Smallest().key < lo.value) || (hi.Some? && f.Largest().key > hi.value) || Inside(f, lo, hi)
  {
  }

  lemma TailOrdered(files: seq<Table>)
    requires TablesSorted(files) && Ordered(files) && files != []
    ensures TablesSorted(files[1..]) && Ordered(files[1..])
  {
    hide TableOk;
  }

  /** In an ordered level the tables that overlap a range stand next to each other. */
  lemma {:induction false} OverlappingIsStretch(files: seq<Table>, lo: Option<UserKey>, hi: Option<UserKey>)
    returns (a: nat, b: nat)
    requires TablesSorted(files) && Ordered(files)
    ensures a <= b <= |files| && Overlapping(files, lo, hi) == files[a..b]
    ensures a < b ==> Overlaps(files[a], lo, hi)
  {
    hide Overlaps, TablesSorted, Ordered;
    if files == [] {
      a, b := 0, 0;
    } else {
      var rest := files[1..];
      TailOrdered(files);
      a, b := OverlappingIsStretch(rest, lo, hi);
      if Overlaps(files[0], lo, hi) {
        if a < b {
          NextOverlaps(files, a + 1, lo, hi);
          FirstIsThere(rest, lo, hi, a, b);
          assert files[0..b + 1] == [files[0]] + rest[a..b];
          b := b + 1;
        } else {
          a, b := 0, 1;
        }
      } else {
        assert files[a + 1..b + 1] == rest[a..b];
        a, b := a + 1, b + 1;
      }
    }
  }

  /** Tables of an ordered level have one place. */
  lemma DifferentPlaces(files: seq<Table>, i: nat, j: nat)
    requires TablesSorted(files) && Ordered(files) && i < j < |files|
    ensures files[i] != files[j]
  {
    assert files[i] in files;
    WithinTable(files[i], files[i].Smallest());
    assert Before(files[i].Largest(), files[j].Smallest());
  }

  lemma OnePlace(files: seq<Table>, i: nat, j: nat)
    requires TablesSorted(files) && Ordered(files) && i < |files| && j < |files| && files[i] == files[j]
    ensures i == j
  {
    hide TablesSorted, Ordered;
    if i < j {
      DifferentPlaces(files, i, j);
    } else if j < i {
      DifferentPlaces(files, j, i);
    }
  }

  /** A stretch that overlaps begins where the first table that overlaps stands. */
  lemma FirstIsThere(files: seq<Table>, lo: Option<UserKey>, hi: Option<UserKey>, a: nat, b: nat)
    requires TablesSorted(files) && Ordered(files) && a < b <= |files| && Overlapping(files, lo, hi) == files[a..b]
    requires Overlaps(files[0], lo, hi)
    ensures a == 0
  {
    hide TablesSorted, Ordered, Overlaps;
    assert files[a..b][0] == files[0];
    OnePlace(files, a, 0);
  }

  lemma NextOverlaps(files: seq<Table>, j: nat, lo: Option<UserKey>, hi: Option<UserKey>)
    requires TablesSorted(files) && Ordered(files) && 0 < j < |files|
    requires Overlaps(files[0], lo, hi) && Overlaps(files[j], lo, hi)
    ensures Overlaps(files[1], lo, hi)
  {
    OrderedEntries(files, 0, 1, files[0].Largest(), files[1].Largest());
    if j > 1 {
      OrderedEntries(files, 1, j, files[1].Smallest(), files[j].Smallest());
    }
  }

  // ----- gaps -----

  /** `k` is not before all the tables, nor behind them all. */
  ghost predicate InSpan(files: seq<Table>, k: UserKey) {
    (exists f :: f in files && f.Smallest().key <= k) && exists f :: f in files && k <= f.Largest().key
  }

  /** The ranges of the tables leave no gap between them. */
  ghost predicate NoGap(files: seq<Table>) {
    forall k :: InSpan(files, k) ==> exists f :: f in files && Covers(f, k)
  }

  /** The range of `g` meets the span of some tables. */
  ghost predicate Meets(files: seq<Table>, g: Table) {
    (exists f :: f in files && f.Smallest().key <= g.Largest().key)
    && exists f :: f in files && g.Smallest().key <= f.Largest().key
  }

  /** Tables that meet the span of others without gap add none. */
  lemma NoGapWith(files: seq<Table>, more: seq<Table>, all: seq<Table>)
    requires NoGap(files) && (forall g :: g in more ==> Meets(files, g))
    requires forall f :: f in all <==> f in files || f in more
    ensures NoGap(all)
  {
    forall k | InSpan(all, k) ensures exists f :: f in all && Covers(f, k) {
      if f :| f in all && Covers(f, k) {
      } else {
        var low :| low in all && low.Smallest().key <= k;
        var high :| high in all && k <= high.Largest().key;
        assert low.Largest().key < k && k < high.Smallest().key;
        assert low in files || Meets(files, low);
        assert high in files || Meets(files, high);
        assert InSpan(files, k);
        assert false;
      }
    }
  }

  // ----- boundary files -----

  ghost predicate IsLargest(files: seq<Table>, key: Entry) {
    (exists f :: f in files && key == f.Largest()) && forall f :: f in files ==> !Before(key, f.Largest())
  }

  /** FindLargestKey. */
  method FindLargestKey(files: seq<Table>) returns (key: Option<Entry>)
    ensures files == [] ==> key == None
    ensures files != [] ==> key.Some? && IsLargest(files, key.value)
  {
    if files == [] {
      return None;
    }
    var largest, i := files[0].Largest(), 1;
    assert files[..1] == [files[0]];
    while i < |files|
      invariant 1 <= i <= |files| && IsLargest(files[..i], largest)
    {
      if Before(largest, files[i].Largest()) {
        largest := files[i].Largest();
      }
      assert files[..i + 1] == files[..i] + [files[i]] && files[i] in files[..i + 1];
      i := i + 1;
    }
    assert files[..i] == files;
    return Some(largest);
  }

  /** `f` begins with an older version of the user key that ends the range so far. */
  predicate Boundary(f: Table, largest: Entry) {
    Before(largest, f.Smallest()) && f.Smallest().key == largest.key
  }

  /** FindSmallestBoundaryFile. */
  method FindSmallestBoundaryFile(levelFiles: seq<Table>, largest: Entry) returns (file: Option<Table>)
    ensures file == None <==> forall f :: f in levelFiles ==> !Boundary(f, largest)
    ensures file.Some? ==> file.value in levelFiles && Boundary(file.value, largest)
    ensures file.Some? ==>
      forall f :: f in levelFiles && Boundary(f, largest) ==> !Before(f.Smallest(), file.value.Smallest())
  {
    file := None;
    var i := 0;
    while i < |levelFiles|
      invariant i <= |levelFiles|
      invariant file == None <==> forall f :: f in levelFiles[..i] ==> !Boundary(f, largest)
      invariant file.Some? ==> file.value in levelFiles[..i] && Boundary(file.value, largest)
      invariant file.Some? ==>
        forall f :: f in levelFiles[..i] && Boundary(f, largest) ==> !Before(f.Smallest(), file.value.Smallest())
    {
      var f := levelFiles[i];
      if Boundary(f, largest) && (file.None? || Before(f.Smallest(), file.value.Smallest())) {
        file := Some(f);
      }
      assert levelFiles[..i + 1] == levelFiles[..i] + [f] && f in levelFiles[..i + 1];
      i := i + 1;
    }
    assert levelFiles[..i] == levelFiles;
  }

  /** No table of the level has an older version of the user key the inputs end with. */
  ghost predicate Closed(levelFiles: seq<Table>, inputs: seq<Table>) {
    forall key :: IsLargest(inputs, key) ==> forall f :: f in levelFiles ==> !Boundary(f, key)
  }

  /** The tables that begin behind a key. */
  function Behind(files: seq<Table>, key: Entry): set<int> {
    set j | 0 <= j < |files| && Before(key, files[j].Smallest())
  }

  /** Two largest keys are alike. */
  lemma LargestIsOne(levelFiles: seq<Table>, files: seq<Table>, key: Entry)
    requires IsLargest(files, key) && forall f :: f in levelFiles ==> !Boundary(f, key)
    ensures Closed(levelFiles, files)
  {
    forall k, f | IsLargest(files, k) && f in levelFiles ensures !Boundary(f, k) {
      assert !Before(k, key) && !Before(key, k);
      assert Boundary(f, k) == Boundary(f, key);
    }
  }

  /** The largest key of a stretch is that of its last table. */
  lemma LargestOfStretch(files: seq<Table>, a: nat, c: nat, key: Entry)
    requires TablesSorted(files) && Ordered(files) && a < c <= |files| && IsLargest(files[a..c], key)
    ensures key == files[c - 1].Largest()
  {
    var f :| f in files[a..c] && key == f.Largest();
    var i: nat :| a <= i < c && files[i] == f;
    assert files[c - 1] in files[a..c];
    hide TablesSorted, Ordered;
    if i < c - 1 {
      LargestAscend(files, i, c - 1);
    }
  }

  /** If a later table begins with the user key the one before `c` ends with, so does that at `c`. */
  lemma NextIsBoundary(files: seq<Table>, c: nat, j: nat, key: Entry)
    requires TablesSorted(files) && Ordered(files) && 0 < c < j < |files| && key == files[c - 1].Largest()
    requires Boundary(files[j], key)
    ensures files[c] in files && Boundary(files[c], key) && Before(files[c].Smallest(), files[j].Smallest())
  {
    OrderedEntries(files, c, j, files[c].Smallest(), files[j].Smallest());
    OrderedEntries(files, c - 1, c, key, files[c].Smallest());
  }

  lemma NotBehindLargest(files: seq<Table>, i: nat, j: nat)
    requires TablesSorted(files) && Ordered(files) && i <= j < |files|
    ensures !Before(files[j].Largest(), files[i].Smallest())
  {
    assert files[i] in files;
    WithinTable(files[i], files[i].Smallest());
    if i < j {
      OrderedEntries(files, i, j, files[i].Smallest(), files[j].Largest());
    }
  }

  lemma BoundaryIsNext(files: seq<Table>, a: nat, c: nat, key: Entry, f: Table)
    requires TablesSorted(files) && Ordered(files) && a < c <= |files| && IsLargest(files[a..c], key)
    requires f in files && Boundary(f, key)
    requires forall g :: g in files && Boundary(g, key) ==> !Before(g.Smallest(), f.Smallest())
    ensures c < |files| && f == files[c] && files[a..c + 1] == files[a..c] + [f]
  {
    LargestOfStretch(files, a, c, key);
    hide TablesSorted, Ordered, IsLargest;
    var j: nat :| j < |files| && files[j] == f;
    if j < c {
      NotBehindLargest(files, j, c - 1);
      assert false;
    } else if j > c {
      NextIsBoundary(files, c, j, key);
      assert false;
    }
  }

  lemma MeetsMore(files: seq<Table>, more: seq<Table>, g: Table)
    requires Meets(files, g)
    ensures Meets(files + more, g)
  {
    assert forall f :: f in files ==> f in files + more;
  }

  lemma BoundaryMeets(all: seq<Table>, key: Entry, f: Table)
    requires IsLargest(all, key) && Boundary(f, key) && TableOk(f) && forall g :: g in all ==> TableOk(g)
    ensures Meets(all, f)
  {
    WithinTable(f, f.Smallest());
    var g :| g in all && key == g.Largest();
    WithinTable(g, g.Smallest());
  }

  lemma NothingClosed(files: seq<Table>)
    ensures Closed(files, [])
  {
  }

  lemma BoundaryStep(files: seq<Table>, all: seq<Table>, key: Entry, f: Table, more: seq<Table>)
    requires TablesSorted(files) && IsLargest(all, key) && f in files && Boundary(f, key)
    requires forall g :: g in all ==> g in files
    ensures IsLargest(all + [f], f.Largest()) && |Behind(files, f.Largest())| < |Behind(files, key)|
    ensures !Closed(files, all) && (NoGap(all + more) ==> NoGap(all + [f] + more))
  {
    hide NoGap, Meets;
    WithinTable(f, f.Smallest());
    assert Before(key, f.Largest());
    assert f in all + [f];
    if NoGap(all + more) {
      BoundaryMeets(all, key, f);
      MeetsMore(all, more, f);
      NoGapWith(all + more, [f], all + [f] + more);
    }
    hide TableOk;
    var j :| 0 <= j < |files| && files[j] == f;
    var before, after := Behind(files, key), Behind(files, f.Largest());
    assert j in before && after <= before - {j};
    SmallerSet(after, before - {j});
  }

  /** AddBoundaryInputs. The inputs that were a stretch of an ordered level are one afterwards. */
  method AddBoundaryInputs(levelFiles: seq<Table>, inputs: seq<Table>, ghost a: nat, ghost b: nat,
                           ghost more: seq<Table>)
    returns (all: seq<Table>, ghost c: nat)
    requires TablesSorted(levelFiles) && forall f :: f in inputs ==> f in levelFiles
    ensures Closed(levelFiles, all) && inputs <= all && forall f :: f in all ==> f in levelFiles
    ensures Closed(levelFiles, inputs) ==> all == inputs
    ensures NoGap(inputs + more) ==> NoGap(all + more)
    ensures Ordered(levelFiles) && a < b <= |levelFiles| && inputs == levelFiles[a..b] ==>
      b <= c <= |levelFiles| && all == levelFiles[a..c]
  {
    hide IsLargest, Boundary, Behind, Closed, Ordered, TablesSorted, NoGap;
    all, c := inputs, b;
    NothingClosed(levelFiles);
    var key := FindLargestKey(inputs);
    if key == None {
      return;
    }
    var largestKey, searching := key.value, true;
    while searching
      invariant inputs <= all && (forall f :: f in all ==> f in levelFiles) && IsLargest(all, largestKey)
      invariant Closed(levelFiles, inputs) ==> all == inputs
      invariant NoGap(inputs + more) ==> NoGap(all + more)
      invariant Ordered(levelFiles) && a < b <= |levelFiles| && inputs == levelFiles[a..b] ==>
        b <= c <= |levelFiles| && all == levelFiles[a..c]
      invariant !searching ==> forall f :: f in levelFiles ==> !Boundary(f, largestKey)
      decreases |Behind(levelFiles, largestKey)|, searching
    {
      var file := FindSmallestBoundaryFile(levelFiles, largestKey);
      if file.Some? {
        BoundaryStep(levelFiles, all, largestKey, file.value, more);
        if Ordered(levelFiles) && a < b <= |levelFiles| && inputs == levelFiles[a..b] {
          BoundaryIsNext(levelFiles, a, c, largestKey, file.value);
        }
        all, c := all + [file.value], c + 1;
        largestKey := file.value.Largest();
      } else {
        searching := false;
      }
    }
    LargestIsOne(levelFiles, all, largestKey);
  }

  // ----- choosing -----

  /** The smallest and the largest key of some tables. */
  ghost predicate IsRange(files: seq<Table>, smallest: Entry, largest: Entry) {
    && (exists f :: f in files && smallest == f.Smallest())
    && (forall f :: f in files ==> !Before(f.Smallest(), smallest)) && IsLargest(files, largest)
  }

  /** VersionSet::GetRange; GetRange2 is GetRange of both lists. */
  method GetRange(files: seq<Table>) returns (smallest: Entry, largest: Entry)
    requires files != []
    ensures IsRange(files, smallest, largest)
  {
    var i := 1;
    smallest := files[0].Smallest();
    assert files[..1] == [files[0]];
    while i < |files|
      invariant 1 <= i <= |files| && exists f :: f in files[..i] && smallest == f.Smallest()
      invariant forall f :: f in files[..i] ==> !Before(f.Smallest(), smallest)
    {
      if Before(files[i].Smallest(), smallest) {
        smallest := files[i].Smallest();
      }
      assert files[..i + 1] == files[..i] + [files[i]] && files[i] in files[..i + 1];
      i := i + 1;
    }
    assert files[..i] == files;
    var key := FindLargestKey(files);
    largest := key.value;
  }

  /** inputs_[0], before it is known what to add: overlapping tables of level 0, all of them, or a stretch
      of a later level. */
  ghost predicate Picked(v: Version, level: nat, picked: seq<Table>)
    requires level < NUM_LEVELS
  {
    && picked != []
    && if level == 0 then
         exists lo, hi :: picked == Overlapping(v[0], lo, hi) && forall f :: f in picked ==> Inside(f, lo, hi)
       else exists a, b :: 0 <= a < b <= |v[level]| && picked == v[level][a..b]
  }

  /** What a compaction of a level takes: tables of that level, closed under the boundary rule, and the
      tables of the next level whose user keys overlap theirs. */
  ghost predicate Chosen(v: Version, level: nat, in0: seq<Table>, in1: seq<Table>) {
    && level + 1 < NUM_LEVELS && Picked(v, level, in0) && Closed(v[level], in0)
    && exists smallest, largest ::
      IsRange(in0, smallest, largest) && in1 == Overlapping(v[level + 1], Some(smallest.key), Some(largest.key))
  }

  /** All tables of level 0 that overlap a range have been picked, so there is no boundary file. */
  lemma LevelZeroClosed(files: seq<Table>, picked: seq<Table>, lo: Option<UserKey>, hi: Option<UserKey>)
    requires TablesSorted(files) && picked == Overlapping(files, lo, hi)
    requires forall f :: f in picked ==> Inside(f, lo, hi)
    ensures Closed(files, picked)
  {
    OverlappingMembers(files, lo, hi);
    forall key, f | IsLargest(picked, key) && f in files ensures !Boundary(f, key) {
      var g :| g in picked && key == g.Largest();
      WithinTable(g, key);
      WithinTable(f, f.Smallest());
      if f.Smallest().key == key.key {
        assert Overlaps(f, lo, hi);
        assert !Before(key, f.Largest());
      }
    }
  }

  /** AddBoundaryInputs on what was picked; with `more` beside them, the tables stay without gap. */
  method CloseInputs(v: Version, level: nat, picked: seq<Table>, ghost more: seq<Table>) returns (in0: seq<Table>)
    requires LevelsOk(v) && level < NUM_LEVELS && Picked(v, level, picked)
    ensures Picked(v, level, in0) && Closed(v[level], in0) && (forall f :: f in in0 ==> f in v[level])
    ensures in0 != [] && picked <= in0
    ensures NoGap(picked + more) ==> NoGap(in0 + more)
  {
    hide Closed, Ordered, Overlaps, NoGap;
    ghost var a, b, c := 0, 0, 0;
    if level == 0 {
      ghost var lo, hi :| picked == Overlapping(v[0], lo, hi) && forall f :: f in picked ==> Inside(f, lo, hi);
      OverlappingMembers(v[0], lo, hi);
      LevelZeroClosed(v[0], picked, lo, hi);
    } else {
      ghost var i, j :| 0 <= i < j <= |v[level]| && picked == v[level][i..j];
      a, b := i, j;
    }
    in0, c := AddBoundaryInputs(v[level], picked, a, b, more);
  }

  /** A range of user keys from the first to the last of some tables. */
  ghost predicate Hull(files: seq<Table>, begin: Option<UserKey>, end: Option<UserKey>) {
    exists smallest, largest ::
      IsRange(files, smallest, largest) && begin == Some(smallest.key) && end == Some(largest.key)
  }

  /** Tables without gap fill their range. */
  lemma HullFilled(files: seq<Table>, more: seq<Table>, begin: Option<UserKey>, end: Option<UserKey>)
    requires Hull(more, begin, end) && NoGap(more) && forall f :: f in more ==> TableOk(f)
    ensures Filled(files + more, begin, end) && forall f :: f in more ==> Inside(f, begin, end)
  {
    var smallest, largest :|
      IsRange(more, smallest, largest) && begin == Some(smallest.key) && end == Some(largest.key);
    OverlapsRange(more, more, smallest, largest);
    forall k | begin.value <= k <= end.value ensures FilledAt(files + more, begin, end, k) {
      assert InSpan(more, k);
      var f :| f in more && Covers(f, k);
      assert f in files + more;
    }
    forall f | f in more ensures Inside(f, begin, end) {
      assert !Before(f.Smallest(), smallest) && !Before(largest, f.Largest());
    }
  }

  /** Picking what overlaps the range of tables without gap leaves none. */
  lemma PickLeavesNoGap(files: seq<Table>, levelZero: bool, begin: Option<UserKey>, end: Option<UserKey>,
                        lo: Option<UserKey>, hi: Option<UserKey>, picked: seq<Table>, more: seq<Table>)
    requires Hull(more, begin, end) && NoGap(more) && forall f :: f in more ==> TableOk(f)
    requires (forall f :: f in picked <==> f in files && Overlaps(f, lo, hi)) && Wider(lo, hi, begin, end)
    requires if levelZero then Filled(files + more, lo, hi) && forall f :: f in picked ==> Inside(f, lo, hi)
             else lo == begin && hi == end
    ensures NoGap(picked + more)
  {
    if levelZero {
      HullFilled(files, more, begin, end);
      hide Hull, NoGap, TableOk;
      forall k | InSpan(picked + more, k) ensures exists f :: f in picked + more && Covers(f, k) {
        assert forall f :: f in picked + more ==> Inside(f, lo, hi);
        assert FilledAt(files + more, lo, hi, k);
        var f :| f in files + more && Covers(f, k) && Overlaps(f, lo, hi);
        assert f in picked + more;
      }
      assert NoGap(picked + more) by { FromSpan(picked + more); }
    } else {
      forall g | g in picked ensures Meets(more, g) {
      }
      NoGapWith(more, picked, picked + more);
    }
  }

  lemma FromSpan(files: seq<Table>)
    requires forall k :: InSpan(files, k) ==> exists f :: f in files && Covers(f, k)
    ensures NoGap(files)
  {
  }

  /** The tables of a level that overlap a range may be picked. */
  method PickOverlapping(v: Version, level: nat, begin: Option<UserKey>, end: Option<UserKey>, ghost more: seq<Table>)
    returns (picked: seq<Table>)
    requires LevelsOk(v) && level < NUM_LEVELS
    ensures picked != [] ==> Picked(v, level, picked)
    ensures forall f :: f in v[level] && Overlaps(f, begin, end) ==> f in picked
    ensures level > 0 ==> picked == Overlapping(v[level], begin, end)
    ensures Hull(more, begin, end) && NoGap(more) && (forall f :: f in more ==> TableOk(f)) ==> NoGap(picked + more)
  {
    hide NoGap, Hull, TableOk, Filled;
    ghost var lo, hi;
    picked, lo, hi := GetOverlappingInputs(level == 0, v[level], begin, end, more);
    OverlappingMembers(v[level], lo, hi);
    if level > 0 {
      ghost var a, b := OverlappingIsStretch(v[level], lo, hi);
    }
    if Hull(more, begin, end) && NoGap(more) && forall f :: f in more ==> TableOk(f) {
      HullFilled(v[level], more, begin, end);
      PickLeavesNoGap(v[level], level == 0, begin, end, lo, hi, picked, more);
    }
    hide LevelsOk, Overlapping;
  }

  /** Every one of some tables overlaps their range. */
  lemma OverlapsRange(files: seq<Table>, some: seq<Table>, smallest: Entry, largest: Entry)
    requires IsRange(some, smallest, largest) && forall f :: f in files ==> f in some && TableOk(f)
    ensures forall f :: f in files ==> Overlaps(f, Some(smallest.key), Some(largest.key))
  {
    forall f | f in files ensures Overlaps(f, Some(smallest.key), Some(largest.key)) {
      assert !Before(f.Smallest(), smallest) && !Before(largest, f.Largest());
      WithinTable(f, f.Smallest());
    }
  }

  lemma TableIsOk(v: Version, level: nat, f: Table)
    requires LevelsOk(v) && level < NUM_LEVELS && f in v[level]
    ensures TableOk(f)
  {
  }

  lemma IsChosen(v: Version, level: nat, in0: seq<Table>, in1: seq<Table>, smallest: Entry, largest: Entry)
    requires LevelsOk(v) && level + 1 < NUM_LEVELS && Picked(v, level, in0) && Closed(v[level], in0)
    requires IsRange(in0, smallest, largest)
    requires in1 == Overlapping(v[level + 1], Some(smallest.key), Some(largest.key))
    ensures Chosen(v, level, in0, in1)
  {
  }

  /** The tables of the next level that overlap tables without gap leave none. */
  lemma NextLevelMeets(some: seq<Table>, more: seq<Table>, in1: seq<Table>, smallest: Entry, largest: Entry,
                       all: seq<Table>)
    requires IsRange(some, smallest, largest) && NoGap(some + more)
    requires forall g :: g in in1 ==> Overlaps(g, Some(smallest.key), Some(largest.key))
    requires forall f :: f in all <==> f in some || f in more || f in in1
    ensures NoGap(all)
  {
    forall g | g in in1 ensures Meets(some + more, g) {
      var low :| low in some && smallest == low.Smallest();
      var high :| high in some && largest == high.Largest();
      assert low in some + more && high in some + more;
    }
    NoGapWith(some + more, in1, all);
  }

  /** What overlaps the range of some tables overlaps that of more of them. */
  lemma WiderRange(some: seq<Table>, all: seq<Table>, s: Entry, l: Entry, s': Entry, l': Entry, f: Table)
    requires IsRange(some, s, l) && IsRange(all, s', l') && forall g :: g in some ==> g in all
    requires Overlaps(f, Some(s.key), Some(l.key))
    ensures Overlaps(f, Some(s'.key), Some(l'.key))
  {
    var low :| low in some && s == low.Smallest();
    var high :| high in some && l == high.Largest();
    assert !Before(low.Smallest(), s') && !Before(l', high.Largest());
  }

  /** The inputs of both levels to begin with. */
  method FirstInputs(v: Version, level: nat, picked: seq<Table>)
    returns (in0: seq<Table>, in1: seq<Table>, smallest: Entry, largest: Entry)
    requires LevelsOk(v) && level + 1 < NUM_LEVELS && Picked(v, level, picked)
    ensures Picked(v, level, in0) && Closed(v[level], in0) && IsRange(in0, smallest, largest)
    ensures in1 == Overlapping(v[level + 1], Some(smallest.key), Some(largest.key))
    ensures picked <= in0 && (forall f :: f in in0 ==> f in v[level]) && in0 != []
    ensures NoGap(picked) ==> NoGap(in0 + in1)
  {
    hide LevelsOk, Picked, Closed, IsRange, Overlapping, Overlaps, NoGap, Hull, TableOk;
    in0 := CloseInputs(v, level, picked, []);
    assert picked + [] == picked && in0 + [] == in0;
    smallest, largest := GetRange(in0);
    in1 := PickOverlapping(v, level + 1, Some(smallest.key), Some(largest.key), []);
    OverlappingMembers(v[level + 1], Some(smallest.key), Some(largest.key));
    if NoGap(picked) {
      NextLevelMeets(in0, [], in1, smallest, largest, in0 + in1);
    }
  }

  lemma AllTablesOk(v: Version, level: nat, in0: seq<Table>, in1: seq<Table>)
    requires LevelsOk(v) && level + 1 < NUM_LEVELS
    requires (forall f :: f in in0 ==> f in v[level]) && forall f :: f in in1 ==> f in v[level + 1]
    ensures forall f :: f in in0 + in1 ==> TableOk(f)
  {
    hide TableOk;
  }

  lemma IsHull(files: seq<Table>, smallest: Entry, largest: Entry)
    requires IsRange(files, smallest, largest)
    ensures Hull(files, Some(smallest.key), Some(largest.key))
  {
  }

  /** What overlaps the inputs of both levels, closed. */
  method ExpandedInputs(v: Version, level: nat, in0: seq<Table>, in1: seq<Table>) returns (expanded0: seq<Table>)
    requires LevelsOk(v) && level + 1 < NUM_LEVELS && in0 != []
    requires (forall f :: f in in0 ==> f in v[level]) && forall f :: f in in1 ==> f in v[level + 1]
    ensures Picked(v, level, expanded0) && Closed(v[level], expanded0) && expanded0 != []
    ensures forall f :: f in in0 ==> f in expanded0
    ensures forall f :: f in expanded0 ==> f in v[level]
    ensures NoGap(in0 + in1) ==> NoGap(expanded0 + (in0 + in1))
  {
    hide LevelsOk, Picked, Closed, IsRange, Overlapping, Overlaps, NoGap, Hull, TableOk;
    var allStart, allLimit := GetRange(in0 + in1);
    AllTablesOk(v, level, in0, in1);
    IsHull(in0 + in1, allStart, allLimit);
    var overlapping := PickOverlapping(v, level, Some(allStart.key), Some(allLimit.key), in0 + in1);
    OverlapsRange(in0, in0 + in1, allStart, allLimit);
    assert in0[0] in overlapping;
    expanded0 := CloseInputs(v, level, overlapping, in0 + in1);
    assert forall f :: f in overlapping ==> f in expanded0;
  }

  /** VersionSet::SetupOtherInputs: close the inputs, add what overlaps them in the next level, and if that
      can be had without more of the next level, add to them what overlaps it all. */
  method SetupOtherInputs(v: Version, level: nat, picked: seq<Table>) returns (in0: seq<Table>, in1: seq<Table>)
    requires LevelsOk(v) && level + 1 < NUM_LEVELS && Picked(v, level, picked)
    ensures Chosen(v, level, in0, in1) && forall f :: f in picked ==> f in in0
    ensures NoGap(picked) ==> NoGap(in0 + in1)
  {
    hide LevelsOk, Picked, Closed, IsRange, Overlapping, Overlaps, Chosen, NoGap, Hull;
    var smallest, largest;
    in0, in1, smallest, largest := FirstInputs(v, level, picked);
    IsChosen(v, level, in0, in1, smallest, largest);
    if in1 != [] {
      OverlappingMembers(v[level + 1], Some(smallest.key), Some(largest.key));
      var expanded0 := ExpandedInputs(v, level, in0, in1);
      var notTooLarge: bool := *;
      if |expanded0| > |in0| && notTooLarge {
        var newStart, newLimit := GetRange(expanded0);
        var expanded1 := PickOverlapping(v, level + 1, Some(newStart.key), Some(newLimit.key), []);
        if |expanded1| == |in1| {
          OverlappingMembers(v[level + 1], Some(newStart.key), Some(newLimit.key));
          forall f | f in in1 ensures f in expanded1 {
            WiderRange(in0, expanded0, smallest, largest, newStart, newLimit, f);
          }
          if NoGap(in0 + in1) {
            NextLevelMeets(expanded0, in0 + in1, expanded1, newStart, newLimit, expanded0 + expanded1);
          }
          in0, in1 := expanded0, expanded1;
          IsChosen(v, level, in0, in1, newStart, newLimit);
        }
      }
    }
  }

  lemma OneTableNoGap(f: Table, more: seq<Table>)
    requires TableOk(f) && f in more
    ensures IsRange([f], f.Smallest(), f.Largest()) && NoGap([f])
    ensures NoGap(more + [f]) ==> NoGap(more)
  {
    assert f in [f];
    WithinTable(f, f.Smallest());
    if NoGap(more + [f]) {
      assert forall g :: g in more <==> g in more + [f];
      NoGapWith(more + [f], [], more);
    }
  }

  /** VersionSet::PickCompaction: one table, the one behind the compaction pointer or the one that cost too
      many seeks; in level 0 all that overlap it, and those that overlap them. The tables taken leave no gap. */
  method PickCompaction(v: Version, level: nat, file: nat) returns (in0: seq<Table>, in1: seq<Table>)
    requires LevelsOk(v) && level + 1 < NUM_LEVELS && file < |v[level]|
    ensures Chosen(v, level, in0, in1) && v[level][file] in in0 && NoGap(in0 + in1)
  {
    hide LevelsOk, Chosen, IsRange, NoGap, Hull, Picked;
    var f := v[level][file];
    var picked := [f];
    TableIsOk(v, level, f);
    OneTableNoGap(f, [f]);
    if level == 0 {
      var smallest, largest := GetRange(picked);
      OverlapsRange(picked, picked, smallest, largest);
      IsHull(picked, smallest, largest);
      assert picked[0] in picked;
      picked := PickOverlapping(v, 0, Some(smallest.key), Some(largest.key), [f]);
      OneTableNoGap(f, picked);
    } else {
      OneIsPicked(v, level, file);
    }
    in0, in1 := SetupOtherInputs(v, level, picked);
  }

  lemma OneIsPicked(v: Version, level: nat, file: nat)
    requires 0 < level < NUM_LEVELS && file < |v[level]|
    ensures Picked(v, level, [v[level][file]])
  {
    assert v[level][file..file + 1] == [v[level][file]];
  }

  lemma PrefixPicked(v: Version, level: nat, picked: seq<Table>, n: nat)
    requires 0 < level < NUM_LEVELS && Picked(v, level, picked) && 1 <= n <= |picked|
    ensures Picked(v, level, picked[..n])
  {
    var a, b :| 0 <= a < b <= |v[level]| && picked == v[level][a..b];
    assert picked[..n] == v[level][a..a + n];
  }

  /** VersionSet::CompactRange: what overlaps the range; above level 0 only the first tables of it, up to a
      limit of bytes. */
  method CompactRange(v: Version, level: nat, begin: Option<UserKey>, end: Option<UserKey>)
    returns (some: bool, in0: seq<Table>, in1: seq<Table>)
    requires LevelsOk(v) && level + 1 < NUM_LEVELS
    ensures some ==> Chosen(v, level, in0, in1)
    ensures !some ==> forall f :: f in v[level] ==> !Overlaps(f, begin, end)
  {
    hide LevelsOk, Picked, Chosen, Overlaps;
    var picked := PickOverlapping(v, level, begin, end, []);
    some, in0, in1 := picked != [], [], [];
    if some {
      if level > 0 {
        var n :| 1 <= n <= |picked|;
        PrefixPicked(v, level, picked, n);
        picked := picked[..n];
      }
      in0, in1 := SetupOtherInputs(v, level, picked);
    }
  }

  // ----- the base level -----

  /** No table two or more levels below has a range of user keys that contains `k`. */
  predicate IsBase(v: Version, level: nat, k: UserKey) {
    forall l :: level + 2 <= l < NUM_LEVELS ==> forall f :: f in v[l] ==> !Covers(f, k)
  }

  /** The tables before `place` end before `k`, and that is all that can contain it. */
  lemma NoneCovers(files: seq<Table>, place: nat, k: UserKey)
    requires TablesSorted(files) && Ordered(files) && place <= |files|
    requires forall j :: 0 <= j < place ==> files[j].Largest().key < k
    requires place < |files| ==> k < files[place].Smallest().key
    ensures forall f :: f in files ==> !Covers(f, k)
  {
    forall f | f in files ensures !Covers(f, k) {
      var j :| 0 <= j < |files| && files[j] == f;
      if place < j {
        OrderedEntries(files, place, j, files[place].Smallest(), f.Smallest());
      }
    }
  }

  /** The part of a Compaction that remembers, for user keys asked in ascending order, how far the tables
      of the deeper levels lie behind them. */
  class BaseLevels {
    const inputVersion: Version
    const level: nat
    var levelPtrs: seq<nat>

    constructor (inputVersion: Version, level: nat)
      ensures this.inputVersion == inputVersion && this.level == level && forall k :: Passed(k)
    {
      this.inputVersion, this.level := inputVersion, level;
      levelPtrs := seq(NUM_LEVELS, i => 0);
    }

    /** What the pointers have passed ends before `k`. */
    ghost predicate Passed(k: UserKey)
      reads this
    {
      && |levelPtrs| == NUM_LEVELS
      && (forall l :: 0 <= l < NUM_LEVELS ==> levelPtrs[l] <= |inputVersion[l]|)
      && forall l, j :: 0 <= l < NUM_LEVELS && 0 <= j < levelPtrs[l] ==> inputVersion[l][j].Largest().key < k
    }

    /** One level: advance the pointer, and say whether the table there contains the key. */
    method CoveredIn(lvl: nat, k: UserKey) returns (covered: bool)
      requires LevelsOk(inputVersion) && 0 < lvl < NUM_LEVELS && Passed(k)
      modifies this
      ensures Passed(k) && (covered <==> exists f :: f in inputVersion[lvl] && Covers(f, k))
    {
      hide TableOk, NumberedByAge, Newer;
      var files := inputVersion[lvl];
      while levelPtrs[lvl] < |files|
        invariant Passed(k)
        decreases |files| - levelPtrs[lvl]
      {
        var f := files[levelPtrs[lvl]];
        if k <= f.Largest().key {
          if k >= f.Smallest().key {
            assert f in files;
            return true;
          }
          break;
        }
        levelPtrs := levelPtrs[lvl := levelPtrs[lvl] + 1];
      }
      NoneCovers(files, levelPtrs[lvl], k);
      covered := false;
    }

    /** Compaction::IsBaseLevelForKey. */
    method IsBaseLevelForKey(k: UserKey) returns (base: bool)
      requires LevelsOk(inputVersion) && Passed(k)
      modifies this
      ensures base == IsBase(inputVersion, level, k) && forall k' :: k <= k' ==> Passed(k')
    {
      hide LevelsOk, Covers;
      var lvl := level + 2;
      while lvl < NUM_LEVELS
        invariant level + 2 <= lvl && Passed(k)
        invariant forall l :: level + 2 <= l < lvl && l < NUM_LEVELS ==>
          forall f :: f in inputVersion[l] ==> !Covers(f, k)
      {
        var covered := CoveredIn(lvl, k);
        if covered {
          return false;
        }
        lvl := lvl + 1;
      }
      return true;
    }
  }
}
