/**
  The bidirectional cursor over user keys (db/db_iter.cc). It walks the merged run of all
  versions and shows one entry per live user key, hiding newer, overwritten and deleted
  versions.

  The loops are proved against positions in the run (`LiveAt`); `Lands` then states, in
  terms of `Format.Read` alone, where every call leaves the cursor.
 */
module DbIter {
  import opened Format

  /** The merging iterator below: a position in one sorted run; off either end is invalid. The run may
      grow: the cursor stays at its entry. */
  class Cursor {
    var entries: seq<Entry>
    var pos: int

    ghost predicate InRange()
      reads this
    {
      -1 <= pos <= |entries|
    }

    predicate Valid()
      reads this
    {
      0 <= pos < |entries|
    }

    constructor (entries: seq<Entry>)
      ensures this.entries == entries && InRange() && !Valid()
    {
      this.entries, pos := entries, -1;
    }

    method Next()
      requires Valid()
      modifies this`pos
      ensures pos == old(pos) + 1 && InRange()
    {
      pos := pos + 1;
    }

    method Prev()
      requires Valid()
      modifies this`pos
      ensures pos == old(pos) - 1 && InRange()
    {
      pos := pos - 1;
    }

    method SeekToFirst()
      modifies this`pos
      ensures InRange() && pos == 0
    {
      pos := 0;
    }

    method SeekToLast()
      modifies this`pos
      ensures InRange() && pos == |entries| - 1
    {
      pos := |entries| - 1;
    }

    method Seek(target: Entry)
      modifies this`pos
      ensures InRange() && 0 <= pos
      ensures forall j :: 0 <= j < pos ==> Before(entries[j], target)
      ensures Valid() ==> !Before(entries[pos], target)
    {
      pos := 0;
      while pos < |entries| && Before(entries[pos], target)
        invariant 0 <= pos <= |entries|
        invariant forall j :: 0 <= j < pos ==> Before(entries[j], target)
      {
        pos := pos + 1;
      }
    }
  }

  datatype Direction = Forward | Reverse

  /** The first version of its user key that a reader at `s` may see. */
  ghost predicate NewestAt(es: seq<Entry>, s: nat, i: int)
    requires 0 <= i < |es|
  {
    Visible(es[i], s) && forall j :: 0 <= j < i && es[j].key == es[i].key ==> !Visible(es[j], s)
  }

  ghost predicate LiveAt(es: seq<Entry>, s: nat, i: int) {
    0 <= i < |es| && NewestAt(es, s, i) && es[i].kind.Put?
  }

  /** Keys grow along a sorted run, and no user key is live twice. */
  lemma LiveKeysIncrease(es: seq<Entry>, s: nat)
    requires Sorted(es)
    ensures forall i, j :: 0 <= i <= j < |es| ==> es[i].key <= es[j].key
    ensures forall i, j :: LiveAt(es, s, i) && LiveAt(es, s, j) && i < j ==> es[i].key < es[j].key
  {
    forall i, j | 0 <= i < j < |es| ensures es[i].key <= es[j].key {
      assert Before(es[i], es[j]);
    }
  }

  /** A seek lands behind every version it must not see. */
  lemma SeekStartsClean(es: seq<Entry>, s: nat, target: UserKey, p: int)
    requires Sorted(es) && 0 <= p <= |es|
    requires forall j :: 0 <= j < p ==> Before(es[j], SeekKey(target, s))
    requires p < |es| ==> !Before(es[p], SeekKey(target, s))
    ensures p < |es| ==> Skipping(es, s, p, p, None, None)
    ensures forall j :: LiveAt(es, s, j) && es[j].key >= target ==> j >= p
    ensures forall j :: p <= j < |es| ==> es[j].key >= target
  {
    LiveKeysIncrease(es, s);
    forall j | 0 <= j < p && Visible(es[j], s) ensures es[j].key < target {
      assert Before(es[j], SeekKey(target, s));
    }
  }

  ghost predicate Past(k: UserKey, skip: Option<UserKey>) {
    skip.Some? && k <= skip.value
  }

  /** What FindNextUserEntry knows at position `p`, having started at `start` to skip keys up
      to `skip` and now skipping keys up to `now`: nothing passed was acceptable, every
      visible version passed is out of the way of the versions ahead, and a raised bound is
      the key of a visible version passed. */
  ghost predicate Skipping(es: seq<Entry>, s: nat, start: int, p: int, skip: Option<UserKey>, now: Option<UserKey>) {
    && 0 <= start <= p <= |es| && start < |es|
    && (forall j :: start <= j < p && LiveAt(es, s, j) ==> Past(es[j].key, skip))
    && (skip.Some? ==> Past(skip.value, now))
    && (skip.Some? ==> forall j :: start <= j < |es| && Visible(es[j], s) ==> es[j].key >= skip.value)
    && (forall j :: 0 <= j < p && Visible(es[j], s) ==> Past(es[j].key, now) || es[j].key < es[start].key)
    && (now != skip ==> exists d :: 0 <= d < p && Visible(es[d], s) && now == Some(es[d].key))
  }

  /** FindNextUserEntry passes versions that are invisible or to be skipped. */
  lemma SkipHidden(es: seq<Entry>, s: nat, start: int, p: int, skip: Option<UserKey>, now: Option<UserKey>)
    requires Sorted(es) && Skipping(es, s, start, p, skip, now) && p < |es|
    requires Visible(es[p], s) ==> es[p].kind.Put? && Past(es[p].key, now)
    ensures Skipping(es, s, start, p + 1, skip, now)
  {
    LiveKeysIncrease(es, s);
  }

  /** It raises the bound at a visible deletion. */
  lemma SkipDeletion(es: seq<Entry>, s: nat, start: int, p: int, skip: Option<UserKey>, now: Option<UserKey>)
    requires Sorted(es) && Skipping(es, s, start, p, skip, now) && p < |es|
    requires Visible(es[p], s) && es[p].kind.Deletion?
    ensures Skipping(es, s, start, p + 1, skip, Some(es[p].key))
  {
    LiveKeysIncrease(es, s);
  }

  /** It stops only at a live entry. */
  lemma SkipFound(es: seq<Entry>, s: nat, start: int, p: int, skip: Option<UserKey>, now: Option<UserKey>)
    requires Sorted(es) && Skipping(es, s, start, p, skip, now) && p < |es|
    requires Visible(es[p], s) && es[p].kind.Put? && !Past(es[p].key, now)
    ensures LiveAt(es, s, p) && !Past(es[p].key, skip)
  {
    LiveKeysIncrease(es, s);
  }

  /** What FindPrevUserEntry knows above position `p`, having started at `start`: the only
      entry passed that can still be live is the pending one, and nothing visible has been
      passed since. */
  ghost predicate Backing(es: seq<Entry>, s: nat, start: int, p: int, pending: Option<int>) {
    && -1 <= p <= start < |es|
    && (forall j :: p < j <= start && LiveAt(es, s, j) ==> pending == Some(j))
    && (pending.Some? ==> && p < pending.value <= start
                          && Visible(es[pending.value], s) && es[pending.value].kind.Put?
                          && forall j :: p < j < pending.value ==> !Visible(es[j], s))
  }

  /** The last live entry at or before `start`. */
  ghost predicate LastLive(es: seq<Entry>, s: nat, start: int, i: int) {
    LiveAt(es, s, i) && i <= start < |es| && forall j :: i < j <= start ==> !LiveAt(es, s, j)
  }

  /** One turn of FindPrevUserEntry. */
  lemma BackStep(es: seq<Entry>, s: nat, start: int, p: int, pending: Option<int>)
    requires Sorted(es) && Backing(es, s, start, p, pending) && 0 <= p
    ensures !Visible(es[p], s) ==> Backing(es, s, start, p - 1, pending)
    ensures Visible(es[p], s) && (pending.Some? ==> es[p].key >= es[pending.value].key) ==>
      Backing(es, s, start, p - 1, if es[p].kind.Put? then Some(p) else None)
    ensures Visible(es[p], s) && pending.Some? && es[p].key < es[pending.value].key ==>
      LastLive(es, s, start, pending.value)
  {
    forall j | 0 <= j < p ensures es[j].key <= es[p].key {
      assert Before(es[j], es[p]);
    }
    if pending.Some? {
      assert Before(es[p], es[pending.value]);
    }
  }

  /** Where the cursor stands, seen from outside. */
  datatype Position = Off | At(key: UserKey, value: Value)

  datatype Op = First | Last | To(target: UserKey) | Moves(forward: bool)

  /** The keys an operation may land on, and which of two it prefers. */
  predicate Candidate(from: Position, op: Op, k: UserKey) {
    match op
    case First => true
    case Last => true
    case To(target) => k >= target
    case Moves(forward) => from.At? && (if forward then k > from.key else k < from.key)
  }

  predicate Upward(op: Op) { !(op.Last? || op == Moves(false)) }

  /** The same choice between positions of the run. */
  ghost predicate CandidateAt(es: seq<Entry>, from: Option<int>, op: Op, j: int) {
    match op
    case First => true
    case Last => true
    case To(target) => 0 <= j < |es| && es[j].key >= target
    case Moves(forward) => from.Some? && (if forward then j > from.value else j < from.value)
  }

  ghost predicate Reaches(es: seq<Entry>, s: nat, from: Option<int>, op: Op, to: Option<int>) {
    match to
    case None => forall j :: LiveAt(es, s, j) ==> !CandidateAt(es, from, op, j)
    case Some(c) =>
      && LiveAt(es, s, c) && CandidateAt(es, from, op, c)
      && forall j :: LiveAt(es, s, j) && CandidateAt(es, from, op, j) ==> if Upward(op) then c <= j else j <= c
  }

  /** Where an operation must land on the map at `s`: on the nearest candidate key that has a
      value, showing that value; off the map exactly when there is no such key. */
  ghost predicate Lands(es: set<Entry>, s: nat, from: Position, op: Op, to: Position) {
    match to
    case Off => forall k :: Read(es, k, s).Some? ==> !Candidate(from, op, k)
    case At(key, value) =>
      && Candidate(from, op, key) && Read(es, key, s) == Some(value)
      && forall k :: Read(es, k, s).Some? && Candidate(from, op, k) ==> if Upward(op) then key <= k else k <= key
  }

  /** `Lands` leaves the cursor no choice. */
  lemma LandingIsUnique(es: set<Entry>, s: nat, from: Position, op: Op, p: Position, q: Position)
    requires Lands(es, s, from, op, p) && Lands(es, s, from, op, q)
    ensures p == q
  {
    if p.At? {
      assert Read(es, p.key, s).Some?;
    }
    if q.At? {
      assert Read(es, q.key, s).Some?;
    }
  }

  /** Next undoes Prev and Prev undoes Next, wherever there is a neighbour. */
  lemma NextUndoesPrev(es: set<Entry>, s: nat, forward: bool, p: Position, q: Position, r: Position)
    requires p.At? && Read(es, p.key, s) == Some(p.value)
    requires Lands(es, s, p, Moves(forward), q) && q.At?
    requires Lands(es, s, q, Moves(!forward), r)
    ensures r == p
  {
    assert Read(es, p.key, s).Some? && Candidate(q, Moves(!forward), p.key);
    assert r.At? ==> Read(es, r.key, s).Some?;
  }

  /** The positions the cursor stops at are the live keys of the map. */
  lemma LiveAtIsRead(es: seq<Entry>, s: nat, k: UserKey)
    requires Sorted(es) && NoClash(Elements(es))
    ensures Read(Elements(es), k, s).Some? <==> exists i :: LiveAt(es, s, i) && es[i].key == k
    ensures forall i :: LiveAt(es, s, i) && es[i].key == k ==> Read(Elements(es), k, s) == Some(es[i].value)
  {
    forall i | 0 <= i < |es| && es[i].key == k ensures NewestAt(es, s, i) <==> IsNewest(Elements(es), k, s, es[i]) {
      NewestAtIsNewest(es, s, i);
    }
    forall i | LiveAt(es, s, i) && es[i].key == k ensures Read(Elements(es), k, s) == Some(es[i].value) {
      ReadIs(Elements(es), k, s, es[i]);
    }
    if Read(Elements(es), k, s).Some? {
      var e :| IsNewest(Elements(es), k, s, e) && Read(Elements(es), k, s) == Payload(e);
      assert IsNewest(Elements(es), k, s, e);
      var i :| 0 <= i < |es| && es[i] == e;
      assert LiveAt(es, s, i);
    }
  }

  lemma NewestAtIsNewest(es: seq<Entry>, s: nat, i: int)
    requires Sorted(es) && NoClash(Elements(es)) && 0 <= i < |es|
    ensures NewestAt(es, s, i) <==> IsNewest(Elements(es), es[i].key, s, es[i])
  {
    forall j | 0 <= j < |es| && es[j].key == es[i].key
      ensures es[j] in Elements(es) && (j < i ==> es[j].sn > es[i].sn) && (i < j ==> es[i].sn > es[j].sn)
    {
      assert j < i ==> Before(es[j], es[i]);
      assert i < j ==> Before(es[i], es[j]);
    }
  }

  ghost function PositionAt(es: seq<Entry>, c: Option<int>): Position
    requires c.Some? ==> 0 <= c.value < |es|
  {
    if c.Some? then At(es[c.value].key, es[c.value].value) else Off
  }

  lemma SameCandidates(es: seq<Entry>, s: nat, from: Option<int>, op: Op, j: int)
    requires Sorted(es) && LiveAt(es, s, j)
    requires from.Some? ==> LiveAt(es, s, from.value)
    ensures CandidateAt(es, from, op, j) <==> Candidate(PositionAt(es, from), op, es[j].key)
  {
    LiveKeysIncrease(es, s);
  }

  lemma ReachesLands(es: seq<Entry>, s: nat, from: Option<int>, op: Op, to: Option<int>)
    requires Sorted(es) && NoClash(Elements(es))
    requires from.Some? ==> LiveAt(es, s, from.value)
    requires Reaches(es, s, from, op, to)
    ensures Lands(Elements(es), s, PositionAt(es, from), op, PositionAt(es, to))
  {
    hide Read, Sorted, NoClash, NewestAt, CandidateAt, Candidate;
    LiveKeysIncrease(es, s);
    forall k | Read(Elements(es), k, s).Some?
      ensures exists i :: (LiveAt(es, s, i) && es[i].key == k
                           && (CandidateAt(es, from, op, i) <==> Candidate(PositionAt(es, from), op, k)))
    {
      LiveAtIsRead(es, s, k);
      var i :| LiveAt(es, s, i) && es[i].key == k;
      SameCandidates(es, s, from, op, i);
    }
    if to.Some? {
      LiveAtIsRead(es, s, es[to.value].key);
      SameCandidates(es, s, from, op, to.value);
    }
  }

  function Prior(from: Position, seen: seq<Position>, i: nat): Position
    requires i <= |seen|
  {
    if i == 0 then from else seen[i - 1]
  }

  /** What a caller saw over a run of calls. */
  ghost predicate Trace(es: set<Entry>, s: nat, from: Position, ops: seq<Op>, seen: seq<Position>) {
    && |seen| <= |ops|
    && forall i :: 0 <= i < |seen| ==> Lands(es, s, Prior(from, seen, i), ops[i], seen[i])
  }

  lemma TraceExtends(es: set<Entry>, s: nat, from: Position, ops: seq<Op>, seen: seq<Position>, p: Position)
    requires Trace(es, s, from, ops, seen) && |seen| < |ops|
    requires Lands(es, s, Prior(from, seen, |seen|), ops[|seen|], p)
    ensures Trace(es, s, from, ops, seen + [p])
  {
    hide Lands;
    forall i | 0 <= i < |seen| + 1
      ensures Lands(es, s, Prior(from, seen + [p], i), ops[i], (seen + [p])[i])
    {
      assert i < |seen| ==> Lands(es, s, Prior(from, seen, i), ops[i], seen[i]);
      assert Prior(from, seen + [p], i) == Prior(from, seen, i);
    }
  }

  // ----- a run that grows -----

  /** The run has gained nothing but entries numbered above `s`. */
  ghost predicate Grows(es: seq<Entry>, more: seq<Entry>, s: nat) {
    Sorted(more) && Elements(es) <= Elements(more) && forall e :: e in more && e !in es ==> e.sn > s
  }

  /** What the run below holds before call `i`, and that it only ever grows. */
  function RunBefore(es: seq<Entry>, runs: seq<seq<Entry>>, i: nat): seq<Entry>
    requires i <= |runs|
  {
    if i == 0 then es else runs[i - 1]
  }

  ghost predicate GrowsOver(es: seq<Entry>, runs: seq<seq<Entry>>, s: nat) {
    && NoClash(Elements(es))
    && forall i :: 0 <= i < |runs| ==> Grows(RunBefore(es, runs, i), runs[i], s) && NoClash(Elements(runs[i]))
  }

  /** Where an entry of the run stands when it has grown. */
  function PlaceIn(es: seq<Entry>, more: seq<Entry>, i: int): (p: int)
    requires 0 <= i < |es| && Sorted(more) && Elements(es) <= Elements(more)
    ensures 0 <= p < |more| && more[p] == es[i]
  {
    assert es[i] in Elements(es) && es[i] in more;
    OnePlace(more, es[i]);
    var p :| 0 <= p < |more| && more[p] == es[i];
    p
  }

  lemma OnePlace(es: seq<Entry>, e: Entry)
    requires Sorted(es)
    ensures forall i, j :: 0 <= i < |es| && 0 <= j < |es| && es[i] == e && es[j] == e ==> i == j
  {
    forall i, j | 0 <= i < j < |es| ensures es[i] != es[j] {
      assert Before(es[i], es[j]);
    }
  }

  lemma NotBefore(es: seq<Entry>, i: int, j: int)
    requires Sorted(es) && 0 <= i <= j < |es|
    ensures !Before(es[j], es[i])
  {
    assert i < j ==> Before(es[i], es[j]);
  }

  /** What was live stays so, and places keep their order. */
  lemma StaysLive(es: seq<Entry>, more: seq<Entry>, s: nat, i: int, p: int)
    requires Sorted(es) && Grows(es, more, s) && LiveAt(es, s, i) && 0 <= p < |more| && more[p] == es[i]
    ensures LiveAt(more, s, p)
    ensures forall j, q :: 0 <= j < i && 0 <= q < |more| && more[q] == es[j] ==> q < p
  {
    forall q | 0 <= q < p && more[q].key == more[p].key ensures !Visible(more[q], s) {
      assert Before(more[q], more[p]);
      if Visible(more[q], s) {
        var j :| 0 <= j < |es| && es[j] == more[q];
        if i <= j {
          NotBefore(es, i, j);
        }
      }
    }
    forall j, q | 0 <= j < i && 0 <= q < |more| && more[q] == es[j] ensures q < p {
      assert Before(es[j], es[i]);
      if p <= q {
        NotBefore(more, p, q);
      }
    }
  }

  /** Two sets that read alike at `s`. */
  ghost predicate SameMap(es: set<Entry>, fs: set<Entry>, s: nat) {
    forall k :: Read(es, k, s) == Read(fs, k, s)
  }

  lemma SameItself(es: set<Entry>, s: nat)
    ensures SameMap(es, es, s)
  {
  }

  lemma GrowsUnseen(es: set<Entry>, fs: seq<Entry>, more: seq<Entry>, s: nat)
    requires SameMap(es, Elements(fs), s) && Grows(fs, more, s) && NoClash(Elements(fs)) && NoClash(Elements(more))
    ensures SameMap(es, Elements(more), s)
  {
    forall k ensures Read(Elements(fs), k, s) == Read(Elements(more), k, s) {
      ReadDependsOnVisible(Elements(fs), Elements(more), k, s);
    }
    hide Read;
  }

  lemma SameLanding(es: set<Entry>, fs: set<Entry>, s: nat, from: Position, op: Op, to: Position)
    requires SameMap(es, fs, s) && Lands(fs, s, from, op, to)
    ensures Lands(es, s, from, op, to)
  {
    hide Read;
  }

  class DBIter {
    const iter: Cursor
    const sequence: nat
    var direction: Direction
    var valid: bool
    var savedKey: Option<UserKey>   // None: cleared, or holding scratch bytes
    var savedValue: Value
    var corrupted: bool             // status_ after a key that does not parse
    ghost var cur: int              // position of the entry shown, when valid

    ghost predicate Invariant()
      reads this, iter
    {
      && Sorted(iter.entries) && iter.InRange()
      && (valid ==> LiveAt(iter.entries, sequence, cur))
      && (valid && direction.Forward? ==> iter.pos == cur)
      && (valid && direction.Reverse? ==> JustBefore())
    }

    /** Moving backwards, the run is positioned before every version of the saved key; only
        versions this reader cannot see lie in between. */
    ghost predicate JustBefore()
      requires 0 <= cur < |iter.entries|
      requires iter.InRange()
      reads this, iter
    {
      && savedKey == Some(iter.entries[cur].key) && savedValue == iter.entries[cur].value
      && iter.pos < cur
      && (forall j :: iter.pos < j < cur ==> !Visible(iter.entries[j], sequence))
      && (iter.Valid() ==> iter.entries[iter.pos].key < iter.entries[cur].key)
    }

    constructor (iter: Cursor, sequence: nat)
      requires Sorted(iter.entries) && iter.InRange()
      ensures this.iter == iter && this.sequence == sequence
      ensures Invariant() && !valid
    {
      this.iter, this.sequence := iter, sequence;
      direction, valid, corrupted := Forward, false, false;
      savedKey, savedValue, cur := None, "", 0;
    }

    ghost function Current(): Option<int>
      reads this
    {
      if valid then Some(cur) else None
    }

    method Key() returns (k: UserKey)
      requires Invariant() && valid
      ensures k == iter.entries[cur].key
    {
      k := if direction.Forward? then iter.entries[iter.pos].key else savedKey.value;
    }

    method CurrentValue() returns (v: Value)
      requires Invariant() && valid
      ensures v == iter.entries[cur].value
    {
      v := if direction.Forward? then iter.entries[iter.pos].value else savedValue;
    }

    /** ParseKey, and the sequence test that always accompanies it. */
    method SeesCurrent() returns (b: bool)
      requires iter.Valid()
      modifies this`corrupted
      ensures b == Visible(iter.entries[iter.pos], sequence)
    {
      if !Parses(iter.entries[iter.pos]) {
        corrupted := true;
      }
      b := Visible(iter.entries[iter.pos], sequence);
    }

    /** Forward: stop at the first live entry from here on whose key is not to be skipped. */
    method FindNextUserEntry(skipping: bool)
      requires Sorted(iter.entries) && iter.Valid() && direction.Forward?
      requires skipping ==> savedKey.Some?
      requires var skip := if skipping then savedKey else None;
        Skipping(iter.entries, sequence, iter.pos, iter.pos, skip, skip)
      modifies this, iter`pos
      ensures Invariant() && direction.Forward?
      ensures var es, start, skip := iter.entries, old(iter.pos), if skipping then old(savedKey) else None;
        && (valid ==> cur >= start && !Past(es[cur].key, skip)
                      && forall j :: start <= j < cur && LiveAt(es, sequence, j) ==> Past(es[j].key, skip))
        && (!valid ==> forall j :: start <= j && LiveAt(es, sequence, j) ==> Past(es[j].key, skip))
    {
      ghost var skip := if skipping then savedKey else None;
      ghost var start := iter.pos;
      var es := iter.entries;
      var skipNow := skipping;
      while iter.Valid()
        invariant direction.Forward? && (skipNow ==> savedKey.Some?)
        invariant Skipping(es, sequence, start, iter.pos, skip, if skipNow then savedKey else None)
        decreases |es| - iter.pos
      {
        var p := iter.pos;
        ghost var now := if skipNow then savedKey else None;
        var sees := SeesCurrent();
        if sees {
          if es[p].kind.Deletion? {
            SkipDeletion(es, sequence, start, p, skip, now);
            savedKey := Some(es[p].key);
            skipNow := true;
          } else if skipNow && es[p].key <= savedKey.value {
            SkipHidden(es, sequence, start, p, skip, now);
          } else {
            SkipFound(es, sequence, start, p, skip, now);
            valid, cur, savedKey := true, p, None;
            return;
          }
        } else {
          SkipHidden(es, sequence, start, p, skip, now);
        }
        iter.Next();
      }
      savedKey, valid := None, false;
    }

    /** Backward: collect the newest visible version of the last live key up to here. */
    method FindPrevUserEntry()
      requires Sorted(iter.entries) && iter.InRange() && iter.pos < |iter.entries| && direction.Reverse?
      modifies this, iter`pos
      ensures Invariant() && (valid ==> direction.Reverse?)
      ensures valid ==> LastLive(iter.entries, sequence, old(iter.pos), cur)
      ensures !valid ==> forall j :: j <= old(iter.pos) ==> !LiveAt(iter.entries, sequence, j)
    {
      var kind := Deletion;
      var es := iter.entries;
      ghost var start, pending := iter.pos, None;
      while iter.Valid()
        invariant direction.Reverse? && iter.pos <= start < |es| && iter.InRange()
        invariant Backing(es, sequence, start, iter.pos, pending)
        invariant kind.Put? <==> pending.Some?
        invariant pending.Some? ==> savedKey == Some(es[pending.value].key) && savedValue == es[pending.value].value
        invariant !kind.Unknown?
        decreases iter.pos
      {
        var p := iter.pos;
        BackStep(es, sequence, start, p, pending);
        var sees := SeesCurrent();
        if sees {
          if !kind.Deletion? && es[p].key < savedKey.value {
            break;
          }
          kind := es[p].kind;
          if kind.Deletion? {
            savedKey, savedValue := None, "";
          } else {
            savedKey, savedValue := Some(es[p].key), es[p].value;
          }
          pending := if kind.Put? then Some(p) else None;
        }
        iter.Prev();
      }
      if kind.Deletion? {
        valid, savedKey, savedValue, direction := false, None, "", Forward;
      } else {
        valid, cur := true, pending.value;
      }
    }

    method Next()
      requires Invariant() && valid
      modifies this, iter`pos
      ensures Invariant()
      ensures Reaches(iter.entries, sequence, old(Current()), Moves(true), Current())
    {
      if direction.Reverse? {
        direction := Forward;
        if !iter.Valid() {
          iter.SeekToFirst();
        } else {
          iter.Next();
        }
        if !iter.Valid() {
          // The guard at db_iter.cc:154: the entry shown still lies ahead.
          assert false;
        }
      } else {
        savedKey := Some(iter.entries[iter.pos].key);
      }
      LiveKeysIncrease(iter.entries, sequence);
      FindNextUserEntry(true);
    }

    method Prev()
      requires Invariant() && valid
      modifies this, iter`pos
      ensures Invariant()
      ensures Reaches(iter.entries, sequence, old(Current()), Moves(false), Current())
    {
      LiveKeysIncrease(iter.entries, sequence);
      if direction.Forward? {
        var key := iter.entries[iter.pos].key;
        savedKey := Some(key);
        while true
          invariant Sorted(iter.entries) && iter.InRange() && iter.Valid() && iter.pos <= cur
          invariant forall j :: iter.pos <= j < cur ==> iter.entries[j].key >= key
          modifies iter`pos
          decreases iter.pos
        {
          iter.Prev();
          if !iter.Valid() || iter.entries[iter.pos].key < key {
            break;
          }
        }
        if !iter.Valid() {
          valid, savedKey, savedValue := false, None, "";
          return;
        }
        direction := Reverse;
      }
      FindPrevUserEntry();
    }

    method Seek(target: UserKey)
      requires Invariant()
      modifies this, iter`pos
      ensures Invariant()
      ensures Reaches(iter.entries, sequence, old(Current()), To(target), Current())
    {
      direction, savedValue := Forward, "";
      savedKey := None;
      iter.Seek(SeekKey(target, sequence));
      SeekStartsClean(iter.entries, sequence, target, iter.pos);
      if iter.Valid() {
        FindNextUserEntry(false);
      } else {
        valid := false;
      }
    }

    method SeekToFirst()
      requires Invariant()
      modifies this, iter`pos
      ensures Invariant()
      ensures Reaches(iter.entries, sequence, old(Current()), First, Current())
    {
      direction, savedValue := Forward, "";
      iter.SeekToFirst();
      if iter.Valid() {
        FindNextUserEntry(false);
      } else {
        valid := false;
      }
    }

    method SeekToLast()
      requires Invariant()
      modifies this, iter`pos
      ensures Invariant()
      ensures Reaches(iter.entries, sequence, old(Current()), Last, Current())
    {
      direction, savedValue := Reverse, "";
      iter.SeekToLast();
      FindPrevUserEntry();
    }

    /** What a caller observes. */
    ghost function Shown(): Position
      requires Invariant()
      reads this, iter
    {
      PositionAt(iter.entries, Current())
    }

    method Observe() returns (p: Position)
      requires Invariant()
      ensures p == Shown()
    {
      if valid {
        var k := Key();
        var v := CurrentValue();
        p := At(k, v);
      } else {
        p := Off;
      }
    }

    /** Any call lands where the map at `sequence` says. */
    method Step(op: Op)
      requires Invariant() && NoClash(Elements(iter.entries))
      requires op.Moves? ==> valid
      modifies this, iter`pos
      ensures Invariant()
      ensures Lands(Elements(iter.entries), sequence, old(Shown()), op, Shown())
    {
      hide Lands, Reaches;
      match op {
        case First => SeekToFirst();
        case Last => SeekToLast();
        case To(target) => Seek(target);
        case Moves(forward) => if forward { Next(); } else { Prev(); }
      }
      ReachesLands(iter.entries, sequence, old(Current()), op, Current());
    }

    /** A memtable below is written to while the cursor is open: what it shows stays the same. */
    method Grow(more: seq<Entry>)
      requires Invariant() && Grows(iter.entries, more, sequence)
      modifies this`cur, iter
      ensures Invariant() && iter.entries == more && Shown() == old(Shown())
    {
      var es := iter.entries;
      if iter.Valid() {
        iter.pos := PlaceIn(es, more, iter.pos);
      } else if iter.pos >= 0 {
        iter.pos := |more|;
      }
      ghost var was := cur;
      if valid {
        cur := PlaceIn(es, more, cur);
        StaysLive(es, more, sequence, was, cur);
      }
      iter.entries := more;
    }

    /** A whole run of calls, up to where the caller would move an invalid cursor; before each of them the
        run below may have gained entries that the cursor must not see. */
    method Run(ops: seq<Op>, runs: seq<seq<Entry>>) returns (seen: seq<Position>)
      requires Invariant() && |runs| == |ops| && GrowsOver(iter.entries, runs, sequence)
      modifies this, iter
      ensures Trace(old(Elements(iter.entries)), sequence, old(Shown()), ops, seen)
      ensures |seen| < |ops| ==> ops[|seen|].Moves? && Prior(old(Shown()), seen, |seen|) == Off
    {
      hide Lands, SameMap;
      ghost var es, first := Elements(iter.entries), iter.entries;
      seen := [];
      SameItself(es, sequence);
      while |seen| < |ops|
        invariant |seen| <= |ops| && Invariant() && iter.entries == RunBefore(first, runs, |seen|)
        invariant SameMap(es, Elements(iter.entries), sequence)
        invariant Trace(es, sequence, old(Shown()), ops, seen)
        invariant Shown() == Prior(old(Shown()), seen, |seen|)
      {
        var n := |seen|;
        assert Grows(RunBefore(first, runs, n), runs[n], sequence);
        GrowsUnseen(es, iter.entries, runs[n], sequence);
        Grow(runs[n]);
        if ops[n].Moves? && !valid {
          return;
        }
        ghost var from := Shown();
        Step(ops[n]);
        var p := Observe();
        SameLanding(es, Elements(iter.entries), sequence, from, ops[n], p);
        TraceExtends(es, sequence, old(Shown()), ops, seen, p);
        seen := seen + [p];
      }
    }
  }
}
