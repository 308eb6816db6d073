/**
  The memtable (db/memtable.cc): entries in a skip list, looked up by one seek. The byte
  encoding of an entry is left to the comparator order of `Format.Before`.
 */
module MemTable {
  import opened Format
  import opened SkipList

  /** What a layer answers: a value, a deletion, or "look further down". */
  datatype Lookup = Found(value: Value) | Deleted | Absent

  function AsRead(r: Lookup): Option<Value> {
    if r.Found? then Some(r.value) else None
  }

  /** A layer's answer is right for the entries it holds. */
  ghost predicate Answers(es: set<Entry>, k: UserKey, s: nat, r: Lookup) {
    && (r.Absent? <==> NothingVisible(es, k, s))
    && (!r.Absent? ==> exists e :: IsNewest(es, k, s, e) && r == if e.kind.Put? then Found(e.value) else Deleted)
  }

  function EntriesOf(s: seq<Node>): seq<Entry> {
    seq(|s|, i requires 0 <= i < |s| => s[i].entry)
  }

  lemma EntriesSorted(s: seq<Node>)
    requires NodesSorted(s)
    ensures Sorted(EntriesOf(s))
  {
  }

  lemma EntriesInserted(s: seq<Node>, at: nat, x: Node)
    requires at <= |s|
    ensures Elements(EntriesOf(Inserted(s, at, x))) == Elements(EntriesOf(s)) + {x.entry}
  {
    var t, u := EntriesOf(Inserted(s, at, x)), EntriesOf(s);
    forall e | e in t ensures e in u || e == x.entry {
      var i :| 0 <= i < |t| && t[i] == e;
      assert e == if i < at then u[i] else if i == at then x.entry else u[i - 1];
    }
    forall e | e in u ensures e in t {
      var i :| 0 <= i < |u| && u[i] == e;
      assert e == t[if i < at then i else i + 1];
    }
    assert t[at] == x.entry;
  }

  /** An entry whose tag is new for its user key has a place of its own. */
  lemma PlaceIsFree(s: seq<Node>, e: Entry)
    requires forall f :: f in Elements(EntriesOf(s)) && f.key == e.key ==> Tag(f.sn, f.kind) != Tag(e.sn, e.kind)
    ensures forall n :: n in s ==> Before(n.entry, e) || Before(e, n.entry)
  {
    forall n | n in s ensures Before(n.entry, e) || Before(e, n.entry) {
      var i :| 0 <= i < |s| && s[i] == n;
      assert EntriesOf(s)[i] == n.entry && n.entry in Elements(EntriesOf(s));
    }
  }

  lemma AllParseElements(es: seq<Entry>)
    ensures AllParse(es) <==> forall e :: e in Elements(es) ==> Parses(e)
  {
    forall i | 0 <= i < |es| ensures es[i] in Elements(es) { }
  }

  class MemTable {
    const table: SkipList

    ghost predicate Valid()
      reads this, table, table.repr
    {
      table.Valid() && AllParse(EntriesOf(table.levels[0]))
    }

    ghost function Contents(): set<Entry>
      requires |table.levels| == MAX_HEIGHT
      reads this, table
    {
      Elements(EntriesOf(table.levels[0]))
    }

    constructor ()
      ensures Valid() && fresh(table) && fresh(table.repr) && Contents() == {}
    {
      table := new SkipList();
    }

    /** Add. The skip list has no room for two entries with the same user key and tag. */
    method Add(s: nat, kind: Kind, key: UserKey, value: Value, height: nat)
      requires Valid() && !kind.Unknown? && 1 <= height <= MAX_HEIGHT
      requires forall e :: e in Contents() && e.key == key ==> Tag(e.sn, e.kind) != Tag(s, kind)
      modifies table, table.repr
      ensures Valid() && fresh(table.repr - old(table.repr))
      ensures Contents() == old(Contents()) + {Entry(key, s, kind, value)}
    {
      var e := Entry(key, s, kind, value);
      ghost var nodes := table.levels[0];
      PlaceIsFree(nodes, e);
      AllParseElements(EntriesOf(nodes));
      hide AllParse, EntriesOf, Elements, NodesSorted, SplitsAt, Before, Inserted;
      ghost var x, at := table.Insert(e, height);
      EntriesInserted(nodes, at, x);
      AllParseElements(EntriesOf(table.levels[0]));
    }

    /** Get: seek to the lookup key and look at the one entry found there. */
    method Get(key: UserKey, s: nat) returns (r: Lookup)
      requires Valid()
      ensures Answers(Contents(), key, s, r)
    {
      var x, prev;
      ghost var ats;
      x, prev, ats := table.FindGreaterOrEqual(SeekKey(key, s));
      EntriesSorted(table.levels[0]);
      SeekFindsNewest(EntriesOf(table.levels[0]), key, s, ats[0]);
      if x != null && x.entry.key == key {
        assert IsNewest(Contents(), key, s, x.entry);
        r := if x.entry.kind.Put? then Found(x.entry.value) else Deleted;
      } else {
        r := Absent;
      }
    }
  }

  /** Looking in layer after layer, newest first, is reading their union, as long as each layer
      holds only newer versions of a user key than the layers below it. */
  lemma LayeredIsFlat(upper: set<Entry>, lower: set<Entry>, k: UserKey, s: nat, r: Lookup, r': Lookup)
    requires NoClash(upper + lower)
    requires forall u, l :: u in upper && l in lower && u.key == l.key ==> u.sn > l.sn
    requires Answers(upper, k, s, r) && (r.Absent? ==> Answers(lower, k, s, r'))
    ensures Answers(upper + lower, k, s, if r.Absent? then r' else r)
    ensures AsRead(if r.Absent? then r' else r) == Read(upper + lower, k, s)
  {
    var all := upper + lower;
    var answer := if r.Absent? then r' else r;
    if !answer.Absent? {
      var part := if r.Absent? then lower else upper;
      var e :| IsNewest(part, k, s, e) && answer == if e.kind.Put? then Found(e.value) else Deleted;
      assert IsNewest(part, k, s, e);
      assert IsNewest(all, k, s, e);
      ReadIs(all, k, s, e);
    }
  }
}
