/**
  Internal keys (db/dbformat.h, db/dbformat.cc): every stored entry carries a user
  key, a sequence number and a type, and entries are kept in the order of
  `InternalKeyComparator`. On top of that order this module gives the one-line
  meaning every layer of the store refines: what a read of a user key at a
  sequence number returns from a set of entries.
 */
module Format {

  datatype Option<+T> = None | Some(value: T)

  /** A user key stands for its rank under the user-supplied comparator. Keys are byte
      strings, so there are countably many, and every countable total order embeds
      into the reals; no code modelled here looks at a key except through the comparator. */
  type UserKey = real

  type Value = string

  /** kTypeDeletion, kTypeValue, or a type byte that `ParseInternalKey` rejects. */
  datatype Kind = Deletion | Put | Unknown(code: nat)

  datatype Entry = Entry(key: UserKey, sn: nat, kind: Kind, value: Value)

  /** kMaxSequenceNumber: 56 bits, eight are left for the type byte. */
  const MAX_SEQUENCE: nat := 0xFF_FFFF_FFFF_FFFF

  function TypeByte(kind: Kind): (b: nat)
    ensures b < 256
    ensures b <= 1 <==> !kind.Unknown?
  {
    match kind
    case Deletion => 0
    case Put => 1
    case Unknown(code) => 2 + code % 254
  }

  /** PackSequenceAndType: the 64-bit tag stored behind the user key. */
  function Tag(sn: nat, kind: Kind): nat {
    sn * 256 + TypeByte(kind)
  }

  /** ParseInternalKey recovers both halves of the tag. */
  lemma TagIsInjective(s: nat, k: Kind, s': nat, k': Kind)
    requires Tag(s, k) == Tag(s', k')
    ensures s == s' && TypeByte(k) == TypeByte(k')
    ensures Tag(s, k) / 256 == s && Tag(s, k) % 256 == TypeByte(k)
  {
  }

  /** The largest sequence number is the largest whose tag fits into 64 bits. */
  lemma TagFits(sn: nat, kind: Kind)
    ensures Tag(sn, kind) < 0x1_0000_0000_0000_0000 <==> sn <= MAX_SEQUENCE
  {
  }

  predicate Parses(e: Entry) { !e.kind.Unknown? }

  /** InternalKeyComparator::Compare(a, b) < 0: user keys ascending, tags descending. */
  predicate Before(a: Entry, b: Entry) {
    a.key < b.key || (a.key == b.key && Tag(a.sn, a.kind) > Tag(b.sn, b.kind))
  }

  predicate Sorted(es: seq<Entry>) {
    forall i, j :: 0 <= i < j < |es| ==> Before(es[i], es[j])
  }

  predicate AllParse(es: seq<Entry>) {
    forall i :: 0 <= i < |es| ==> Parses(es[i])
  }

  /** The key that a lookup at sequence `s` seeks to; kValueTypeForSeek is kTypeValue,
      the highest type, because tags descend. */
  function SeekKey(k: UserKey, s: nat): Entry {
    Entry(k, s, Put, "")
  }

  /** An entry a reader at sequence `s` may see. */
  predicate Visible(e: Entry, s: nat) {
    Parses(e) && e.sn <= s
  }

  /** `e` is the version of its user key that a reader at `s` must see. */
  ghost predicate IsNewest(es: set<Entry>, k: UserKey, s: nat, e: Entry) {
    && e in es && e.key == k && Visible(e, s)
    && forall f :: f in es && f.key == k && Visible(f, s) ==> f.sn <= e.sn
  }

  /** No two entries of the same user key share a sequence number. */
  ghost predicate NoClash(es: set<Entry>) {
    forall e, f :: e in es && f in es && e.key == f.key && e.sn == f.sn ==> e == f
  }

  function Payload(e: Entry): Option<Value> {
    if e.kind.Put? then Some(e.value) else None
  }

  /** The meaning of a read: the value of the newest visible version, and nothing
      when there is none or when it is a deletion. */
  ghost function Read(es: set<Entry>, k: UserKey, s: nat): Option<Value> {
    if exists e :: IsNewest(es, k, s, e) then
      var e :| IsNewest(es, k, s, e);
      Payload(e)
    else
      None
  }

  lemma ReadIs(es: set<Entry>, k: UserKey, s: nat, e: Entry)
    requires NoClash(es) && IsNewest(es, k, s, e)
    ensures Read(es, k, s) == Payload(e)
  {
    var f :| IsNewest(es, k, s, f) && Read(es, k, s) == Payload(f);
    assert IsNewest(es, k, s, f);
    assert f.sn == e.sn;
  }

  /** Reading is total: as soon as one version is visible there is a newest one. */
  lemma {:induction false} NewestExists(es: set<Entry>, k: UserKey, s: nat, w: Entry)
    returns (e: Entry)
    requires w in es && w.key == k && Visible(w, s)
    ensures IsNewest(es, k, s, e)
    decreases |es|
  {
    if better :| better in es && better.key == k && Visible(better, s) && better.sn > w.sn {
      var rest := es - {w};
      e := NewestExists(rest, k, s, better);
      assert better.sn <= e.sn;
    } else {
      e := w;
    }
  }

  ghost predicate NothingVisible(es: set<Entry>, k: UserKey, s: nat) {
    forall e :: e in es && e.key == k ==> !Visible(e, s)
  }

  /** Two sets that agree on which entry is newest read the same. */
  lemma SameNewestSameRead(es: set<Entry>, fs: set<Entry>, k: UserKey, s: nat)
    requires NoClash(es) && NoClash(fs)
    requires forall e :: IsNewest(es, k, s, e) <==> IsNewest(fs, k, s, e)
    ensures Read(es, k, s) == Read(fs, k, s)
  {
    if e :| IsNewest(es, k, s, e) {
      ReadIs(es, k, s, e);
      assert IsNewest(fs, k, s, e);
      ReadIs(fs, k, s, e);
    }
  }

  /** A read depends only on the visible entries of its user key. */
  lemma ReadDependsOnVisible(es: set<Entry>, fs: set<Entry>, k: UserKey, s: nat)
    requires NoClash(es) && NoClash(fs)
    requires forall e: Entry :: e.key == k && Visible(e, s) ==> (e in es <==> e in fs)
    ensures Read(es, k, s) == Read(fs, k, s)
  {
    SameNewestSameRead(es, fs, k, s);
  }

  /** The set of entries of a sorted run. */
  function Elements(es: seq<Entry>): set<Entry> {
    set e | e in es
  }

  /** Seeking is reading: in a sorted run of parsable entries the first entry not before
      the seek key belongs to user key `k` exactly if some version of `k` is visible at
      `s`, and then it is the newest one. */
  lemma SeekFindsNewest(es: seq<Entry>, k: UserKey, s: nat, i: nat)
    requires Sorted(es) && AllParse(es)
    requires i <= |es|
    requires forall j :: 0 <= j < i ==> Before(es[j], SeekKey(k, s))
    requires i < |es| ==> !Before(es[i], SeekKey(k, s))
    ensures i < |es| && es[i].key == k <==> !NothingVisible(Elements(es), k, s)
    ensures i < |es| && es[i].key == k ==> IsNewest(Elements(es), k, s, es[i])
  {
    forall f | f in Elements(es) && f.key == k && Visible(f, s)
      ensures i < |es| && es[i].key == k && es[i].sn >= f.sn
    {
      var j :| 0 <= j < |es| && es[j] == f;
      assert !Before(es[j], SeekKey(k, s));
      if j > i {
        assert Before(es[i], es[j]);
      }
    }
    if i < |es| && es[i].key == k {
      assert Parses(es[i]);
      assert es[i] in Elements(es) && Visible(es[i], s);
    }
  }
}
