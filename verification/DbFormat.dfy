/**
 * Internal keys, entries and the reading of a set of entries at a snapshot
 * (db/dbformat.h, db/dbformat.cc).
 */
module DbFormat {

  datatype Option<+T> = None | Some(value: T)

  type byte = x: int | 0 <= x < 256
  type Bytes = seq<byte>

  /**
   * A user key stands for its place in the order of the user comparator.
   * Every countable total order embeds in the reals, so no comparator over
   * byte strings is excluded; `Bytewise.RankEmbeds` gives the embedding of the
   * default comparator.
   */
  type UserKey = real

  datatype ValueType = Deletion | Value

  datatype InternalKey = InternalKey(user: UserKey, sequence: nat, kind: ValueType)

  datatype Entry = Entry(ikey: InternalKey, value: Bytes)

  const MAX_SEQUENCE: nat := 0xff_ffff_ffff_ffff

  function KindNumber(t: ValueType): nat {
    if t.Value? then 1 else 0
  }

  /** The 64-bit trailer of an internal key: sequence in the upper 56 bits. */
  function Pack(sequence: nat, t: ValueType): nat {
    sequence * 256 + KindNumber(t)
  }

  /** InternalKeyComparator: increasing user key, then decreasing trailer. */
  function Compare(a: InternalKey, b: InternalKey): int {
    if a.user < b.user then -1
    else if a.user > b.user then 1
    else if Pack(a.sequence, a.kind) > Pack(b.sequence, b.kind) then -1
    else if Pack(a.sequence, a.kind) < Pack(b.sequence, b.kind) then 1
    else 0
  }

  predicate Before(a: InternalKey, b: InternalKey) {
    || a.user < b.user
    || (a.user == b.user && (a.sequence > b.sequence
                             || (a.sequence == b.sequence && a.kind.Value? && b.kind.Deletion?)))
  }

  /** The packed comparison is the lexicographic one. */
  lemma CompareIsBefore(a: InternalKey, b: InternalKey)
    ensures Compare(a, b) < 0 <==> Before(a, b)
    ensures Compare(a, b) == 0 <==> a == b
    ensures Compare(a, b) > 0 <==> Before(b, a)
  {
  }

  /** The key LookupKey builds: it precedes exactly the entries the snapshot may see. */
  function SeekKey(k: UserKey, snapshot: nat): InternalKey {
    InternalKey(k, snapshot, Value)
  }

  lemma SeekKeySplits(k: UserKey, snapshot: nat, e: InternalKey)
    requires e.user == k
    ensures !Before(e, SeekKey(k, snapshot)) <==> e.sequence <= snapshot
  {
  }

  predicate Sorted(rows: seq<Entry>) {
    forall i, j :: 0 <= i < j < |rows| ==> Before(rows[i].ikey, rows[j].ikey)
  }

  // ---- Reading a set of entries ----

  predicate Visible(e: Entry, k: UserKey, snapshot: nat) {
    e.ikey.user == k && e.ikey.sequence <= snapshot
  }

  ghost predicate IsNewest(s: set<Entry>, k: UserKey, snapshot: nat, e: Entry) {
    && e in s
    && Visible(e, k, snapshot)
    && forall x :: x in s && Visible(x, k, snapshot) ==> x.ikey.sequence <= e.ikey.sequence
  }

  ghost predicate NoneVisible(s: set<Entry>, k: UserKey, snapshot: nat) {
    forall x :: x in s ==> !Visible(x, k, snapshot)
  }

  /** No two entries share a sequence number. */
  ghost predicate Distinct(s: set<Entry>) {
    forall x, y :: x in s && y in s && x.ikey.sequence == y.ikey.sequence ==> x == y
  }

  /** What a reader is told about an entry. */
  function Told(e: Entry): Option<Bytes> {
    if e.ikey.kind.Value? then Some(e.value) else None
  }

  /**
   * `r` is the right answer to a lookup of `k` at `snapshot`: the value of the
   * visible write with the largest sequence, or nothing if that write is a
   * deletion or there is none.
   */
  ghost predicate Answers(s: set<Entry>, k: UserKey, snapshot: nat, r: Option<Bytes>) {
    || (exists e :: IsNewest(s, k, snapshot, e) && r == Told(e))
    || (NoneVisible(s, k, snapshot) && r == None)
  }

  /** Two sets answer every lookup at or above `floor` alike. */
  ghost predicate SameAnswers(s: set<Entry>, t: set<Entry>, floor: nat) {
    forall k, snapshot, r | floor <= snapshot :: Answers(s, k, snapshot, r) <==> Answers(t, k, snapshot, r)
  }

  /** Some entry is newest whenever one is visible. */
  lemma {:induction false} NewestExists(s: set<Entry>, k: UserKey, snapshot: nat)
    ensures NoneVisible(s, k, snapshot) || exists e :: IsNewest(s, k, snapshot, e)
    decreases s
  {
    if NoneVisible(s, k, snapshot) {
    } else {
      var x :| x in s && Visible(x, k, snapshot);
      var rest := s - {x};
      NewestExists(rest, k, snapshot);
      if NoneVisible(rest, k, snapshot) {
        assert IsNewest(s, k, snapshot, x);
      } else {
        var e :| IsNewest(rest, k, snapshot, e);
        if e.ikey.sequence <= x.ikey.sequence {
          assert IsNewest(s, k, snapshot, x);
        } else {
          assert IsNewest(s, k, snapshot, e);
        }
      }
    }
  }

  /** A lookup has exactly one right answer. */
  lemma AnswersIsFunctional(s: set<Entry>, k: UserKey, snapshot: nat)
    requires Distinct(s)
    ensures exists r :: Answers(s, k, snapshot, r)
    ensures forall r, q :: Answers(s, k, snapshot, r) && Answers(s, k, snapshot, q) ==> r == q
  {
    NewestExists(s, k, snapshot);
    if e :| IsNewest(s, k, snapshot, e) {
      assert Answers(s, k, snapshot, Told(e));
    } else {
      assert Answers(s, k, snapshot, None);
    }
  }

  /** Entries written after the snapshot do not change what it sees. */
  lemma LaterWritesInvisible(s: set<Entry>, more: set<Entry>, k: UserKey, snapshot: nat, r: Option<Bytes>)
    requires forall x :: x in more ==> x.ikey.sequence > snapshot
    ensures Answers(s, k, snapshot, r) <==> Answers(s + more, k, snapshot, r)
  {
  }

  lemma BeforeTrans(a: InternalKey, b: InternalKey, c: InternalKey)
    ensures Before(a, b) && Before(b, c) ==> Before(a, c)
    ensures !Before(b, a) && Before(b, c) ==> Before(a, c)
    ensures Before(a, b) && !Before(c, b) ==> Before(a, c)
    ensures !Before(b, a) && !Before(c, b) ==> !Before(c, a)
  {
  }

  /** The first row at or after `key`, as the table's index and block search give it. */
  predicate IsFirstAtOrAfter(rows: seq<Entry>, key: InternalKey, i: nat) {
    && i <= |rows|
    && (forall j :: 0 <= j < i ==> Before(rows[j].ikey, key))
    && (i < |rows| ==> !Before(rows[i].ikey, key))
  }

  /** Number of rows before a key, in a sorted list. */
  function LowerBound(rows: seq<Entry>, key: InternalKey): (n: nat)
    ensures IsFirstAtOrAfter(rows, key, n)
  {
    if rows == [] || !Before(rows[0].ikey, key) then 0 else 1 + LowerBound(rows[1..], key)
  }
}
