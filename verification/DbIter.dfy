/**
 * DBIter (db/db_iter.cc): a cursor over the visible user keys of a sorted run of
 * internal entries, moving in both directions.
 */
module DbIter {
  import opened DbFormat
  import opened Version

  // ---- The view: rows that are the newest visible version of a live user key ----

  predicate Seen(rows: seq<Entry>, sequence: nat, i: int)
    requires 0 <= i < |rows|
  {
    rows[i].ikey.sequence <= sequence
  }

  ghost predicate Shown(rows: seq<Entry>, sequence: nat, i: int) {
    && 0 <= i < |rows|
    && Seen(rows, sequence, i)
    && rows[i].ikey.kind.Value?
    && forall j :: 0 <= j < i && Seen(rows, sequence, j) ==> rows[j].ikey.user != rows[i].ikey.user
  }

  ghost predicate NoneShown(rows: seq<Entry>, sequence: nat, lo: int, hi: int) {
    forall i :: lo <= i < hi && 0 <= i ==> !Shown(rows, sequence, i)
  }

  /** `r` is the first shown row after `c`. */
  ghost predicate IsNext(rows: seq<Entry>, sequence: nat, c: int, r: Option<nat>) {
    if r.Some? then c < r.value && Shown(rows, sequence, r.value) && NoneShown(rows, sequence, c + 1, r.value)
    else NoneShown(rows, sequence, c + 1, |rows|)
  }

  /** `r` is the last shown row before `c`. */
  ghost predicate IsPrev(rows: seq<Entry>, sequence: nat, c: int, r: Option<nat>) {
    if r.Some? then r.value < c && Shown(rows, sequence, r.value) && NoneShown(rows, sequence, r.value + 1, c)
    else NoneShown(rows, sequence, 0, c)
  }

  /** `r` is the first shown row whose user key is at or after `target`. */
  ghost predicate IsSeek(rows: seq<Entry>, sequence: nat, target: UserKey, r: Option<nat>) {
    && (r.Some? ==> Shown(rows, sequence, r.value) && rows[r.value].ikey.user >= target)
    && forall i :: Shown(rows, sequence, i) && rows[i].ikey.user >= target ==> r.Some? && r.value <= i
  }

  lemma UsersInOrder(rows: seq<Entry>, i: nat, j: nat)
    requires Sorted(rows) && i <= j < |rows|
    ensures rows[i].ikey.user <= rows[j].ikey.user
  {
  }

  // ---- What the view is: exactly the live keys at the iterator's sequence ----

  lemma ShownIsAnswer(rows: seq<Entry>, sequence: nat, i: nat)
    requires Sorted(rows) && Shown(rows, sequence, i)
    ensures Answers(RowSet(rows), rows[i].ikey.user, sequence, Some(rows[i].value))
  {
    var k := rows[i].ikey.user;
    forall x | x in RowSet(rows) && Visible(x, k, sequence) ensures x.ikey.sequence <= rows[i].ikey.sequence {
      var j :| 0 <= j < |rows| && rows[j] == x;
    }
    assert Told(rows[i]) == Some(rows[i].value);
  }

  lemma AnswerIsShown(rows: seq<Entry>, sequence: nat, k: UserKey, v: Bytes) returns (i: nat)
    requires Sorted(rows) && Distinct(RowSet(rows)) && Answers(RowSet(rows), k, sequence, Some(v))
    ensures Shown(rows, sequence, i) && rows[i].ikey.user == k && rows[i].value == v
  {
    var e :| IsNewest(RowSet(rows), k, sequence, e) && Some(v) == Told(e);
    i :| 0 <= i < |rows| && rows[i] == e;
    forall j | 0 <= j < i && Seen(rows, sequence, j) ensures rows[j].ikey.user != k {}
  }

  /** The shown rows are the live user keys with their values, each once, in key order. */
  lemma ViewIsLiveKeys(rows: seq<Entry>, sequence: nat)
    requires Sorted(rows) && Distinct(RowSet(rows))
    ensures forall k, v :: Answers(RowSet(rows), k, sequence, Some(v)) <==>
              exists i :: Shown(rows, sequence, i) && rows[i].ikey.user == k && rows[i].value == v
    ensures forall i, j :: Shown(rows, sequence, i) && Shown(rows, sequence, j) && i < j ==>
              rows[i].ikey.user < rows[j].ikey.user
  {
    hide Answers, Distinct;
    forall k, v ensures Answers(RowSet(rows), k, sequence, Some(v)) <==>
                          exists i :: Shown(rows, sequence, i) && rows[i].ikey.user == k && rows[i].value == v
    {
      if Answers(RowSet(rows), k, sequence, Some(v)) {
        var i := AnswerIsShown(rows, sequence, k, v);
      }
      if i :| Shown(rows, sequence, i) && rows[i].ikey.user == k && rows[i].value == v {
        ShownIsAnswer(rows, sequence, i);
      }
    }
    forall i, j | Shown(rows, sequence, i) && Shown(rows, sequence, j) && i < j
        ensures rows[i].ikey.user < rows[j].ikey.user {
      UsersInOrder(rows, i, j);
    }
  }

  // ---- The view as a list ----

  ghost function ShownList(rows: seq<Entry>, sequence: nat, n: nat): seq<nat> {
    if n == 0 then []
    else ShownList(rows, sequence, n - 1) + if Shown(rows, sequence, n - 1) then [n - 1] else []
  }

  lemma {:induction false} ShownListIsShown(rows: seq<Entry>, sequence: nat, n: nat)
    ensures forall p :: 0 <= p < |ShownList(rows, sequence, n)| ==>
              Shown(rows, sequence, ShownList(rows, sequence, n)[p]) && ShownList(rows, sequence, n)[p] < n
    ensures forall p, q :: 0 <= p < q < |ShownList(rows, sequence, n)| ==>
              ShownList(rows, sequence, n)[p] < ShownList(rows, sequence, n)[q]
    ensures forall i :: 0 <= i < n && Shown(rows, sequence, i) ==> i in ShownList(rows, sequence, n)
  {
    if n == 0 {
    } else {
      ShownListIsShown(rows, sequence, n - 1);
    }
  }

  /** Moving to the next or previous shown row is moving one place on the list. */
  lemma ListNeighbours(rows: seq<Entry>, sequence: nat, p: nat)
    requires p < |ShownList(rows, sequence, |rows|)|
    ensures var l := ShownList(rows, sequence, |rows|);
              && IsNext(rows, sequence, l[p], if p + 1 < |l| then Some(l[p + 1]) else None)
              && IsPrev(rows, sequence, l[p], if p > 0 then Some(l[p - 1]) else None)
  {
    ShownListIsShown(rows, sequence, |rows|);
    var l := ShownList(rows, sequence, |rows|);
    forall i | l[p] < i < (if p + 1 < |l| then l[p + 1] else |rows|) ensures !Shown(rows, sequence, i) {
      if Shown(rows, sequence, i) { NotBetween(l, p, i); }
    }
    forall i | (if p > 0 then l[p - 1] + 1 else 0) <= i < l[p] ensures !Shown(rows, sequence, i) {
      if Shown(rows, sequence, i) { NotBetween(l, p, i); }
    }
  }

  lemma NotBetween(l: seq<nat>, p: nat, i: nat)
    requires forall p, q :: 0 <= p < q < |l| ==> l[p] < l[q]
    requires p < |l| && i in l
    ensures i == l[p] || (p + 1 < |l| && i >= l[p + 1]) || (p > 0 && i <= l[p - 1])
  {
  }

  // ---- The iterator ----

  datatype Direction = Forward | Reverse

  class DBIter {
    const rows: seq<Entry>
    const sequence: nat
    var pos: nat                    // of the internal iterator; |rows| when not valid
    var direction: Direction
    var valid: bool
    var savedKey: Option<UserKey>   // None when cleared
    var savedValue: Bytes
    /** The shown row the iterator stands on. */
    ghost var cur: Option<nat>

    /** The last row at or before the internal iterator, going backwards. */
    ghost function Below(): int
      reads this
    {
      if pos < |rows| then pos else -1
    }

    ghost predicate Valid()
      reads this
    {
      && Sorted(rows)
      && pos <= |rows|
      && (valid <==> cur.Some?)
      && (cur.Some? ==> Shown(rows, sequence, cur.value))
      && (valid && direction == Forward ==> pos == cur.value)
      && (valid && direction == Reverse ==> Parked())
    }

    /** Going backwards, the current row is saved and only unseen rows lie between it and the iterator. */
    ghost predicate Parked()
      reads this
      requires cur.Some? && Shown(rows, sequence, cur.value)
    {
      && savedKey == Some(rows[cur.value].ikey.user)
      && savedValue == rows[cur.value].value
      && Below() < cur.value
      && (forall j :: Below() < j < cur.value ==> !Seen(rows, sequence, j))
      && (pos < |rows| ==> rows[pos].ikey.user < rows[cur.value].ikey.user)
    }

    constructor (rows: seq<Entry>, sequence: nat)
      requires Sorted(rows)
      ensures Valid() && !valid && this.rows == rows && this.sequence == sequence
    {
      this.rows := rows;
      this.sequence := sequence;
      pos, direction, valid := |rows|, Forward, false;
      savedKey, savedValue, cur := None, [], None;
    }

    method Key() returns (k: UserKey)
      requires Valid() && valid
      ensures k == rows[cur.value].ikey.user
    {
      k := if direction == Forward then rows[pos].ikey.user else savedKey.value;
    }

    method Value() returns (v: Bytes)
      requires Valid() && valid
      ensures v == rows[cur.value].value
    {
      v := if direction == Forward then rows[pos].value else savedValue;
    }

    // ---- The internal iterator ----

    method IterNext()
      requires pos < |rows|
      modifies this`pos
      ensures pos == old(pos) + 1
    {
      pos := pos + 1;
    }

    method IterPrev()
      requires pos < |rows|
      modifies this`pos
      ensures pos <= |rows| && Below() == old(pos) - 1
    {
      pos := if pos == 0 then |rows| else pos - 1;
    }

    method IterSeek(key: InternalKey)
      requires Sorted(rows)
      modifies this`pos
      ensures IsFirstAtOrAfter(rows, key, pos)
    {
      pos := 0;
      while pos < |rows| && Compare(rows[pos].ikey, key) < 0
        invariant pos <= |rows|
        invariant forall j :: 0 <= j < pos ==> Before(rows[j].ikey, key)
      {
        CompareIsBefore(rows[pos].ikey, key);
        pos := pos + 1;
      }
      if pos < |rows| { CompareIsBefore(rows[pos].ikey, key); }
    }

    // ---- Forward ----

    /** Rows from `from` on that may still be shown: not at or below the key being skipped. */
    ghost predicate Wanted(skip: Option<UserKey>, i: int)
      requires 0 <= i < |rows|
    {
      skip.Some? ==> rows[i].ikey.user > skip.value
    }

    /**
     * FindNextUserEntry from `pos`: the first shown row whose key is past the
     * skipped one.  The rows before `pos` must not hide any later one.
     */
    method FindNextUserEntry(skipping: bool, skip: Option<UserKey>)
      requires Sorted(rows) && pos < |rows| && direction == Forward
      requires skipping <==> skip.Some?
      requires skip.Some? ==> forall j :: pos <= j < |rows| && rows[j].ikey.user < skip.value ==>
                 !Seen(rows, sequence, j)
      requires forall i, j :: 0 <= j < pos <= i < |rows| && Wanted(skip, i) && Seen(rows, sequence, j)
                 ==> rows[j].ikey.user != rows[i].ikey.user
      modifies this
      ensures Valid() && direction == Forward
      ensures cur.Some? ==> cur.value >= old(pos) && Wanted(skip, cur.value)
      ensures forall i :: old(pos) <= i < |rows| && Shown(rows, sequence, i) && Wanted(skip, i) ==>
                cur.Some? && cur.value <= i
    {
      ghost var from := pos;
      var skipping', skip' := skipping, skip;
      while pos < |rows|
        invariant from <= pos <= |rows| && direction == Forward
        invariant skipping' <==> skip'.Some?
        invariant skip.Some? ==> skip'.Some? && skip.value <= skip'.value
        invariant forall j :: from <= j < pos && Seen(rows, sequence, j) ==>
                    skip'.Some? && rows[j].ikey.user <= skip'.value
        invariant skip'.Some? && skip' != skip ==>
                    exists j :: from <= j < pos && Seen(rows, sequence, j) && rows[j].ikey.user == skip'.value
        invariant forall i :: from <= i < pos && Shown(rows, sequence, i) ==> !Wanted(skip, i)
      {
        if rows[pos].ikey.sequence <= sequence {
          if rows[pos].ikey.kind.Deletion? {
            SkipMovesUp(from, skip, skip');
            skip', skipping' := Some(rows[pos].ikey.user), true;
          } else if skipping' && rows[pos].ikey.user <= skip'.value {
            HiddenRow(from, skip, skip');
          } else {
            valid, savedKey := true, None;
            cur := Some(pos);
            FirstOfItsKey(from, skip, skip');
            return;
          }
        }
        IterNext();
      }
      savedKey, valid, cur := None, false, None;
    }

    /** The keys skipped so far are at or below the row being read. */
    lemma SkipMovesUp(from: nat, skip: Option<UserKey>, skip': Option<UserKey>)
      requires Sorted(rows) && from <= pos < |rows| && Seen(rows, sequence, pos)
      requires skip.Some? ==> forall j :: from <= j < |rows| && rows[j].ikey.user < skip.value ==>
                 !Seen(rows, sequence, j)
      requires skip'.Some? && skip' != skip ==>
                 exists j :: from <= j < pos && Seen(rows, sequence, j) && rows[j].ikey.user == skip'.value
      ensures skip'.Some? ==> skip'.value <= rows[pos].ikey.user
    {
    }

    /** A value at or below the skipped key is not shown, or not wanted. */
    lemma HiddenRow(from: nat, skip: Option<UserKey>, skip': Option<UserKey>)
      requires Sorted(rows) && from <= pos < |rows| && Seen(rows, sequence, pos)
      requires skip.Some? ==> forall j :: from <= j < |rows| && rows[j].ikey.user < skip.value ==>
                 !Seen(rows, sequence, j)
      requires skip'.Some? && rows[pos].ikey.user <= skip'.value
      requires skip' != skip ==>
                 exists j :: from <= j < pos && Seen(rows, sequence, j) && rows[j].ikey.user == skip'.value
      ensures Shown(rows, sequence, pos) ==> !Wanted(skip, pos)
    {
    }

    /** A value past the skipped key is the newest seen version of its key. */
    lemma FirstOfItsKey(from: nat, skip: Option<UserKey>, skip': Option<UserKey>)
      requires Sorted(rows) && from <= pos < |rows| && Seen(rows, sequence, pos) && rows[pos].ikey.kind.Value?
      requires skip.Some? ==> skip'.Some? && skip.value <= skip'.value
      requires skip'.Some? ==> skip'.value < rows[pos].ikey.user
      requires forall j :: from <= j < pos && Seen(rows, sequence, j) ==>
                 skip'.Some? && rows[j].ikey.user <= skip'.value
      requires forall i, j :: 0 <= j < from <= i < |rows| && Wanted(skip, i) && Seen(rows, sequence, j)
                 ==> rows[j].ikey.user != rows[i].ikey.user
      ensures Shown(rows, sequence, pos) && Wanted(skip, pos)
    {
    }

    /** Next: one shown row forward, whichever way the iterator was going. */
    method Next()
      requires Valid() && valid
      modifies this
      ensures Valid()
      ensures IsNext(rows, sequence, old(cur.value), cur)
    {
      ghost var c := cur.value;
      if direction == Reverse {
        direction := Forward;
        if pos == |rows| {
          pos := 0;
        } else {
          IterNext();
        }
      } else {
        savedKey := Some(rows[pos].ikey.user);
      }
      var skip := savedKey;
      RowsPast(pos, c);
      FindNextUserEntry(true, skip);
      NextFromSkip(c);
    }

    /** Before the search starts, only unseen rows precede the current key. */
    lemma RowsPast(from: nat, c: nat)
      requires Sorted(rows) && from <= c && Shown(rows, sequence, c)
      requires forall j :: from <= j < c ==> !Seen(rows, sequence, j)
      ensures forall j :: from <= j < |rows| && rows[j].ikey.user < rows[c].ikey.user ==> !Seen(rows, sequence, j)
      ensures forall i, j :: 0 <= j < from <= i < |rows| && rows[i].ikey.user > rows[c].ikey.user ==>
                rows[j].ikey.user != rows[i].ikey.user
    {
    }

    lemma NextFromSkip(c: nat)
      requires Sorted(rows) && Shown(rows, sequence, c) && (cur.Some? ==> Shown(rows, sequence, cur.value))
      requires cur.Some? ==> rows[cur.value].ikey.user > rows[c].ikey.user
      requires forall i :: c <= i < |rows| && Shown(rows, sequence, i) && rows[i].ikey.user > rows[c].ikey.user
                 ==> cur.Some? && cur.value <= i
      ensures IsNext(rows, sequence, c, cur)
    {
    }

    method SeekToFirst()
      requires Valid()
      modifies this
      ensures Valid() && IsNext(rows, sequence, -1, cur)
    {
      direction, savedValue, pos := Forward, [], 0;
      if pos < |rows| {
        FindNextUserEntry(false, None);
      } else {
        valid, cur := false, None;
      }
    }

    method Seek(target: UserKey)
      requires Valid()
      modifies this
      ensures Valid() && IsSeek(rows, sequence, target, cur)
    {
      direction, savedValue, savedKey := Forward, [], None;
      IterSeek(SeekKey(target, sequence));
      ghost var from := pos;
      forall j | 0 <= j < from ensures rows[j].ikey.user < target
          || (rows[j].ikey.user == target && !Seen(rows, sequence, j)) {}
      if pos < |rows| {
        RowsFromSeek(target);
        FindNextUserEntry(false, None);
      } else {
        valid, cur := false, None;
      }
    }

    lemma RowsFromSeek(target: UserKey)
      requires Sorted(rows) && pos < |rows| && IsFirstAtOrAfter(rows, SeekKey(target, sequence), pos)
      ensures forall i :: pos <= i < |rows| ==> rows[i].ikey.user >= target
    {
    }

    // ---- Backward ----

    /** The first seen row above `lo`, with nothing shown from there up to `top`. */
    ghost predicate Candidate(c: Option<nat>, lo: int, top: int) {
      && (c.None? ==> forall j :: lo < j <= top && 0 <= j < |rows| ==> !Seen(rows, sequence, j))
      && (c.Some? ==> && lo < c.value <= top && c.value < |rows| && Seen(rows, sequence, c.value)
                      && (forall j :: lo < j < c.value && 0 <= j ==> !Seen(rows, sequence, j))
                      && NoneShown(rows, sequence, c.value + 1, top + 1))
    }

    /** FindPrevUserEntry: the last shown row at or before the internal iterator. */
    method FindPrevUserEntry()
      requires Sorted(rows) && pos <= |rows| && direction == Reverse
      modifies this
      ensures Valid()
      ensures IsPrev(rows, sequence, old(Below()) + 1, cur)
    {
      ghost var top := Below();
      var kind := Deletion;
      ghost var c: Option<nat> := None;
      while pos < |rows|
        invariant pos <= |rows| && Below() <= top < |rows| && direction == Reverse
        invariant Candidate(c, Below(), top)
        invariant kind == (if c.Some? then rows[c.value].ikey.kind else Deletion)
        invariant kind.Value? ==> savedKey == Some(rows[c.value].ikey.user) && savedValue == rows[c.value].value
        decreases Below() + 1
      {
        if rows[pos].ikey.sequence <= sequence {
          if kind.Value? && rows[pos].ikey.user < savedKey.value {
            break;
          }
          OlderCandidate(c, top);
          c := Some(pos);
          kind := rows[pos].ikey.kind;
          if kind.Deletion? {
            savedKey, savedValue := None, [];
          } else {
            savedKey, savedValue := Some(rows[pos].ikey.user), rows[pos].value;
          }
        }
        IterPrev();
      }
      if kind.Deletion? {
        valid, savedKey, savedValue, direction := false, None, [], Forward;
        cur := None;
        NothingShownBelow(c, top);
      } else {
        valid, cur := true, c;
        CandidateIsShown(c.value, top);
      }
    }

    /** Once an older seen row replaces the candidate, the old candidate is not shown. */
    lemma OlderCandidate(c: Option<nat>, top: int)
      requires Sorted(rows) && pos < |rows| && pos <= top < |rows| && Candidate(c, pos, top)
                 && Seen(rows, sequence, pos)
      requires c.Some? && rows[c.value].ikey.kind.Value? ==> rows[pos].ikey.user >= rows[c.value].ikey.user
      ensures Candidate(Some(pos), pos - 1, top)
    {
    }

    lemma NothingShownBelow(c: Option<nat>, top: int)
      requires pos == |rows| && -1 <= top < |rows| && Candidate(c, -1, top)
      requires c.Some? ==> rows[c.value].ikey.kind.Deletion?
      ensures NoneShown(rows, sequence, 0, top + 1)
    {
    }

    lemma CandidateIsShown(c: nat, top: int)
      requires Sorted(rows) && pos <= |rows| && top < |rows| && Candidate(Some(c), Below(), top)
                 && rows[c].ikey.kind.Value?
      requires pos < |rows| ==> rows[pos].ikey.user < rows[c].ikey.user
      ensures Shown(rows, sequence, c)
    {
    }

    /** Prev: one shown row backward, whichever way the iterator was going. */
    method Prev()
      requires Valid() && valid
      modifies this
      ensures Valid()
      ensures IsPrev(rows, sequence, old(cur.value), cur)
    {
      ghost var c := cur.value;
      if direction == Forward {
        savedKey := Some(rows[pos].ikey.user);
        IterPrev();
        while pos < |rows| && rows[pos].ikey.user >= savedKey.value
          invariant pos <= |rows| && Below() < c && direction == Forward
          invariant savedKey == Some(rows[c].ikey.user)
          invariant forall j :: Below() < j < c ==> rows[j].ikey.user == rows[c].ikey.user
          decreases Below() + 1
        {
          UsersInOrder(rows, pos, c);
          IterPrev();
        }
        NoneShownInGroup(Below(), c);
        if pos == |rows| {
          valid, savedKey, savedValue := false, None, [];
          cur := None;
          return;
        }
        direction := Reverse;
      }
      FindPrevUserEntry();
    }

    /** Newer versions of the current key are not shown. */
    lemma NoneShownInGroup(lo: int, c: nat)
      requires Shown(rows, sequence, c) && -1 <= lo < c
      requires forall j :: lo < j < c ==> rows[j].ikey.user == rows[c].ikey.user
      ensures NoneShown(rows, sequence, lo + 1, c)
    {
    }

    method SeekToLast()
      requires Valid()
      modifies this
      ensures Valid() && IsPrev(rows, sequence, |rows|, cur)
    {
      direction, savedValue := Reverse, [];
      pos := if |rows| == 0 then 0 else |rows| - 1;
      FindPrevUserEntry();
    }
  }
}
