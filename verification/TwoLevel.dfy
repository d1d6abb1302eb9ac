/**
 * The two-level iterator: an index cursor and a cursor in the block it names
 * (table/two_level_iterator.cc).
 */
module TwoLevel {
  import opened DbFormat
  import opened Merger

  /** The concatenation of the first `n` blocks. */
  function Flat(blocks: seq<seq<Entry>>, n: nat): seq<Entry>
    requires n <= |blocks|
  {
    if n == 0 then [] else Flat(blocks, n - 1) + blocks[n - 1]
  }

  function All(blocks: seq<seq<Entry>>): seq<Entry> {
    Flat(blocks, |blocks|)
  }

  /** Where block `n` starts in the concatenation. */
  function Start(blocks: seq<seq<Entry>>, n: nat): nat
    requires n <= |blocks|
  {
    |Flat(blocks, n)|
  }

  lemma StartStep(blocks: seq<seq<Entry>>, i: nat)
    requires i < |blocks|
    ensures Start(blocks, i + 1) == Start(blocks, i) + |blocks[i]|
  {
  }

  lemma {:induction false} FlatPrefix(blocks: seq<seq<Entry>>, m: nat, n: nat)
    requires m <= n <= |blocks|
    ensures Flat(blocks, m) <= Flat(blocks, n)
    decreases n
  {
    if m >= n {
    } else {
      FlatPrefix(blocks, m, n - 1);
    }
  }

  /** Row `j` of block `i` in the concatenation. */
  lemma FlatAt(blocks: seq<seq<Entry>>, i: nat, j: nat)
    requires i < |blocks| && j < |blocks[i]|
    ensures Start(blocks, i) + j < |All(blocks)| && All(blocks)[Start(blocks, i) + j] == blocks[i][j]
  {
    FlatPrefix(blocks, i + 1, |blocks|);
  }

  lemma StartBound(blocks: seq<seq<Entry>>, i: nat)
    requires i <= |blocks|
    ensures Start(blocks, i) <= |All(blocks)|
  {
    FlatPrefix(blocks, i, |blocks|);
  }

  /** The concatenation is sorted and each separator splits it at the end of its block. */
  ghost predicate Separated(blocks: seq<seq<Entry>>, seps: seq<InternalKey>) {
    && |seps| == |blocks|
    && Sorted(All(blocks))
    && (forall i, x :: 0 <= i < |seps| && 0 <= x < Start(blocks, i + 1) <= |All(blocks)| ==>
        !Before(seps[i], All(blocks)[x].ikey))
    && (forall i, x :: 0 <= i < |seps| && 0 <= Start(blocks, i + 1) <= x < |All(blocks)| ==>
        Before(seps[i], All(blocks)[x].ikey))
  }

  /** First separator at or after a key. */
  function LowerSep(seps: seq<InternalKey>, key: InternalKey): (n: nat)
    ensures n <= |seps|
    ensures forall j :: 0 <= j < n ==> Before(seps[j], key)
    ensures n < |seps| ==> !Before(seps[n], key)
  {
    if seps == [] || !Before(seps[0], key) then 0 else 1 + LowerSep(seps[1..], key)
  }

  /** Rows of a block up to and with the one a cursor is on. */
  ghost function Passed(c: Cursor): nat {
    if OnRow(c) then c.at + 1 else 0
  }

  class TwoLevelIterator {
    const seps: seq<InternalKey>
    const handles: seq<nat>
    const file: map<nat, seq<Entry>>
    var index: nat                // |seps| when the index cursor is not valid
    var data: Option<Cursor>
    var dataHandle: nat
    ghost const blocks: seq<seq<Entry>>

    ghost predicate OnTable() {
      && Separated(blocks, seps)
      && |handles| == |blocks|
      && forall i :: 0 <= i < |handles| ==> handles[i] in file && file[handles[i]] == blocks[i]
    }

    /** The cached block cursor reads the block of its handle. */
    ghost predicate Cached()
      reads this
    {
      data.Some? ==> dataHandle in file && data.value.rows == file[dataHandle]
    }

    /** The block cursor belongs to the index cursor's block. */
    ghost predicate Fits()
      reads this
    {
      && index <= |seps|
      && (index < |seps| ==>
          && data.Some? && index < |blocks| && data.value.rows == blocks[index]
          && data.value.at <= |blocks[index]|)
      && (index == |seps| ==> data == None)
    }

    ghost predicate Valid()
      reads this
    {
      && OnTable() && Cached() && index <= |seps|
      && (data.Some? ==> index < |seps| && Fits() && OnRow(data.value))
    }

    predicate IsValid()
      reads this
    {
      data.Some? && OnRow(data.value)
    }

    /** Place on the concatenation, its length when not valid. */
    ghost function At(): nat
      reads this
      requires Valid()
    {
      if data.Some? then Start(blocks, index) + data.value.at else |All(blocks)|
    }

    constructor (seps: seq<InternalKey>, handles: seq<nat>, file: map<nat, seq<Entry>>, ghost blocks: seq<seq<Entry>>)
      requires Separated(blocks, seps) && |handles| == |blocks|
      requires forall i :: 0 <= i < |handles| ==> handles[i] in file && file[handles[i]] == blocks[i]
      ensures Valid() && !IsValid() && this.blocks == blocks
    {
      this.seps, this.handles, this.file, this.blocks := seps, handles, file, blocks;
      index, data, dataHandle := |seps|, None, 0;
    }

    /** The entry shown is the one at the cursor's place. */
    method Current() returns (e: Entry)
      requires Valid() && IsValid()
      ensures At() < |All(blocks)| && e == All(blocks)[At()]
    {
      hide Separated, Flat;
      FlatAt(blocks, index, data.value.at);
      e := RowOf(data.value);
    }

    /** Opens the index cursor's block unless it is open already. */
    method InitDataBlock()
      requires OnTable() && Cached() && index <= |seps|
      modifies this`data, this`dataHandle
      ensures Cached() && (index == |seps| ==> data == None)
      ensures index < |seps| ==> data.Some? && data.value.rows == blocks[index]
    {
      hide Separated;
      SameLength();
      if index == |seps| {
        data := None;
      } else {
        var handle := handles[index];
        if data.Some? && handle == dataHandle {
        } else {
          dataHandle := handle;
          data := Some(Cursor(file[handle], |file[handle]|));
        }
      }
    }

    lemma SameLength()
      requires OnTable()
      ensures |seps| == |blocks| == |handles|
    {
    }

    /** Moves on to the first row at or after place `x`. */
    method SkipForward(ghost x: nat)
      requires OnTable() && Cached() && Fits() && x <= |All(blocks)|
      requires |seps| == |blocks|
      requires x == if index < |seps| then Start(blocks, index) + data.value.at else |All(blocks)|
      modifies this
      ensures Valid() && At() == x
    {
      hide Separated, Flat;
      while data == None || !OnRow(data.value)
        invariant OnTable() && Cached() && Fits()
        invariant x == if index < |seps| then Start(blocks, index) + data.value.at else |All(blocks)|
        decreases |seps| - index, data.Some?
      {
        if index == |seps| {
          data := None;
          return;
        }
        StartStep(blocks, index);
        index := index + 1;
        InitDataBlock();
        if data.Some? { data := Some(First(data.value)); }
      }
    }

    /** Moves back to the last row before place `x`. */
    method SkipBackward(ghost x: nat)
      requires OnTable() && Cached() && Fits() && x <= |All(blocks)|
      requires |seps| == |blocks|
      requires x == if index < |seps| then Start(blocks, index) + Passed(data.value) else 0
      modifies this
      ensures Valid() && At() == if x == 0 then |All(blocks)| else x - 1
    {
      hide Separated, Flat;
      while data == None || !OnRow(data.value)
        invariant OnTable() && Cached() && Fits()
        invariant x == if index < |seps| then Start(blocks, index) + Passed(data.value) else 0
        decreases if index == |seps| then 0 else index + 1
      {
        if index == |seps| {
          data := None;
          return;
        }
        if index == 0 {
          StartZero(blocks);
          index := |seps|;
        } else {
          StartStep(blocks, index - 1);
          index := index - 1;
        }
        InitDataBlock();
        if data.Some? { data := Some(Last(data.value)); }
      }
    }

    method Next()
      requires Valid() && IsValid()
      modifies this
      ensures Valid() && At() == old(At()) + 1
    {
      hide Separated, Flat;
      SameLength();
      FlatAt(blocks, index, data.value.at);
      data := Some(Advance(data.value));
      SkipForward(Start(blocks, index) + data.value.at);
    }

    method Prev()
      requires Valid() && IsValid()
      modifies this
      ensures Valid() && At() == if old(At()) == 0 then |All(blocks)| else old(At()) - 1
    {
      hide Separated, Flat;
      SameLength();
      FlatAt(blocks, index, data.value.at);
      ghost var x := At();
      data := Some(Retreat(data.value));
      SkipBackward(x);
    }

    method SeekToFirst()
      requires Valid()
      modifies this
      ensures Valid() && At() == 0
    {
      hide Separated, Flat;
      SameLength();
      StartZero(blocks);
      index := 0;
      InitDataBlock();
      if data.Some? { data := Some(First(data.value)); }
      SkipForward(0);
    }

    method SeekToLast()
      requires Valid()
      modifies this
      ensures Valid() && At() == if All(blocks) == [] then 0 else |All(blocks)| - 1
    {
      hide Separated, Flat;
      SameLength();
      StartZero(blocks);
      index := if |seps| == 0 then 0 else |seps| - 1;
      InitDataBlock();
      if data.Some? {
        StartStep(blocks, index);
        data := Some(Last(data.value));
      }
      SkipBackward(|All(blocks)|);
    }

    method Seek(target: InternalKey)
      requires Valid()
      modifies this
      ensures Valid() && At() == LowerBound(All(blocks), target)
    {
      hide Separated, Flat, LowerBound, LowerSep;
      SameLength();
      index := LowerSep(seps, target);
      InitDataBlock();
      if data.Some? { data := Some(Sought(data.value, target)); }
      SeekLands(blocks, seps, target, index);
      SkipForward(LowerBound(All(blocks), target));
    }
  }

  lemma StartZero(blocks: seq<seq<Entry>>)
    ensures Start(blocks, 0) == 0
    ensures blocks == [] ==> All(blocks) == []
  {
  }

  /** Seeking in the block the separators point at is seeking in the concatenation. */
  lemma SeekLands(blocks: seq<seq<Entry>>, seps: seq<InternalKey>, key: InternalKey, i: nat)
    requires Separated(blocks, seps) && i == LowerSep(seps, key)
    ensures LowerBound(All(blocks), key) == if i < |seps| then Start(blocks, i) + LowerBound(blocks[i], key)
              else |All(blocks)|
  {
    hide Flat, LowerBound, LowerSep;
    var all := All(blocks);
    StartBound(blocks, i);
    if i > 0 { SepBefore(blocks, seps, key, i - 1); }
    if i < |seps| {
      var m, s := LowerBound(blocks[i], key), Start(blocks, i);
      StartStep(blocks, i);
      StartBound(blocks, i + 1);
      StartZero(blocks);
      forall j | 0 <= j < |blocks[i]| ensures all[s + j] == blocks[i][j] { FlatAt(blocks, i, j); }
      assert forall x :: 0 <= x < s ==> Before(all[x].ikey, key);
      forall x | s <= x < s + m ensures Before(all[x].ikey, key) { assert all[s + (x - s)] == blocks[i][x - s]; }
      if m >= |blocks[i]| && s + m < |all| {
        BeforeTrans(key, seps[i], all[s + m].ikey);
      }
      BoundIs(all, key, s + m);
    } else {
      StartZero(blocks);
      BoundIs(all, key, |all|);
    }
  }

  /** Rows up to the end of a block whose separator is before the key are before the key. */
  lemma SepBefore(blocks: seq<seq<Entry>>, seps: seq<InternalKey>, key: InternalKey, i: nat)
    requires Separated(blocks, seps) && i < |seps| && Before(seps[i], key)
    ensures forall x :: 0 <= x < Start(blocks, i + 1) && x < |All(blocks)| ==> Before(All(blocks)[x].ikey, key)
  {
    hide Flat, Sorted;
    StartBound(blocks, i + 1);
    forall x | 0 <= x < Start(blocks, i + 1) && x < |All(blocks)| ensures Before(All(blocks)[x].ikey, key) {
      NotAfter(All(blocks)[x].ikey, seps[i], key);
    }
  }

  lemma NotAfter(a: InternalKey, b: InternalKey, c: InternalKey)
    requires !Before(b, a) && Before(b, c)
    ensures Before(a, c)
  {
  }

  lemma BoundIs(rows: seq<Entry>, key: InternalKey, n: nat)
    requires IsFirstAtOrAfter(rows, key, n)
    ensures LowerBound(rows, key) == n
  {
  }
}
