/**
 * The merging iterator over several sorted children (table/merger.cc).
 */
module Merger {
  import opened DbFormat

  /** A child: a sorted list and the row it stands on, the list's length when it is not valid. */
  datatype Cursor = Cursor(rows: seq<Entry>, at: nat)

  predicate OnRow(c: Cursor) {
    c.at < |c.rows|
  }

  function RowOf(c: Cursor): Entry
    requires OnRow(c)
  {
    c.rows[c.at]
  }

  function Sought(c: Cursor, key: InternalKey): Cursor {
    c.(at := LowerBound(c.rows, key))
  }

  function First(c: Cursor): Cursor {
    c.(at := 0)
  }

  function Last(c: Cursor): Cursor {
    c.(at := if c.rows == [] then 0 else |c.rows| - 1)
  }

  function Advance(c: Cursor): Cursor
    requires OnRow(c)
  {
    c.(at := c.at + 1)
  }

  function Retreat(c: Cursor): Cursor
    requires OnRow(c)
  {
    c.(at := if c.at == 0 then |c.rows| else c.at - 1)
  }

  /** Seeks to a key and steps over it. */
  function After(c: Cursor, key: InternalKey): Cursor {
    var s := Sought(c, key);
    if OnRow(s) && RowOf(s).ikey == key then Advance(s) else s
  }

  // ---- The merged list ----

  /** `merged` is the sorted union of the lists, which share no entry. */
  ghost predicate Merges(lists: seq<seq<Entry>>, merged: seq<Entry>) {
    && Sorted(merged)
    && (forall i :: 0 <= i < |lists| ==> Sorted(lists[i]))
    && (forall i, j :: 0 <= i < |lists| && 0 <= j < |lists[i]| ==> lists[i][j] in merged)
    && (forall x :: 0 <= x < |merged| ==> InSome(lists, merged[x]))
    && (forall i, j, e :: 0 <= i < j < |lists| && e in lists[i] ==> e !in lists[j])
  }

  ghost predicate InSome(lists: seq<seq<Entry>>, e: Entry) {
    exists i :: 0 <= i < |lists| && e in lists[i]
  }

  /** Two sorted lists as one. */
  function Zip(a: seq<Entry>, b: seq<Entry>): seq<Entry> {
    if a == [] then b
    else if b == [] then a
    else if Before(a[0].ikey, b[0].ikey) then [a[0]] + Zip(a[1..], b)
    else [b[0]] + Zip(a, b[1..])
  }

  ghost predicate KeysApart(a: seq<Entry>, b: seq<Entry>) {
    forall x, y :: x in a && y in b ==> x.ikey != y.ikey
  }

  lemma {:induction false} ZipMerges(a: seq<Entry>, b: seq<Entry>)
    requires Sorted(a) && Sorted(b) && KeysApart(a, b)
    ensures Sorted(Zip(a, b)) && forall e :: e in Zip(a, b) <==> e in a || e in b
  {
    hide Before, Sorted;
    if a == [] || b == [] {
    } else if Before(a[0].ikey, b[0].ikey) {
      TakeFirst(a);
      ZipMerges(a[1..], b);
      FirstSmallest(a[0], a[1..], b, Zip(a[1..], b));
    } else {
      TakeFirst(b);
      ZipMerges(a, b[1..]);
      OneIsBefore(a[0].ikey, b[0].ikey);
      FirstSmallest(b[0], b[1..], a, Zip(a, b[1..]));
    }
  }

  lemma TakeFirst(a: seq<Entry>)
    requires a != [] && Sorted(a)
    ensures Sorted(a[1..]) && a == [a[0]] + a[1..]
  {
  }

  lemma OneIsBefore(a: InternalKey, b: InternalKey)
    requires a != b
    ensures Before(a, b) || Before(b, a)
  {
  }

  lemma FirstSmallest(e: Entry, more: seq<Entry>, others: seq<Entry>, rest: seq<Entry>)
    requires Sorted([e] + more) && Sorted(others) && others != [] && Before(e.ikey, others[0].ikey) && Sorted(rest)
    requires forall x :: x in rest <==> x in more || x in others
    ensures Sorted([e] + rest)
  {
    forall x | x in rest ensures Before(e.ikey, x.ikey) {
      if x in more {
        var i :| 0 <= i < |more| && more[i] == x;
        assert ([e] + more)[0] == e && ([e] + more)[i + 1] == x;
      } else {
        var i :| 0 <= i < |others| && others[i] == x;
        if i > 0 { BeforeTrans(e.ikey, others[0].ikey, x.ikey); }
      }
    }
  }

  /** Sorted lists without a common key always merge. */
  lemma {:induction false} AlwaysMerge(lists: seq<seq<Entry>>) returns (merged: seq<Entry>)
    requires forall i :: 0 <= i < |lists| ==> Sorted(lists[i])
    requires forall i, j :: 0 <= i < j < |lists| ==> KeysApart(lists[i], lists[j])
    ensures Merges(lists, merged)
  {
    if lists == [] {
      merged := [];
    } else {
      var n := |lists| - 1;
      var before := AlwaysMerge(lists[..n]);
      forall x, y | x in before && y in lists[n] ensures x.ikey != y.ikey {
        var i :| 0 <= i < |lists[..n]| && x in lists[..n][i];
        assert KeysApart(lists[i], lists[n]);
      }
      ZipMerges(before, lists[n]);
      merged := Zip(before, lists[n]);
      JoinMerges(lists, before, merged);
    }
  }

  lemma JoinMerges(lists: seq<seq<Entry>>, before: seq<Entry>, merged: seq<Entry>)
    requires lists != [] && Merges(lists[..|lists| - 1], before) && Sorted(lists[|lists| - 1]) && Sorted(merged)
    requires forall i :: 0 <= i < |lists| - 1 ==> KeysApart(lists[i], lists[|lists| - 1])
    requires forall e :: e in merged <==> e in before || e in lists[|lists| - 1]
    ensures Merges(lists, merged)
  {
    hide Sorted;
    var n := |lists| - 1;
    var most := lists[..n];
    forall i, j | 0 <= i < |lists| && 0 <= j < |lists[i]| ensures lists[i][j] in merged {
      if i < n { assert most[i][j] in before; }
    }
    forall x | 0 <= x < |merged| ensures InSome(lists, merged[x]) {
      if merged[x] in before {
        var y :| 0 <= y < |before| && before[y] == merged[x];
        assert InSome(most, before[y]);
        var i :| 0 <= i < |most| && before[y] in most[i];
        assert merged[x] in lists[i];
      }
    }
    forall i, j, e | 0 <= i < j < |lists| && e in lists[i] ensures e !in lists[j] {
      if j < n { assert e in most[i] && most[j] == lists[j]; }
    }
  }

  /** Where an entry stands in the merged list. */
  ghost function Index(merged: seq<Entry>, e: Entry): (x: nat)
    requires e in merged
    ensures x < |merged| && merged[x] == e
  {
    var x :| 0 <= x < |merged| && merged[x] == e;
    x
  }

  lemma IndexOrder(merged: seq<Entry>, a: Entry, b: Entry)
    requires Sorted(merged) && a in merged && b in merged
    ensures Before(a.ikey, b.ikey) <==> Index(merged, a) < Index(merged, b)
    ensures a == b <==> Index(merged, a) == Index(merged, b)
  {
  }

  ghost predicate Within(rows: seq<Entry>, merged: seq<Entry>) {
    forall j :: 0 <= j < |rows| ==> rows[j] in merged
  }

  /** The child stands on its first row at or after place `x` of the merged list. */
  ghost predicate Ahead(merged: seq<Entry>, c: Cursor, x: nat)
    requires Within(c.rows, merged)
  {
    c.at <= |c.rows| && forall j :: 0 <= j < |c.rows| ==> (j < c.at <==> Index(merged, c.rows[j]) < x)
  }

  /** The child stands on its last row before place `x`, or is not valid if it has none. */
  ghost predicate Behind(merged: seq<Entry>, c: Cursor, x: nat)
    requires Within(c.rows, merged)
  {
    c.at <= |c.rows| && forall j :: 0 <= j < |c.rows| ==> (OnRow(c) && j <= c.at <==> Index(merged, c.rows[j]) < x)
  }

  /** A sought child stands at the place of the key. */
  lemma SeekIsAhead(merged: seq<Entry>, c: Cursor, key: InternalKey, x: nat)
    requires Sorted(merged) && Sorted(c.rows) && Within(c.rows, merged) && x <= |merged|
    requires forall y :: 0 <= y < |merged| ==> (Before(merged[y].ikey, key) <==> y < x)
    ensures Ahead(merged, Sought(c, key), x)
  {
  }

  lemma IndexAt(merged: seq<Entry>, x: nat)
    requires Sorted(merged) && x < |merged|
    ensures Index(merged, merged[x]) == x
  {
  }

  /** Steps one row back from the first row at or after place `x`, or from the end. */
  lemma StepBack(merged: seq<Entry>, c: Cursor, x: nat)
    requires Within(c.rows, merged) && Ahead(merged, c, x)
    ensures Behind(merged, if OnRow(c) then Retreat(c) else Last(c), x)
  {
  }

  // ---- Choosing a child ----

  /** `r` is the valid child with the smallest (largest, if not `up`) key. */
  ghost predicate Extreme(children: seq<Cursor>, up: bool, r: Option<nat>) {
    && (r == None ==> forall i :: 0 <= i < |children| ==> !OnRow(children[i]))
    && (r.Some? ==> r.value < |children| && OnRow(children[r.value])
                    && forall i :: 0 <= i < |children| && OnRow(children[i]) ==>
                         var a, b := RowOf(children[r.value]).ikey, RowOf(children[i]).ikey;
                         if up then !Before(b, a) else !Before(a, b))
  }

  method FindSmallest(children: seq<Cursor>) returns (smallest: Option<nat>)
    ensures Extreme(children, true, smallest)
  {
    smallest := None;
    for i := 0 to |children|
      invariant smallest.Some? ==> smallest.value < i
      invariant Extreme(children[..i], true, smallest)
    {
      if OnRow(children[i]) {
        if smallest == None {
          smallest := Some(i);
        } else if Before(RowOf(children[i]).ikey, RowOf(children[smallest.value]).ikey) {
          smallest := Some(i);
        }
      }
    }
  }

  method FindLargest(children: seq<Cursor>) returns (largest: Option<nat>)
    ensures Extreme(children, false, largest)
  {
    largest := None;
    var i := |children|;
    while i > 0
      invariant 0 <= i <= |children|
      invariant largest.Some? ==> i <= largest.value < |children| && OnRow(children[largest.value])
      invariant largest == None ==> forall j :: i <= j < |children| ==> !OnRow(children[j])
      invariant largest.Some? ==> forall j :: i <= j < |children| && OnRow(children[j]) ==>
                                    !Before(RowOf(children[largest.value]).ikey, RowOf(children[j]).ikey)
    {
      i := i - 1;
      if OnRow(children[i]) {
        if largest == None {
          largest := Some(i);
        } else if Before(RowOf(children[largest.value]).ikey, RowOf(children[i]).ikey) {
          largest := Some(i);
        }
      }
    }
  }

  /** Each child is on its list. */
  ghost predicate Attached(lists: seq<seq<Entry>>, merged: seq<Entry>, children: seq<Cursor>) {
    && |children| == |lists|
    && forall i :: 0 <= i < |children| ==>
        children[i].rows == lists[i] && Within(children[i].rows, merged) && Sorted(children[i].rows)
  }

  ghost predicate AllAhead(lists: seq<seq<Entry>>, merged: seq<Entry>, children: seq<Cursor>, x: nat) {
    Attached(lists, merged, children) && forall i :: 0 <= i < |children| ==> Ahead(merged, children[i], x)
  }

  ghost predicate AllBehind(lists: seq<seq<Entry>>, merged: seq<Entry>, children: seq<Cursor>, x: nat) {
    Attached(lists, merged, children) && forall i :: 0 <= i < |children| ==> Behind(merged, children[i], x)
  }

  /** With every child at place `x`, the smallest is the entry there. */
  lemma SmallestIsAt(lists: seq<seq<Entry>>, merged: seq<Entry>, children: seq<Cursor>, x: nat, r: Option<nat>)
    requires Merges(lists, merged) && x <= |merged| && AllAhead(lists, merged, children, x)
               && Extreme(children, true, r)
    ensures r == None <==> x == |merged|
    ensures r.Some? ==> RowOf(children[r.value]) == merged[x]
  {
    if x < |merged| {
      var i :| 0 <= i < |lists| && merged[x] in lists[i];
      AheadOn(merged, children[i], x);
    }
    if r.Some? {
      var c := children[r.value];
      if x < |merged| { IndexOrder(merged, merged[x], RowOf(c)); IndexAt(merged, x); }
    }
  }

  lemma AheadOn(merged: seq<Entry>, c: Cursor, x: nat)
    requires Sorted(merged) && Sorted(c.rows) && Within(c.rows, merged) && x < |merged| && merged[x] in c.rows
               && Ahead(merged, c, x)
    ensures OnRow(c) && RowOf(c) == merged[x]
  {
  }

  /** With every child behind place `x`, the largest is the entry before it. */
  lemma LargestIsBefore(lists: seq<seq<Entry>>, merged: seq<Entry>, children: seq<Cursor>, x: nat, r: Option<nat>)
    requires Merges(lists, merged) && x <= |merged| && AllBehind(lists, merged, children, x)
               && Extreme(children, false, r)
    ensures r == None <==> x == 0
    ensures r.Some? ==> RowOf(children[r.value]) == merged[x - 1]
  {
    if x > 0 {
      var i :| 0 <= i < |lists| && merged[x - 1] in lists[i];
      BehindOn(merged, children[i], x);
    }
    if r.Some? {
      var c := children[r.value];
      if x > 0 { IndexOrder(merged, merged[x - 1], RowOf(c)); IndexAt(merged, x - 1); }
    }
  }

  lemma BehindOn(merged: seq<Entry>, c: Cursor, x: nat)
    requires Sorted(merged) && Sorted(c.rows) && Within(c.rows, merged) && 0 < x <= |merged|
               && merged[x - 1] in c.rows && Behind(merged, c, x)
    ensures OnRow(c) && RowOf(c) == merged[x - 1]
  {
  }

  // ---- Moving all children ----

  method AllToFirst(ghost lists: seq<seq<Entry>>, ghost merged: seq<Entry>, children: seq<Cursor>)
    returns (r: seq<Cursor>)
    requires Attached(lists, merged, children)
    ensures AllAhead(lists, merged, r, 0)
  {
    hide Sorted, Within;
    r := children;
    for i := 0 to |children|
      invariant |r| == |children| && forall j :: 0 <= j < |r| ==>
                  r[j] == if j < i then First(children[j]) else children[j]
    {
      r := r[i := First(r[i])];
    }
  }

  method AllToLast(ghost lists: seq<seq<Entry>>, ghost merged: seq<Entry>, children: seq<Cursor>)
    returns (r: seq<Cursor>)
    requires Attached(lists, merged, children)
    ensures AllBehind(lists, merged, r, |merged|)
  {
    hide Sorted, Within;
    r := children;
    for i := 0 to |children|
      invariant |r| == |children| && forall j :: 0 <= j < |r| ==>
                  r[j] == if j < i then Last(children[j]) else children[j]
    {
      r := r[i := Last(r[i])];
    }
  }

  method AllSeek(ghost lists: seq<seq<Entry>>, ghost merged: seq<Entry>, children: seq<Cursor>, key: InternalKey,
                 ghost x: nat) returns (r: seq<Cursor>)
    requires Attached(lists, merged, children) && Sorted(merged) && x == LowerBound(merged, key)
    ensures AllAhead(lists, merged, r, x)
  {
    hide Sorted, Within, LowerBound, Ahead, Before;
    r := children;
    BoundSplits(merged, key);
    for i := 0 to |children|
      invariant |r| == |children|
      invariant forall j :: 0 <= j < |r| ==> r[j].rows == children[j].rows
      invariant forall j :: i <= j < |r| ==> r[j] == children[j]
      invariant forall j :: 0 <= j < i ==> Ahead(merged, r[j], x)
    {
      SeekIsAhead(merged, r[i], key, x);
      r := r[i := Sought(r[i], key)];
    }
  }

  lemma BoundSplits(merged: seq<Entry>, key: InternalKey)
    requires Sorted(merged)
    ensures forall y :: 0 <= y < |merged| ==> (Before(merged[y].ikey, key) <==> y < LowerBound(merged, key))
  {
  }

  /** Places of the other children around the current one. */
  ghost predicate OthersAhead(merged: seq<Entry>, children: seq<Cursor>, c: nat, x: nat)
    requires forall i :: 0 <= i < |children| ==> Within(children[i].rows, merged)
  {
    forall i :: 0 <= i < |children| && i != c ==> Ahead(merged, children[i], x)
  }

  ghost predicate OthersBehind(merged: seq<Entry>, children: seq<Cursor>, c: nat, x: nat)
    requires forall i :: 0 <= i < |children| ==> Within(children[i].rows, merged)
  {
    forall i :: 0 <= i < |children| && i != c ==> Behind(merged, children[i], x)
  }

  /** Child `c` stands on the entry at place `x`. */
  ghost predicate CurrentAt(merged: seq<Entry>, children: seq<Cursor>, c: nat, x: nat) {
    c < |children| && x < |merged| && OnRow(children[c]) && RowOf(children[c]) == merged[x]
  }

  /** Before turning forward: repositions every other child after the key. */
  method TurnForward(ghost lists: seq<seq<Entry>>, ghost merged: seq<Entry>, children: seq<Cursor>, c: nat,
                     ghost x: nat) returns (r: seq<Cursor>)
    requires Merges(lists, merged) && Attached(lists, merged, children) && CurrentAt(merged, children, c, x)
    ensures Attached(lists, merged, r) && |r| == |children| && r[c] == children[c] && OthersAhead(merged, r, c, x)
  {
    hide Sorted, Within, LowerBound, Ahead, Before, Merges;
    r := children;
    var key := RowOf(children[c]).ikey;
    MergedSorted(lists, merged);
    KeySplits(merged, x);
    for i := 0 to |children|
      invariant |r| == |children| && r[c] == children[c]
      invariant forall j :: 0 <= j < |r| ==> r[j].rows == children[j].rows
      invariant forall j :: i <= j < |r| ==> r[j] == children[j]
      invariant forall j :: 0 <= j < i && j != c ==> Ahead(merged, r[j], x)
    {
      if i != c {
        SeekIsAhead(merged, r[i], key, x);
        NotEqual(lists, merged, children, c, x, i, key);
        r := r[i := After(r[i], key)];
      }
    }
  }

  lemma MergedSorted(lists: seq<seq<Entry>>, merged: seq<Entry>)
    requires Merges(lists, merged)
    ensures Sorted(merged)
  {
  }

  lemma KeySplits(merged: seq<Entry>, x: nat)
    requires Sorted(merged) && x < |merged|
    ensures forall y :: 0 <= y < |merged| ==> (Before(merged[y].ikey, merged[x].ikey) <==> y < x)
  {
  }

  /** No other child has a row with the current key. */
  lemma NotEqual(lists: seq<seq<Entry>>, merged: seq<Entry>, children: seq<Cursor>, c: nat, x: nat, i: nat,
                 key: InternalKey)
    requires Merges(lists, merged) && Attached(lists, merged, children) && CurrentAt(merged, children, c, x)
    requires i < |children| && i != c && key == merged[x].ikey
    ensures merged[x] !in children[i].rows
    ensures forall j :: 0 <= j < |children[i].rows| ==> children[i].rows[j].ikey != key
  {
  }

  /** Before turning back: repositions every other child before the key. */
  method TurnBack(ghost lists: seq<seq<Entry>>, ghost merged: seq<Entry>, children: seq<Cursor>, c: nat,
                  ghost x: nat) returns (r: seq<Cursor>)
    requires Merges(lists, merged) && Attached(lists, merged, children) && CurrentAt(merged, children, c, x)
    ensures Attached(lists, merged, r) && |r| == |children| && r[c] == children[c] && OthersBehind(merged, r, c, x)
  {
    hide Sorted, Within, LowerBound, Ahead, Behind, Before, Merges;
    r := children;
    var key := RowOf(children[c]).ikey;
    MergedSorted(lists, merged);
    KeySplits(merged, x);
    for i := 0 to |children|
      invariant |r| == |children| && r[c] == children[c]
      invariant forall j :: 0 <= j < |r| ==> r[j].rows == children[j].rows
      invariant forall j :: i <= j < |r| ==> r[j] == children[j]
      invariant forall j :: 0 <= j < i && j != c ==> Behind(merged, r[j], x)
    {
      if i != c {
        SeekIsAhead(merged, r[i], key, x);
        StepBack(merged, Sought(r[i], key), x);
        r := r[i := Sought(r[i], key)];
        if OnRow(r[i]) {
          r := r[i := Retreat(r[i])];
        } else {
          r := r[i := Last(r[i])];
        }
      }
    }
  }

  /** Stepping the current child over its entry brings every child to the next place. */
  lemma StepOver(lists: seq<seq<Entry>>, merged: seq<Entry>, children: seq<Cursor>, c: nat, x: nat)
    requires Merges(lists, merged) && Attached(lists, merged, children) && CurrentAt(merged, children, c, x)
    requires OthersAhead(merged, children, c, x)
    ensures AllAhead(lists, merged, children[c := Advance(children[c])], x + 1)
  {
  }

  /** Stepping the current child back leaves every child behind the place. */
  lemma StepBehind(lists: seq<seq<Entry>>, merged: seq<Entry>, children: seq<Cursor>, c: nat, x: nat)
    requires Merges(lists, merged) && Attached(lists, merged, children) && CurrentAt(merged, children, c, x)
    requires OthersBehind(merged, children, c, x) || OthersBehind(merged, children, c, x + 1)
    ensures AllBehind(lists, merged, children[c := Retreat(children[c])], x)
  {
  }

  class MergingIterator {
    var children: seq<Cursor>
    var current: Option<nat>
    var forward: bool
    ghost const lists: seq<seq<Entry>>
    ghost const merged: seq<Entry>
    /** The place on the merged list, its length when not valid. */
    ghost var at: nat

    ghost predicate Valid()
      reads this
    {
      && Merges(lists, merged)
      && Attached(lists, merged, children)
      && at <= |merged|
      && (current == None <==> at == |merged|)
      && (current.Some? ==>
            && current.value < |children| && OnRow(children[current.value])
            && RowOf(children[current.value]) == merged[at]
            && if forward then AllAhead(lists, merged, children, at) else AllBehind(lists, merged, children, at + 1))
    }

    predicate IsValid()
      reads this
    {
      current.Some?
    }

    constructor (lists: seq<seq<Entry>>, ghost merged: seq<Entry>)
      requires Merges(lists, merged)
      ensures Valid() && !IsValid() && this.merged == merged && this.lists == lists
    {
      this.lists, this.merged := lists, merged;
      children := seq(|lists|, i requires 0 <= i < |lists| => Cursor(lists[i], |lists[i]|));
      current, forward, at := None, true, |merged|;
    }

    /** The entry shown is the one at the cursor's place on the merged list. */
    method Current() returns (e: Entry)
      requires Valid() && IsValid()
      ensures at < |merged| && e == merged[at]
    {
      e := RowOf(children[current.value]);
    }

    method SeekToFirst()
      requires Valid()
      modifies this
      ensures Valid() && at == 0
    {
      hide Merges, Sorted;
      children := AllToFirst(lists, merged, children);
      current := FindSmallest(children);
      SmallestIsAt(lists, merged, children, 0, current);
      forward, at := true, 0;
    }

    method SeekToLast()
      requires Valid()
      modifies this
      ensures Valid() && at == if merged == [] then 0 else |merged| - 1
    {
      hide Merges, Sorted;
      children := AllToLast(lists, merged, children);
      current := FindLargest(children);
      LargestIsBefore(lists, merged, children, |merged|, current);
      forward, at := false, if merged == [] then 0 else |merged| - 1;
    }

    method Seek(target: InternalKey)
      requires Valid()
      modifies this
      ensures Valid() && at == LowerBound(merged, target)
    {
      hide Merges, Sorted, LowerBound;
      ghost var x := LowerBound(merged, target);
      MergedSorted(lists, merged);
      children := AllSeek(lists, merged, children, target, x);
      current := FindSmallest(children);
      SmallestIsAt(lists, merged, children, x, current);
      forward, at := true, x;
    }

    /** One place on, from either direction. */
    method Next()
      requires Valid() && IsValid()
      modifies this
      ensures Valid() && at == old(at) + 1
    {
      hide Merges, Sorted, Within, Ahead, Behind, Before;
      var c := current.value;
      if !forward {
        children := TurnForward(lists, merged, children, c, at);
        forward := true;
      }
      StepOver(lists, merged, children, c, at);
      children := children[c := Advance(children[c])];
      current := FindSmallest(children);
      SmallestIsAt(lists, merged, children, at + 1, current);
      at := at + 1;
    }

    /** One place back, from either direction; not valid before the first. */
    method Prev()
      requires Valid() && IsValid()
      modifies this
      ensures Valid() && at == if old(at) == 0 then |merged| else old(at) - 1
    {
      hide Merges, Sorted, Within, Ahead, Behind, Before;
      var c := current.value;
      if forward {
        children := TurnBack(lists, merged, children, c, at);
        forward := false;
      }
      StepBehind(lists, merged, children, c, at);
      children := children[c := Retreat(children[c])];
      current := FindLargest(children);
      LargestIsBefore(lists, merged, children, at, current);
      at := if at == 0 then |merged| else at - 1;
    }
  }
}
