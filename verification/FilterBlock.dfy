/**
 * Filter blocks: one filter for the keys of every 2 KiB range of block
 * offsets, stored with an array of offsets (table/filter_block.cc).
 */
module FilterBlock {
  import opened DbFormat
  import opened Coding
  import opened Bloom

  const BASE := 2048
  const BASE_LG: byte := 11

  /** The policy of a filter block: a hash and the two parameters of its bloom filters. */
  datatype Policy = Policy(hash: HashFunction, bitsPerKey: nat, probes: nat)

  predicate ValidPolicy(p: Policy) {
    1 <= p.probes <= 30
  }

  /** The bytes `a` to `b` hold the filter of a group of keys; an empty group has no bytes. */
  ghost predicate GroupAt(p: Policy, data: Bytes, a: nat, b: nat, group: seq<Bytes>) {
    && a <= b <= |data|
    && (group == [] ==> a == b)
    && (group != [] ==> FilterOf(p.hash, data[a..b], group, p.probes))
  }

  /** Filter `i` occupies the bytes from bound `i` to bound `i + 1`. */
  ghost predicate Layout(p: Policy, data: Bytes, bounds: seq<nat>, groups: seq<seq<Bytes>>) {
    && |bounds| == |groups| + 1
    && bounds[|groups|] == |data|
    && forall i :: 0 <= i < |groups| ==> GroupAt(p, data, bounds[i], bounds[i + 1], groups[i])
  }

  lemma GroupAtLonger(p: Policy, data: Bytes, more: Bytes, a: nat, b: nat, group: seq<Bytes>)
    requires GroupAt(p, data, a, b, group) && data <= more
    ensures GroupAt(p, more, a, b, group)
  {
    assert data[a..b] == more[a..b];
  }

  /** A filter appended at the end extends the layout. */
  lemma LayoutGrows(p: Policy, data: Bytes, more: Bytes, offsets: seq<nat>, groups: seq<seq<Bytes>>, group: seq<Bytes>)
    requires Layout(p, data, offsets + [|data|], groups)
    requires data <= more && GroupAt(p, more, |data|, |more|, group)
    ensures Layout(p, more, offsets + [|data|] + [|more|], groups + [group])
  {
    hide GroupAt;
    var bounds, all := offsets + [|data|] + [|more|], groups + [group];
    forall i | 0 <= i < |all| ensures GroupAt(p, more, bounds[i], bounds[i + 1], all[i]) {
      if i < |groups| {
        GroupAtLonger(p, data, more, bounds[i], bounds[i + 1], all[i]);
      }
    }
  }

  /** Keys kept end to end, with the start of each. */
  ghost predicate Flattened(keys: Bytes, start: seq<nat>, pending: seq<Bytes>) {
    && |start| == |pending|
    && forall i :: 0 <= i < |start| ==> KeyAt(keys, start[i], (start + [|keys|])[i + 1], pending[i])
  }

  ghost predicate KeyAt(keys: Bytes, a: nat, b: nat, key: Bytes) {
    a <= b <= |keys| && keys[a..b] == key
  }

  class FilterBlockBuilder {
    const policy: Policy
    var keys: Bytes
    var start: seq<nat>
    var result: Bytes
    var filterOffsets: seq<nat>
    /** The keys of each finished filter, and those added since. */
    ghost var groups: seq<seq<Bytes>>
    ghost var pending: seq<Bytes>

    ghost predicate Valid()
      reads this
    {
      && ValidPolicy(policy)
      && Flattened(keys, start, pending)
      && (pending == [] ==> keys == [])
      && Layout(policy, result, filterOffsets + [|result|], groups)
    }

    /** The keys by filter index, the current one last. */
    ghost function All(): seq<seq<Bytes>>
      reads this
    {
      groups + [pending]
    }

    constructor (policy: Policy)
      requires ValidPolicy(policy)
      ensures Valid() && All() == [[]] && this.policy == policy
    {
      this.policy := policy;
      keys, start, result, filterOffsets, groups, pending := [], [], [], [], [], [];
    }

    /** Moves on to the filter of a block's offset; filters in between are empty. */
    method StartBlock(blockOffset: nat)
      requires Valid() && blockOffset / BASE >= |filterOffsets|
      modifies this
      ensures Valid() && |All()| == blockOffset / BASE + 1
      ensures old(All()) <= All()
      ensures forall i :: |old(All())| <= i < |All()| ==> All()[i] == []
    {
      hide Layout, Flattened;
      var index := blockOffset / BASE;
      LayoutCounts(policy, result, filterOffsets, groups);
      while index > |filterOffsets|
        invariant Valid() && |groups| == |filterOffsets| <= index
        invariant old(All()) <= All()
        invariant forall i :: |old(All())| <= i < |All()| ==> All()[i] == []
        decreases index - |filterOffsets|
      {
        GenerateFilter();
      }
    }

    method AddKey(key: Bytes)
      requires Valid()
      modifies this
      ensures Valid() && groups == old(groups) && pending == old(pending) + [key]
      ensures filterOffsets == old(filterOffsets)
    {
      hide Layout;
      AddedKeyFlattened(keys, start, pending, key);
      start := start + [|keys|];
      keys := keys + key;
      pending := pending + [key];
    }

    method GenerateFilter()
      requires Valid()
      modifies this
      ensures Valid() && groups == old(groups) + [old(pending)] && pending == []
      ensures |filterOffsets| == |old(filterOffsets)| + 1
    {
      hide Layout, Flattened, FilterOf;
      PendingCount(keys, start, pending);
      ghost var before := result;
      var offset := |result|;
      if start != [] {
        var tmp := CutKeys(keys, start, pending);
        result := CreateFilter(policy.hash, tmp, policy.bitsPerKey, policy.probes, result);
        assert result[offset..] == result[offset..|result|];
      }
      LayoutGrows(policy, before, result, filterOffsets, groups, pending);
      filterOffsets := filterOffsets + [offset];
      keys, start := [], [];
      groups, pending := groups + [pending], [];
      NothingFlattened();
    }

    /** Closes the last filter and appends the offset array. */
    method Finish() returns (contents: Bytes)
      requires Valid()
      modifies this
      ensures Valid() && pending == []
      ensures groups == if old(pending) == [] then old(groups) else old(All())
      ensures |result| < WORD ==> BlockOf(policy, contents, groups)
    {
      hide Layout, Flattened;
      PendingCount(keys, start, pending);
      if start != [] {
        GenerateFilter();
      }
      LayoutBounds(policy, result, filterOffsets + [|result|], groups);
      contents := StoreBounds(result, filterOffsets + [|result|]);
      assert |result| < WORD ==> StoredAs(policy, contents, groups, result, filterOffsets + [|result|]);
    }
  }

  /** Appends the offsets and the log of the base. */
  method StoreBounds(data: Bytes, all: seq<nat>) returns (contents: Bytes)
    ensures Small(all) ==> contents == Stored(data, all)
  {
    contents := PutWords(data, all);
    contents := contents + [BASE_LG];
  }

  lemma LayoutCounts(p: Policy, data: Bytes, offsets: seq<nat>, groups: seq<seq<Bytes>>)
    requires Layout(p, data, offsets + [|data|], groups)
    ensures |offsets| == |groups|
  {
  }

  lemma LayoutBounds(p: Policy, data: Bytes, bounds: seq<nat>, groups: seq<seq<Bytes>>)
    requires Layout(p, data, bounds, groups)
    ensures BoundsFit(bounds, |data|)
  {
    hide FilterOf;
    forall i | 0 <= i < |bounds| ensures bounds[i] <= |data| {
      assert i < |groups| ==> GroupAt(p, data, bounds[i], bounds[i + 1], groups[i]);
    }
  }

  lemma NothingFlattened()
    ensures Flattened([], [], [])
  {
  }

  lemma PendingCount(keys: Bytes, start: seq<nat>, pending: seq<Bytes>)
    requires Flattened(keys, start, pending)
    ensures |start| == |pending|
  {
  }

  lemma AddedKeyFlattened(keys: Bytes, start: seq<nat>, pending: seq<Bytes>, key: Bytes)
    requires Flattened(keys, start, pending)
    ensures Flattened(keys + key, start + [|keys|], pending + [key])
  {
  }

  /** Recovers the list of keys from the flat buffer. */
  method CutKeys(keys: Bytes, start: seq<nat>, ghost pending: seq<Bytes>) returns (tmp: seq<Bytes>)
    requires Flattened(keys, start, pending)
    ensures tmp == pending
  {
    var limits := start + [|keys|];
    tmp := [];
    for i := 0 to |start|
      invariant tmp == pending[..i]
    {
      tmp := tmp + [keys[start[i]..limits[i + 1]]];
    }
  }

  // ---- Stored form ----

  ghost predicate BoundsFit(bounds: seq<nat>, size: nat) {
    bounds != [] && forall i :: 0 <= i < |bounds| ==> bounds[i] <= size
  }

  /** The filter data, the bounds of the filters, and the log of the base. */
  function Stored(data: Bytes, bounds: seq<nat>): Bytes
    requires Small(bounds)
  {
    data + Words(bounds) + [BASE_LG]
  }

  /** `n >> lg`. */
  function ShiftRight(n: nat, lg: nat): nat {
    if lg == 0 then n else ShiftRight(n / 2, lg - 1)
  }

  lemma ShiftByBase(n: nat)
    ensures ShiftRight(n, 11) == n / BASE
  {
    var a := n / 2 / 2 / 2;
    assert ShiftRight(n, 11) == ShiftRight(n / 2, 10) == ShiftRight(n / 2 / 2, 9) == ShiftRight(a, 8);
    var b := a / 2 / 2 / 2 / 2;
    assert ShiftRight(a, 8) == ShiftRight(a / 2, 7) == ShiftRight(a / 2 / 2, 6) == ShiftRight(a / 2 / 2 / 2, 5)
           == ShiftRight(b, 4);
    var c := b / 2 / 2 / 2 / 2;
    assert ShiftRight(b, 4) == ShiftRight(b / 2, 3) == ShiftRight(b / 2 / 2, 2) == ShiftRight(b / 2 / 2 / 2, 1) == c;
  }

  /** A block the builder wrote for these groups of keys. */
  ghost predicate BlockOf(p: Policy, contents: Bytes, groups: seq<seq<Bytes>>) {
    exists data, bounds :: StoredAs(p, contents, groups, data, bounds)
  }

  ghost predicate StoredAs(p: Policy, contents: Bytes, groups: seq<seq<Bytes>>, data: Bytes, bounds: seq<nat>) {
    |data| < WORD && Layout(p, data, bounds, groups) && BoundsFit(bounds, |data|) && contents == Stored(data, bounds)
  }

  /**
   * FilterBlockReader: parses the stored block and asks the policy.  For a block
   * the builder wrote it admits every key of the group of the block offset, and
   * nothing at all where the group is empty.
   */
  method KeyMayMatch(p: Policy, contents: Bytes, blockOffset: nat, key: Bytes, ghost groups: seq<seq<Bytes>>)
    returns (r: bool)
    ensures BlockOf(p, contents, groups) ==>
              var i := blockOffset / BASE;
              && (i < |groups| && key in groups[i] ==> r)
              && (i < |groups| && groups[i] == [] ==> !r)
              && (i >= |groups| ==> r)
    ensures |contents| < 5 ==> r
  {
    hide BlockOf, StoredAs;
    var n := |contents|;
    if n < 5 {
      if BlockOf(p, contents, groups) { BlockParses(p, contents, groups, blockOffset, key); }
      return true;
    }
    var lastWord := DecodeFixed32(contents[n - 5..n - 1]);
    var index := ShiftRight(blockOffset, contents[n - 1]);
    if BlockOf(p, contents, groups) {
      BlockParses(p, contents, groups, blockOffset, key);
    }
    if lastWord > n - 5 {
      return true;
    }
    var num := (n - 5 - lastWord) / 4;
    if index < num {
      var at := lastWord + index * 4;
      var from := DecodeFixed32(contents[at..at + 4]);
      var limit := DecodeFixed32(contents[at + 4..at + 8]);
      if from <= limit <= lastWord {
        r := Bloom.KeyMayMatch(p.hash, key, contents[from..limit]);
        return;
      } else if from == limit {
        return false;
      }
    }
    return true;
  }

  /** Parsing a block the builder wrote gives back the bounds and the filters. */
  lemma BlockParses(p: Policy, contents: Bytes, groups: seq<seq<Bytes>>, blockOffset: nat, key: Bytes)
    requires BlockOf(p, contents, groups)
    ensures var n := |contents|; n >= 5
    ensures var n := |contents|;
            var lastWord, index := DecodeFixed32(contents[n - 5..n - 1]), ShiftRight(blockOffset, contents[n - 1]);
              && lastWord <= n - 5 && (n - 5 - lastWord) / 4 == |groups| && index == blockOffset / BASE
              && (index < |groups| ==>
                    var at := lastWord + index * 4;
                    at + 8 <= n
                    && var from, limit := DecodeFixed32(contents[at..at + 4]), DecodeFixed32(contents[at + 4..at + 8]);
                       && from <= limit <= lastWord
                       && (key in groups[index] ==> MayMatch(p.hash, key, contents[from..limit]))
                       && (groups[index] == [] ==> !MayMatch(p.hash, key, contents[from..limit])))
  {
    hide BlockOf, DecodeFixed32, Fixed32, FilterOf, MayMatch;
    var data, bounds := TakeBlock(p, contents, groups);
    var n, m := |contents|, |groups|;
    ShiftByBase(blockOffset);
    BoundAt(data, bounds, m);
    var index := blockOffset / BASE;
    if index < m {
      BoundAt(data, bounds, index);
      BoundAt(data, bounds, index + 1);
      var from, limit := bounds[index], bounds[index + 1];
      assert contents[from..limit] == data[from..limit];
      if key in groups[index] {
        NoFalseNegatives(p.hash, data[from..limit], groups[index], p.probes, key);
      }
      if groups[index] == [] { EmptyFilter(p.hash, key, contents[from..limit]); }
    }
  }

  lemma EmptyFilter(hash: HashFunction, key: Bytes, filter: Bytes)
    requires filter == []
    ensures !MayMatch(hash, key, filter)
  {
  }

  lemma TakeBlock(p: Policy, contents: Bytes, groups: seq<seq<Bytes>>) returns (data: Bytes, bounds: seq<nat>)
    requires BlockOf(p, contents, groups)
    ensures |data| < WORD && Layout(p, data, bounds, groups) && BoundsFit(bounds, |data|)
              && contents == Stored(data, bounds)
  {
    hide Layout, BoundsFit, Stored;
    data, bounds :| StoredAs(p, contents, groups, data, bounds);
  }

  /** Where bound `i` is stored. */
  lemma BoundAt(data: Bytes, bounds: seq<nat>, i: nat)
    requires i < |bounds| && Small(bounds)
    ensures var c := Stored(data, bounds); var at := |data| + 4 * i;
              |c| == |data| + 4 * |bounds| + 1 && c[|c| - 1] == BASE_LG
              && at + 4 <= |c| && DecodeFixed32(c[at..at + 4]) == bounds[i]
  {
    hide DecodeFixed32, Fixed32, Words;
    var c, at := Stored(data, bounds), |data| + 4 * i;
    WordAt(bounds, i);
    assert c[at..at + 4] == Words(bounds)[4 * i..4 * i + 4];
    Fixed32RoundTrip(bounds[i]);
  }
}
