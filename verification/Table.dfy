/**
 * Sorted tables: data blocks, an index of shortened separators, and a filter
 * (table/table_builder.cc, table/table.cc).  A stored block is given by its
 * rows (`Block` is about their bytes); its size and the moment it is full are
 * parameters.
 */
module Table {
  import opened DbFormat
  import opened Bytewise
  import opened FilterBlock
  import Coding

  datatype Row = Row(key: Key, value: Bytes)

  datatype DataBlock = DataBlock(offset: nat, rows: seq<Row>)

  /** An index entry: a separator and the handle of its block. */
  datatype IndexEntry = IndexEntry(sep: Key, handle: nat)

  ghost predicate Ordered(rows: seq<Row>) {
    forall i, j :: 0 <= i < j < |rows| ==> KeyLess(rows[i].key, rows[j].key)
  }

  function Flat(blocks: seq<DataBlock>): seq<Row> {
    if blocks == [] then [] else blocks[0].rows + Flat(blocks[1..])
  }

  lemma {:induction false} FlatAppend(a: seq<DataBlock>, b: seq<DataBlock>)
    ensures Flat(a + b) == Flat(a) + Flat(b)
  {
    if a == [] {
      assert a + b == b;
    } else {
      assert (a + b)[1..] == a[1..] + b;
      FlatAppend(a[1..], b);
    }
  }

  lemma FlatLast(a: seq<DataBlock>, b: DataBlock)
    ensures Flat(a + [b]) == Flat(a) + b.rows
  {
    FlatAppend(a, [b]);
  }

  function Last(rows: seq<Row>): Key
    requires rows != []
  {
    rows[|rows| - 1].key
  }

  /** The separator is the block's last key or has a larger user key. */
  ghost predicate Closes(sep: Key, rows: seq<Row>)
    requires rows != []
  {
    sep == Last(rows) || Less(Last(rows).user, sep.user)
  }

  /** The separator precedes the next block, by its user key unless it is the last key itself. */
  ghost predicate Opens(sep: Key, rows: seq<Row>, next: seq<Row>)
    requires rows != [] && next != []
  {
    KeyLess(sep, next[0].key) && (sep == Last(rows) || Less(sep.user, next[0].key.user))
  }

  ghost predicate Indexed(index: seq<IndexEntry>, blocks: seq<DataBlock>) {
    && |index| <= |blocks|
    && (forall i :: 0 <= i < |blocks| ==> blocks[i].rows != [] && Ordered(blocks[i].rows))
    && (forall i :: 0 <= i < |index| ==> index[i].handle == blocks[i].offset && Closes(index[i].sep, blocks[i].rows))
    && (forall i, j :: 0 <= i < |index| && j == i + 1 < |blocks| ==>
        Opens(index[i].sep, blocks[i].rows, blocks[j].rows))
  }

  // ---- Lookup ----

  /** The first row at or after `k`: what Block::Iter::Seek finds, and a scan of the whole table. */
  function FirstRow(rows: seq<Row>, k: Key): Option<Row> {
    if rows == [] then None else if KeyLess(rows[0].key, k) then FirstRow(rows[1..], k) else Some(rows[0])
  }

  /** The first index entry at or after `k`. */
  function FirstIndex(index: seq<IndexEntry>, k: Key): (i: nat)
    ensures i <= |index|
    ensures forall h :: 0 <= h < i ==> KeyLess(index[h].sep, k)
    ensures i < |index| ==> !KeyLess(index[i].sep, k)
  {
    if index == [] || !KeyLess(index[0].sep, k) then 0 else 1 + FirstIndex(index[1..], k)
  }

  /** What a lookup makes of the row handed to it: only a row of its own user key matters. */
  function Outcome(row: Option<Row>, user: Bytes): Option<Row> {
    if row.Some? && row.value.key.user == user then row else None
  }

  lemma {:induction false} FirstRowAppend(a: seq<Row>, b: seq<Row>, k: Key)
    ensures FirstRow(a + b, k) == if FirstRow(a, k).Some? then FirstRow(a, k) else FirstRow(b, k)
  {
    if a == [] {
      assert a + b == b;
    } else {
      assert (a + b)[1..] == a[1..] + b;
      FirstRowAppend(a[1..], b, k);
    }
  }

  lemma {:induction false} FirstRowIn(rows: seq<Row>, k: Key)
    ensures FirstRow(rows, k).Some? ==> FirstRow(rows, k).value in rows
    ensures FirstRow(rows, k) == None ==> forall i :: 0 <= i < |rows| ==> KeyLess(rows[i].key, k)
    ensures (forall i :: 0 <= i < |rows| ==> KeyLess(rows[i].key, k)) ==> FirstRow(rows, k) == None
  {
    if rows == [] {
    } else {
      FirstRowIn(rows[1..], k);
    }
  }

  /** A block whose separator is before `k` holds nothing at or after it. */
  lemma BlockBefore(sep: Key, rows: seq<Row>, k: Key)
    requires rows != [] && Ordered(rows) && Closes(sep, rows) && KeyLess(sep, k)
    ensures FirstRow(rows, k) == None
  {
    forall i | 0 <= i < |rows| ensures KeyLess(rows[i].key, k) {
      if Less(Last(rows).user, sep.user) { KeyLessTransitive(Last(rows), sep, k); }
      if i < |rows| - 1 { KeyLessTransitive(rows[i].key, Last(rows), k); }
    }
    FirstRowIn(rows, k);
  }

  /** Skipping blocks by the index loses nothing. */
  lemma {:induction false} SkipBlocks(index: seq<IndexEntry>, blocks: seq<DataBlock>, k: Key, i: nat)
    requires Indexed(index, blocks) && i <= |index| && forall h :: 0 <= h < i ==> KeyLess(index[h].sep, k)
    ensures FirstRow(Flat(blocks), k) == FirstRow(Flat(blocks[i..]), k)
  {
    if i == 0 {
    } else {
      SkipBlocks(index, blocks, k, i - 1);
      var h := i - 1;
      BlockBefore(index[h].sep, blocks[h].rows, k);
      FirstRowAppend(blocks[h].rows, Flat(blocks[i..]), k);
    }
  }

  /** A key beyond a block but within its separator has a user key before the next block. */
  lemma NextBlockBeyond(sep: Key, rows: seq<Row>, next: seq<Row>, k: Key)
    requires rows != [] && next != [] && Closes(sep, rows) && Opens(sep, rows, next)
    requires !KeyLess(sep, k) && FirstRow(rows, k) == None
    ensures FirstRow(next, k) == Some(next[0]) && next[0].key.user != k.user
  {
    FirstRowIn(rows, k);
    KeyLessIsTotal(sep, k);
    if KeyLess(next[0].key, k) {
      KeyLessTransitive(sep, next[0].key, k);
    }
    if Less(k.user, sep.user) { LessTransitive(k.user, sep.user, next[0].key.user); }
    LessIsStrict(k.user, next[0].key.user);
  }

  /**
   * Looking only in the block the index points at gives a user-key lookup the
   * same outcome as the first row at or after the key in the whole table.
   */
  lemma IndexedLookup(index: seq<IndexEntry>, blocks: seq<DataBlock>, k: Key)
    requires Indexed(index, blocks) && |index| == |blocks|
    ensures var i := FirstIndex(index, k);
            Outcome(FirstRow(Flat(blocks), k), k.user) ==
              if i < |index| then Outcome(FirstRow(blocks[i].rows, k), k.user) else None
  {
    hide FirstRow, FirstIndex;
    var i := FirstIndex(index, k);
    SkipBlocks(index, blocks, k, i);
    if i < |index| {
      var rows, rest := blocks[i].rows, blocks[i + 1..];
      FirstRowAppend(rows, Flat(rest), k);
      if FirstRow(rows, k) == None && rest != [] {
        NextBlockBeyond(index[i].sep, rows, rest[0].rows, k);
        FirstRowAppend(rest[0].rows, Flat(rest[1..]), k);
      } else if rest == [] {
        FirstRowIn(Flat(rest), k);
      }
    } else {
      FirstRowIn(Flat(blocks[i..]), k);
    }
  }

  // ---- Filters ----

  /** The filter group of a block offset holds the user keys of the block. */
  ghost predicate Grouped(groups: seq<seq<Bytes>>, block: DataBlock) {
    var g := block.offset / BASE;
    g < |groups| && forall i :: 0 <= i < |block.rows| ==> block.rows[i].key.user in groups[g]
  }

  ghost predicate AllGrouped(groups: seq<seq<Bytes>>, blocks: seq<DataBlock>) {
    forall i :: 0 <= i < |blocks| ==> Grouped(groups, blocks[i])
  }

  lemma AllGroupedKept(groups: seq<seq<Bytes>>, more: seq<seq<Bytes>>, blocks: seq<DataBlock>)
    requires AllGrouped(groups, blocks) && |groups| <= |more|
    requires forall g, key :: 0 <= g < |groups| && key in groups[g] ==> key in more[g]
    ensures AllGrouped(more, blocks)
  {
  }

  // ---- Finished tables ----

  /** A table as read: its index, its data blocks by handle, its filter block. */
  datatype Table = Table(index: seq<IndexEntry>, file: map<nat, seq<Row>>, filter: Option<Bytes>)

  ghost predicate Holds(file: map<nat, seq<Row>>, block: DataBlock) {
    block.offset in file && file[block.offset] == block.rows
  }

  /** The table stores `blocks`, with a filter of `groups`. */
  ghost predicate TableOf(t: Table, p: Policy, blocks: seq<DataBlock>, groups: seq<seq<Bytes>>) {
    && Indexed(t.index, blocks) && |t.index| == |blocks|
    && (forall i :: 0 <= i < |blocks| ==> Holds(t.file, blocks[i]))
    && (t.filter.Some? ==> BlockOf(p, t.filter.value, groups) && AllFiltered(groups, blocks))
  }

  /** As `Grouped`, but a last empty group may have been dropped. */
  ghost predicate Filtered(groups: seq<seq<Bytes>>, block: DataBlock) {
    var g := block.offset / BASE;
    g < |groups| ==> forall i :: 0 <= i < |block.rows| ==> block.rows[i].key.user in groups[g]
  }

  ghost predicate AllFiltered(groups: seq<seq<Bytes>>, blocks: seq<DataBlock>) {
    forall i :: 0 <= i < |blocks| ==> Filtered(groups, blocks[i])
  }

  /**
   * Table::InternalGet: index, then filter, then data block.  A user-key lookup
   * comes out as if the whole table had been scanned.
   */
  method InternalGet(t: Table, p: Policy, k: Key, ghost blocks: seq<DataBlock>, ghost groups: seq<seq<Bytes>>)
    returns (row: Option<Row>)
    requires TableOf(t, p, blocks, groups)
    ensures Outcome(row, k.user) == Outcome(FirstRow(Flat(blocks), k), k.user)
  {
    hide FirstRow, FirstIndex, Indexed, BlockOf, AllFiltered;
    IndexedLookup(t.index, blocks, k);
    var i := FirstIndex(t.index, k);
    if i == |t.index| {
      return None;
    }
    IndexHandle(t.index, blocks, i);
    var handle := t.index[i].handle;
    if t.filter.Some? {
      var may := FilterBlock.KeyMayMatch(p, t.filter.value, handle, k.user, groups);
      if !may {
        FilteredOut(groups, blocks, i, k);
        return None;
      }
    }
    row := FirstRow(t.file[handle], k);
  }

  lemma IndexHandle(index: seq<IndexEntry>, blocks: seq<DataBlock>, i: nat)
    requires Indexed(index, blocks) && i < |index|
    ensures index[i].handle == blocks[i].offset
  {
  }

  /** A block the filter rules out has no row of the user key. */
  lemma FilteredOut(groups: seq<seq<Bytes>>, blocks: seq<DataBlock>, i: nat, k: Key)
    requires AllFiltered(groups, blocks) && i < |blocks|
    requires var g := blocks[i].offset / BASE; g < |groups| && k.user !in groups[g]
    ensures Outcome(FirstRow(blocks[i].rows, k), k.user) == None
  {
    FirstRowIn(blocks[i].rows, k);
  }

  // ---- Builder ----

  class TableBuilder {
    const sizeOf: seq<Row> -> nat
    const full: seq<Row> -> bool
    const filter: FilterBlockBuilder?
    var file: map<nat, seq<Row>>
    var index: seq<IndexEntry>
    var offset: nat
    var dataBlock: seq<Row>
    var lastKey: Key
    var numEntries: nat
    var pendingIndexEntry: bool
    var pendingHandle: nat
    /** The blocks written, and the rows added. */
    ghost var done: seq<DataBlock>
    ghost var added: seq<Row>

    /** The blocks written and the one being filled. */
    ghost function Blocks(): seq<DataBlock>
      reads this
    {
      if dataBlock == [] then done else done + [DataBlock(offset, dataBlock)]
    }

    ghost predicate Valid()
      reads this, filter
    {
      && Shape()
      && Indexed(index, Blocks())
      && Flat(Blocks()) == added
      && (filter != null ==>
          && filter.Valid() && |filter.All()| == offset / BASE + 1
          && AllGrouped(filter.All(), Blocks()))
    }

    ghost predicate Shape()
      reads this
    {
      && |index| + (if Blocks() == [] then 0 else 1) == |Blocks()|
      && (pendingIndexEntry <==> done != [] && dataBlock == [])
      && (pendingIndexEntry ==> pendingHandle == done[|done| - 1].offset)
      && numEntries == |added|
      && (added != [] ==> lastKey == added[|added| - 1].key && Blocks() != [])
      && (added == [] ==> Blocks() == [])
      && (forall i :: 0 <= i < |done| ==> done[i].offset < offset && Holds(file, done[i]))
    }

    constructor (sizeOf: seq<Row> -> nat, full: seq<Row> -> bool, filter: FilterBlockBuilder?)
      requires filter != null ==> filter.Valid() && filter.All() == [[]]
      modifies filter
      ensures Valid() && added == [] && this.sizeOf == sizeOf && this.full == full && this.filter == filter
    {
      this.sizeOf, this.full, this.filter := sizeOf, full, filter;
      file, index, offset, dataBlock, numEntries := map[], [], 0, [], 0;
      lastKey := Key([], 0, Value);
      pendingIndexEntry, pendingHandle, done, added := false, 0, [], [];
      new;
      if filter != null {
        GroupCount(filter);
        filter.StartBlock(0);
      }
    }

    /** Adds a row after all the others. */
    method Add(key: Key, value: Bytes)
      requires Valid() && (added != [] ==> KeyLess(Last(added), key))
      modifies this, filter
      ensures Valid() && added == old(added) + [Row(key, value)]
      ensures var block := old(dataBlock) + [Row(key, value)]; dataBlock == if full(block) then [] else block
    {
      AddRow(key, value);
      if full(dataBlock) {
        Flush();
      }
    }

    method AddRow(key: Key, value: Bytes)
      requires Valid() && (added != [] ==> KeyLess(Last(added), key))
      modifies this, filter
      ensures Valid() && added == old(added) + [Row(key, value)] && dataBlock == old(dataBlock) + [Row(key, value)]
    {
      hide Indexed, Flat, KeyLess, AllGrouped, Layout, Flattened;
      ghost var row := Row(key, value);
      EmitPending(key, value);
      if filter != null {
        filter.AddKey(key.user);
        GroupedMore(old(filter.All()), filter.All(), done, offset, dataBlock, row);
      }
      lastKey := key;
      numEntries := numEntries + 1;
      dataBlock := dataBlock + [Row(key, value)];
      added := added + [row];
    }

    /** Emits the index entry held back until the next key is known. */
    method EmitPending(key: Key, ghost value: Bytes)
      requires Shape() && Indexed(index, Blocks()) && Flat(Blocks()) == added
      requires added != [] ==> KeyLess(Last(added), key)
      modifies this`index, this`pendingIndexEntry
      ensures !pendingIndexEntry && |index| == |done|
      ensures var blocks := done + [DataBlock(offset, dataBlock + [Row(key, value)])];
                Indexed(index, blocks) && Flat(blocks) == added + [Row(key, value)]
    {
      hide Indexed, Flat, KeyLess;
      ghost var row := Row(key, value);
      LastRow(index, Blocks());
      FlatMore(done, offset, dataBlock, row);
      if pendingIndexEntry {
        var sep := InternalSeparator(lastKey, key);
        IndexedNewBlock(index, done, sep, row, offset);
        assert dataBlock + [row] == [row];
        index := index + [IndexEntry(sep, pendingHandle)];
        pendingIndexEntry := false;
      } else {
        IndexedMore(index, done, offset, dataBlock, row);
      }
    }

    /** Writes out the data block, leaving its index entry pending. */
    method Flush()
      requires Valid()
      modifies this, filter
      ensures Valid() && added == old(added) && Blocks() == old(Blocks()) && dataBlock == []
    {
      hide Indexed, Flat, AllGrouped, Layout, Flattened, Holds;
      if dataBlock == [] { return; }
      FileGrows(file, done, offset, dataBlock);
      pendingHandle := offset;
      file := file[offset := dataBlock];
      done := Blocks();
      pendingIndexEntry := true;
      offset := offset + sizeOf(dataBlock) + 5;
      dataBlock := [];
      if filter != null {
        ghost var groups := filter.All();
        GroupCount(filter);
        filter.StartBlock(offset);
        AllGroupedKept(groups, filter.All(), done);
      }
    }

    /** Closes the table; it then stores the rows added. */
    method Finish(ghost p: Policy) returns (t: Table, ghost blocks: seq<DataBlock>, ghost groups: seq<seq<Bytes>>)
      requires Valid() && (filter != null ==> p == filter.policy)
      modifies this, filter
      ensures Flat(blocks) == added == old(added)
      ensures t.filter.Some? <==> filter != null
      ensures filter == null || |filter.result| < Coding.WORD ==> TableOf(t, p, blocks, groups)
    {
      hide Indexed, Flat, AllGrouped, BlockOf, AllFiltered, Layout, Flattened;
      Flush();
      var stored := None;
      groups := [];
      if filter != null {
        ghost var all := filter.All();
        var contents := filter.Finish();
        stored := Some(contents);
        groups := filter.groups;
        GroupedFiltered(all, groups, done);
      }
      FinishIndex();
      blocks := done;
      t := Table(index, file, stored);
    }

    /** Emits the index entry of the last block. */
    method FinishIndex()
      requires Shape() && Indexed(index, done) && Flat(done) == added && dataBlock == []
      modifies this`index, this`pendingIndexEntry
      ensures Indexed(index, done) && |index| == |done|
    {
      hide Indexed, Flat, Holds;
      if pendingIndexEntry {
        LastRow(index, done);
        var sep := InternalSuccessor(lastKey);
        IndexedLast(index, done, sep);
        index := index + [IndexEntry(sep, pendingHandle)];
        pendingIndexEntry := false;
      }
    }
  }

  lemma FileGrows(file: map<nat, seq<Row>>, done: seq<DataBlock>, offset: nat, rows: seq<Row>)
    requires forall i :: 0 <= i < |done| ==> done[i].offset < offset && Holds(file, done[i])
    ensures forall i :: 0 <= i < |done| ==> Holds(file[offset := rows], done[i])
    ensures Holds(file[offset := rows], DataBlock(offset, rows))
  {
  }

  lemma GroupCount(filter: FilterBlockBuilder)
    requires filter.Valid()
    ensures |filter.filterOffsets| == |filter.groups|
  {
  }

  lemma LastRow(index: seq<IndexEntry>, blocks: seq<DataBlock>)
    requires Indexed(index, blocks)
    ensures blocks != [] ==>
              && blocks[|blocks| - 1].rows != [] && Flat(blocks) != []
              && Last(Flat(blocks)) == Last(blocks[|blocks| - 1].rows)
  {
    hide Flat, Ordered, Closes, Opens;
    if blocks != [] {
      var n := |blocks| - 1;
      assert blocks == blocks[..n] + [blocks[n]];
      FlatLast(blocks[..n], blocks[n]);
      assert Last(Flat(blocks[..n]) + blocks[n].rows) == Last(blocks[n].rows);
    }
  }

  lemma OneRow(row: Row)
    ensures Ordered([row]) && Last([row]) == row.key
  {
  }

  lemma IndexedNewBlock(index: seq<IndexEntry>, blocks: seq<DataBlock>, sep: Key, row: Row, offset: nat)
    requires Indexed(index, blocks) && |index| + 1 == |blocks|
    requires var last := Last(blocks[|index|].rows);
               && (sep == last || (Less(last.user, sep.user) && Less(sep.user, row.key.user))) && KeyLess(sep, row.key)
    ensures Indexed(index + [IndexEntry(sep, blocks[|index|].offset)], blocks + [DataBlock(offset, [row])])
  {
  }

  /** A row joins the block being filled, or starts the first one. */
  lemma IndexedMore(index: seq<IndexEntry>, done: seq<DataBlock>, offset: nat, rows: seq<Row>, row: Row)
    requires rows == [] ==> done == [] && index == []
    requires rows != [] ==>
               && Indexed(index, done + [DataBlock(offset, rows)]) && |index| == |done|
               && KeyLess(Last(rows), row.key)
    ensures Indexed(index, done + [DataBlock(offset, rows + [row])])
  {
    hide KeyLess;
    var blocks, all := done + [DataBlock(offset, rows)], done + [DataBlock(offset, rows + [row])];
    var n := |done|;
    if rows == [] {
      OneRow(row);
    } else {
      assert Ordered(blocks[n].rows);
      OrderedMore(rows, row);
      assert forall i :: 0 <= i < n ==> all[i] == blocks[i];
      forall i, j | 0 <= i < |index| && j == i + 1 < |all| ensures Opens(index[i].sep, all[i].rows, all[j].rows) {}
    }
  }

  lemma OrderedMore(rows: seq<Row>, row: Row)
    requires rows != [] && Ordered(rows) && KeyLess(Last(rows), row.key)
    ensures Ordered(rows + [row])
  {
    hide KeyLess;
    forall i | 0 <= i < |rows| ensures KeyLess(rows[i].key, row.key) {
      if i < |rows| - 1 { KeyLessTransitive(rows[i].key, Last(rows), row.key); }
    }
  }

  lemma IndexedLast(index: seq<IndexEntry>, blocks: seq<DataBlock>, sep: Key)
    requires Indexed(index, blocks) && |index| + 1 == |blocks|
    requires var last := Last(blocks[|index|].rows); sep == last || Less(last.user, sep.user)
    ensures Indexed(index + [IndexEntry(sep, blocks[|index|].offset)], blocks)
  {
  }

  lemma FlatMore(done: seq<DataBlock>, offset: nat, rows: seq<Row>, row: Row)
    ensures Flat(done + [DataBlock(offset, rows + [row])]) == Flat(done + [DataBlock(offset, rows)]) + [row]
    ensures Flat(done + [DataBlock(offset, [])]) == Flat(done)
  {
    FlatLast(done, DataBlock(offset, rows + [row]));
    FlatLast(done, DataBlock(offset, rows));
    FlatLast(done, DataBlock(offset, []));
  }

  /** A key goes to the group of the block its row goes to. */
  lemma GroupedMore(groups: seq<seq<Bytes>>, more: seq<seq<Bytes>>, done: seq<DataBlock>, offset: nat, rows: seq<Row>,
                    row: Row)
    requires AllGrouped(groups, if rows == [] then done else done + [DataBlock(offset, rows)])
    requires |groups| == offset / BASE + 1 == |more|
    requires more == groups[..|groups| - 1] + [groups[|groups| - 1] + [row.key.user]]
    ensures AllGrouped(more, done + [DataBlock(offset, rows + [row])])
  {
  }

  lemma GroupedFiltered(all: seq<seq<Bytes>>, groups: seq<seq<Bytes>>, blocks: seq<DataBlock>)
    requires AllGrouped(all, blocks) && groups <= all
    ensures AllFiltered(groups, blocks)
  {
  }
}
