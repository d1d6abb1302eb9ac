/**
 * Lookup in a table over the bytes of its index and data blocks
 * (Table::InternalGet in table/table.cc, BlockHandle in table/format.cc,
 * ParseInternalKey in db/dbformat.h).
 */
module TableBytes {
  import opened DbFormat
  import opened Coding
  import opened Bytewise
  import opened Table
  import Block
  import FilterBlock

  // ---- Internal keys as bytes ----

  predicate KeyOk(k: Key) {
    k.sequence <= MAX_SEQUENCE
  }

  /** AppendInternalKey: the user key, then the packed sequence and type. */
  function KeyBytes(k: Key): (b: Bytes)
    ensures |b| == |k.user| + 8
  {
    k.user + Fixed64(Pack(k.sequence, k.kind))
  }

  /** ParseInternalKey. */
  function ParseKey(b: Bytes): Option<Key> {
    if |b| < 8 then None
    else
      var trailer := DecodeFixed64(b[|b| - 8..]);
      if trailer % 256 > 1 then None
      else Some(Key(b[..|b| - 8], trailer / 256, if trailer % 256 == 1 then Value else Deletion))
  }

  lemma KeyRoundTrip(k: Key)
    requires KeyOk(k)
    ensures ParseKey(KeyBytes(k)) == Some(k)
    ensures var b := KeyBytes(k); b[..|b| - 8] == k.user && DecodeFixed64(b[|b| - 8..]) == Pack(k.sequence, k.kind)
  {
    hide Fixed64, DecodeFixed64;
    var b := KeyBytes(k);
    assert b[..|b| - 8] == k.user && b[|b| - 8..] == Fixed64(Pack(k.sequence, k.kind));
    Fixed64RoundTrip(Pack(k.sequence, k.kind));
  }

  lemma TrailerRange(b: Bytes)
    requires |b| == 8
    ensures DecodeFixed64(b) < TRAILERS
  {
  }

  /** The place of an encoded internal key in the order of the internal comparator. */
  function InternalRank(b: Bytes): real {
    if |b| < 8 then -1.0
    else
      TrailerRange(b[|b| - 8..]);
      KeyRank(b[..|b| - 8], DecodeFixed64(b[|b| - 8..]))
  }

  const RANK: Block.Ranking := (b: Bytes) => InternalRank(b)

  /** Encoded keys have the order of the keys. */
  lemma RankOrders(a: Key, b: Key)
    requires KeyOk(a) && KeyOk(b)
    ensures KeyLess(a, b) <==> RANK(KeyBytes(a)) < RANK(KeyBytes(b))
  {
    hide KeyRank, DecodeFixed64, KeyBytes;
    KeyRoundTrip(a);
    KeyRoundTrip(b);
    KeyRankEmbeds(a.user, Pack(a.sequence, a.kind), b.user, Pack(b.sequence, b.kind));
  }

  // ---- Blocks ----

  function RowBytes(row: Row): Block.Row {
    Block.Row(KeyBytes(row.key), row.value)
  }

  function RowsBytes(rows: seq<Row>): (r: seq<Block.Row>)
    ensures |r| == |rows| && forall i :: 0 <= i < |rows| ==> r[i] == RowBytes(rows[i])
  {
    seq(|rows|, i requires 0 <= i < |rows| => RowBytes(rows[i]))
  }

  ghost predicate AllKeysOk(rows: seq<Row>) {
    forall i :: 0 <= i < |rows| ==> KeyOk(rows[i].key)
  }

  lemma OrderedIncreases(rows: seq<Row>)
    requires Ordered(rows) && AllKeysOk(rows)
    ensures Block.Increasing(RANK, RowsBytes(rows))
  {
    hide KeyLess, KeyBytes, KeyOk;
    forall i, j | 0 <= i < j < |rows| ensures RANK(KeyBytes(rows[i].key)) < RANK(KeyBytes(rows[j].key)) {
      RankOrders(rows[i].key, rows[j].key);
    }
  }

  /** Block::Iter::Seek on the bytes of a block: the first row at or after the target. */
  method SeekBlock(contents: Bytes, target: Bytes, ghost rows: seq<Block.Row>)
    returns (r: Option<Block.Row>, ghost at: nat)
    requires Block.IsBlock(contents, rows) && |contents| < WORD && Block.Increasing(RANK, rows)
    ensures at <= |rows| && r == (if at < |rows| then Some(rows[at]) else None)
    ensures forall i :: 0 <= i < at ==> RANK(rows[i].key) < RANK(target)
    ensures at < |rows| ==> RANK(rows[at].key) >= RANK(target)
  {
    hide Block.Increasing, Block.Finished, Block.Laid, InternalRank;
    ghost var size: nat, plan :| Block.BlockOf(contents, size, rows, plan);
    var iter := new Block.Iter(RANK, contents, size, rows, plan);
    iter.Seek(target);
    iter.ShowsRow();
    at := iter.at;
    r := if iter.IsValid() then Some(Block.Row(iter.key, iter.value)) else None;
  }

  /** The row that a seek finds is the first one at or after the key. */
  lemma {:induction false} FirstRowIs(rows: seq<Row>, k: Key, at: nat)
    requires at <= |rows| && forall i :: 0 <= i < at ==> KeyLess(rows[i].key, k)
    requires at < |rows| ==> !KeyLess(rows[at].key, k)
    ensures FirstRow(rows, k) == if at < |rows| then Some(rows[at]) else None
  {
    hide KeyLess;
    if at == 0 {
    } else {
      FirstRowIs(rows[1..], k, at - 1);
    }
  }

  // ---- Index ----

  /** BlockHandle::EncodeTo. */
  function HandleBytes(offset: nat, size: nat): Bytes {
    Varint(offset) + Varint(size)
  }

  /** BlockHandle::DecodeFrom. */
  method DecodeHandle(b: Bytes, ghost offset: nat, ghost size: nat) returns (ok: bool, o: nat, n: nat)
    ensures offset < WORD64 && size < WORD64 && b == HandleBytes(offset, size) ==> ok && o == offset && n == size
  {
    hide Varint, ParseVarint, Limit;
    LimitsOfWidths();
    ok, o, n := false, 0, 0;
    if offset < WORD64 && size < WORD64 && b == HandleBytes(offset, size) {
      assert b[..|Varint(offset)|] == Varint(offset) && b[|Varint(offset)|..|b|] == Varint(size);
      VarintRoundTrip(offset, b, 0, VARINT64);
      VarintRoundTrip(size, b, |Varint(offset)|, VARINT64);
    }
    var first := GetVarint(b, 0, VARINT64);
    if first.Some? {
      var second := GetVarint(b, first.value.next, VARINT64);
      if second.Some? {
        ok, o, n := true, first.value.value, second.value.value;
      }
    }
  }

  /** A stored table: index block, data blocks by offset, filter block. */
  datatype Stored = Stored(index: Bytes, file: map<nat, Bytes>, filter: Option<Bytes>)

  function IndexRows(index: seq<IndexEntry>, file: map<nat, Bytes>): (r: seq<Block.Row>)
    requires forall i :: 0 <= i < |index| ==> index[i].handle in file
    ensures |r| == |index|
    ensures forall i :: 0 <= i < |index| ==>
              r[i] == Block.Row(KeyBytes(index[i].sep), HandleBytes(index[i].handle, |file[index[i].handle]|))
  {
    seq(|index|, i requires 0 <= i < |index| =>
      Block.Row(KeyBytes(index[i].sep), HandleBytes(index[i].handle, |file[index[i].handle]|)))
  }

  ghost predicate BlockStored(file: map<nat, Bytes>, block: DataBlock) {
    && block.offset < WORD64 && block.offset in file && |file[block.offset]| < WORD
    && AllKeysOk(block.rows) && Block.IsBlock(file[block.offset], RowsBytes(block.rows))
  }

  /** The bytes are those of the index and the blocks, and of the filter of `groups`. */
  ghost predicate StoredTable(t: Stored, index: seq<IndexEntry>, p: FilterBlock.Policy, blocks: seq<DataBlock>,
                              groups: seq<seq<Bytes>>) {
    && Indexed(index, blocks) && |index| == |blocks| && |t.index| < WORD
    && (forall i :: 0 <= i < |blocks| ==> BlockStored(t.file, blocks[i]))
    && (forall i :: 0 <= i < |index| ==> index[i].handle in t.file && KeyOk(index[i].sep))
    && Block.IsBlock(t.index, IndexRows(index, t.file))
    && (t.filter.Some? ==> FilterBlock.BlockOf(p, t.filter.value, groups) && AllFiltered(groups, blocks))
  }

  lemma {:induction false} IndexOrdered(index: seq<IndexEntry>, blocks: seq<DataBlock>, i: nat, j: nat)
    requires Indexed(index, blocks) && i < j < |index|
    ensures KeyLess(index[i].sep, index[j].sep)
  {
    var first, last := blocks[j].rows[0].key, Last(blocks[j].rows);
    assert Closes(index[j].sep, blocks[j].rows);
    assert KeyAtMost(first, index[j].sep) by {
      if |blocks[j].rows| > 1 && last != index[j].sep { KeyLessTransitive(first, last, index[j].sep); }
    }
    assert Opens(index[j - 1].sep, blocks[j - 1].rows, blocks[j].rows);
    if first != index[j].sep { KeyLessTransitive(index[j - 1].sep, first, index[j].sep); }
    if i == j - 1 {
    } else {
      IndexOrdered(index, blocks, i, j - 1);
      KeyLessTransitive(index[i].sep, index[j - 1].sep, index[j].sep);
    }
  }

  lemma IndexIncreases(index: seq<IndexEntry>, blocks: seq<DataBlock>, file: map<nat, Bytes>)
    requires Indexed(index, blocks)
    requires forall i :: 0 <= i < |index| ==> index[i].handle in file && KeyOk(index[i].sep)
    ensures Block.Increasing(RANK, IndexRows(index, file))
  {
    hide KeyLess, KeyBytes, KeyOk, Indexed;
    forall i, j | 0 <= i < j < |index| ensures RANK(KeyBytes(index[i].sep)) < RANK(KeyBytes(index[j].sep)) {
      IndexOrdered(index, blocks, i, j);
      RankOrders(index[i].sep, index[j].sep);
    }
  }

  /** The index entry found over the bytes is the first at or after the key. */
  method SeekIndex(t: Stored, k: Key, ghost index: seq<IndexEntry>, ghost blocks: seq<DataBlock>)
    returns (handle: Option<Bytes>, ghost at: nat)
    requires Indexed(index, blocks) && |t.index| < WORD && KeyOk(k)
    requires forall i :: 0 <= i < |index| ==> index[i].handle in t.file && KeyOk(index[i].sep)
    requires Block.IsBlock(t.index, IndexRows(index, t.file))
    ensures at == FirstIndex(index, k)
    ensures handle == if at < |index| then Some(HandleBytes(index[at].handle, |t.file[index[at].handle]|)) else None
  {
    hide KeyLess, KeyBytes, KeyOk, Indexed, FirstIndex, HandleBytes, Block.IsBlock;
    IndexIncreases(index, blocks, t.file);
    var entry;
    entry, at := SeekBlock(t.index, KeyBytes(k), IndexRows(index, t.file));
    forall i | 0 <= i < |index| ensures KeyLess(index[i].sep, k) <==> RANK(KeyBytes(index[i].sep)) < RANK(KeyBytes(k)) {
      RankOrders(index[i].sep, k);
    }
    handle := if entry.Some? then Some(entry.value.value) else None;
  }

  /** The row found over the bytes of a data block is the first at or after the key. */
  method SeekData(contents: Bytes, k: Key, ghost rows: seq<Row>) returns (row: Option<Row>)
    requires Ordered(rows) && AllKeysOk(rows) && KeyOk(k)
    requires |contents| < WORD && Block.IsBlock(contents, RowsBytes(rows))
    ensures row == FirstRow(rows, k)
  {
    hide KeyLess, KeyBytes, FirstRow, Block.IsBlock, ParseKey, Ordered;
    OrderedIncreases(rows);
    var found;
    ghost var at;
    found, at := SeekBlock(contents, KeyBytes(k), RowsBytes(rows));
    forall i | 0 <= i < |rows| ensures KeyLess(rows[i].key, k) <==> RANK(KeyBytes(rows[i].key)) < RANK(KeyBytes(k)) {
      RankOrders(rows[i].key, k);
    }
    FirstRowIs(rows, k, at);
    row := None;
    if found.Some? {
      KeyRoundTrip(rows[at].key);
      var key := ParseKey(found.value.key);
      row := if key.Some? then Some(Row(key.value, found.value.value)) else None;
    }
  }

  /**
   * InternalGet over the bytes of a stored table: index seek, handle, filter,
   * block seek.  A user-key lookup comes out as a scan of the whole table.
   */
  method GetFromBytes(t: Stored, p: FilterBlock.Policy, k: Key, ghost index: seq<IndexEntry>,
                      ghost blocks: seq<DataBlock>, ghost groups: seq<seq<Bytes>>)
    returns (ok: bool, row: Option<Row>)
    requires StoredTable(t, index, p, blocks, groups) && KeyOk(k)
    ensures ok && Outcome(row, k.user) == Outcome(FirstRow(Flat(blocks), k), k.user)
  {
    hide FirstRow, FirstIndex, Indexed, FilterBlock.BlockOf, AllFiltered, Block.IsBlock, KeyLess, HandleBytes, Ordered;
    IndexedLookup(index, blocks, k);
    ghost var at;
    var handle;
    handle, at := SeekIndex(t, k, index, blocks);
    ok, row := true, None;
    if handle.Some? {
      StoredAt(t, index, p, blocks, groups, at);
      var good, offset, size := DecodeHandle(handle.value, blocks[at].offset, |t.file[blocks[at].offset]|);
      var may := true;
      if t.filter.Some? && good {
        may := FilterBlock.KeyMayMatch(p, t.filter.value, offset, k.user, groups);
        if !may { FilteredOut(groups, blocks, at, k); }
      }
      if may {
        ok := good && offset in t.file;
        if ok {
          row := SeekData(t.file[offset], k, blocks[at].rows);
        }
      }
    }
  }

  lemma StoredAt(t: Stored, index: seq<IndexEntry>, p: FilterBlock.Policy, blocks: seq<DataBlock>,
                 groups: seq<seq<Bytes>>, i: nat)
    requires StoredTable(t, index, p, blocks, groups) && i < |index|
    ensures index[i].handle == blocks[i].offset && Ordered(blocks[i].rows) && BlockStored(t.file, blocks[i])
  {
  }

  // ---- Writing the bytes ----

  ghost predicate OffsetsDiffer(blocks: seq<DataBlock>) {
    forall i, j :: 0 <= i < j < |blocks| ==> blocks[i].offset != blocks[j].offset
  }

  /** The bytes of all blocks fit 32-bit sizes. */
  predicate Fits(t: Stored) {
    |t.index| < WORD && forall o :: o in t.file ==> |t.file[o]| < WORD
  }

  /** The data blocks through the block builder. */
  method StoreBlocks(interval: nat, blocks: seq<DataBlock>) returns (file: map<nat, Bytes>)
    requires interval >= 1 && OffsetsDiffer(blocks)
    ensures forall i :: 0 <= i < |blocks| ==>
              blocks[i].offset in file && Block.IsBlock(file[blocks[i].offset], RowsBytes(blocks[i].rows))
  {
    hide Block.IsBlock, RowsBytes;
    file := map[];
    for n := 0 to |blocks|
      invariant forall i :: 0 <= i < n ==>
                  blocks[i].offset in file && Block.IsBlock(file[blocks[i].offset], RowsBytes(blocks[i].rows))
    {
      var contents := Block.Build(interval, RowsBytes(blocks[n].rows));
      file := file[blocks[n].offset := contents];
    }
  }

  /**
   * The table's blocks and index written as bytes, and a lookup in them: for any
   * table below 4 GiB a block, the outcome of a scan of all rows.
   */
  method StoreThenGet(interval: nat, index: seq<IndexEntry>, blocks: seq<DataBlock>, filter: Option<Bytes>,
                      p: FilterBlock.Policy, k: Key, ghost groups: seq<seq<Bytes>>)
    returns (t: Stored, ok: bool, row: Option<Row>)
    requires interval >= 1 && Indexed(index, blocks) && |index| == |blocks| && OffsetsDiffer(blocks) && KeyOk(k)
    requires forall i :: 0 <= i < |blocks| ==>
               blocks[i].offset < WORD64 && AllKeysOk(blocks[i].rows) && KeyOk(index[i].sep)
    requires filter.Some? ==> FilterBlock.BlockOf(p, filter.value, groups) && AllFiltered(groups, blocks)
    ensures Fits(t) ==> StoredTable(t, index, p, blocks, groups)
    ensures Fits(t) ==> ok && Outcome(row, k.user) == Outcome(FirstRow(Flat(blocks), k), k.user)
  {
    hide Block.IsBlock, FilterBlock.BlockOf, AllFiltered, FirstRow, Flat, KeyLess, RowsBytes, HandleBytes, KeyBytes,
        Ordered,
         Closes, Opens;
    var file := StoreBlocks(interval, blocks);
    var contents := Block.Build(interval, IndexRows(index, file));
    t := Stored(contents, file, filter);
    ok, row := false, None;
    if Fits(t) {
      ok, row := GetFromBytes(t, p, k, index, blocks, groups);
    }
  }
}
