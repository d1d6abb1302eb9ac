/**
 * The bytes of the stored formats spelled out, apart from the functions that
 * write and read them: little-endian numbers, varints, the log record header,
 * write batches, version edits, block entries, filter blocks, internal keys and
 * block handles (util/coding.cc, util/crc32c.h, db/log_format.h,
 * db/write_batch.cc, db/version_edit.cc, table/format.cc, db/dbformat.h).
 */
module Formats {
  import opened DbFormat
  import opened Coding
  import Log
  import WriteBatch
  import GroupCommit
  import Recovery
  import VersionEdit
  import Block
  import FilterBlock
  import Bloom
  import Bytewise
  import TableBytes

  // ---- Checksums ----

  /** Masking rotates right by 15 bits and adds a constant. */
  lemma MaskFormat(crc: nat)
    requires crc < WORD
    ensures Mask(crc) == (crc / 0x8000 + crc * 0x2_0000 % 0x1_0000_0000 + 0xa282_ead8) % 0x1_0000_0000
  {
    var hi, lo := crc / 0x8000, crc % 0x8000;
    assert crc * 0x2_0000 == hi * 0x1_0000_0000 + lo * 0x2_0000;
  }

  /** CRC32C of the one byte "a". */
  lemma CrcFormat()
    ensures CrcValue([0x61]) == 0xc1d0_4330
  {
    assert [0x61 as byte][..0] == [];
    assert CrcFold(0xffff_ffff, []) == 0xffff_ffff;
    assert CrcFold(0xffff_ffff, [0x61]) == CrcByte(0xffff_ffff, 0x61);
  }

  // ---- Log records ----

  /** Checksum in four bytes, length in two, type in one, then the payload. */
  lemma LogHeaderFormat(crc: Log.Checksum, t: byte, payload: Bytes)
    requires |payload| < 65536
    ensures var b := Log.Physical(crc, t, payload);
              && |b| == 7 + |payload| && LittleEndian(b[..4]) == Mask(crc([t] + payload))
              && LittleEndian(b[4..6]) == |payload| && b[6] == t && b[7..] == payload
  {
    hide Fixed32, Mask;
    var b, n := Log.Physical(crc, t, payload), |payload|;
    Fixed32Format(Mask(crc([t] + payload)));
    assert b[..4] == Fixed32(Mask(crc([t] + payload)));
    assert b[4..6] == [n % 256, n / 256];
    OneByte(b[4..6]);
    OneByte([n / 256]);
    assert b[4..6][1..] == [n / 256] && [n / 256][1..] == [];
  }

  /** Full, first, middle and last fragments are 1 to 4. */
  lemma LogTypeFormat()
    ensures Log.TypeOf(true, true) == 1 && Log.TypeOf(true, false) == 2
    ensures Log.TypeOf(false, false) == 3 && Log.TypeOf(false, true) == 4
  {
  }

  /** A fragment ends within its block of 32768 bytes, and at the end of it unless it is the last. */
  lemma LogBlockFormat(p: nat, left: Bytes)
    requires p % 32768 + 7 <= 32768
    ensures Log.Leftover(p) >= 7
    ensures var end := p % 32768 + 7 + Log.Fragment(p, left);
              end <= 32768 && (Log.Fragment(p, left) < |left| ==> end == 32768)
  {
  }

  /** Where fewer than 7 bytes of a block are left, they are zero. */
  lemma LogTrailerFormat(crc: Log.Checksum, p: nat, left: Bytes, begin: bool)
    requires p % 32768 + 7 > 32768
    ensures var n, b := 32768 - p % 32768, Log.Emit(crc, p, left, begin);
              n < |b| && (forall i :: 0 <= i < n ==> b[i] == 0) && b[n..] == Log.Emit(crc, p + n, left, begin)
  {
    hide Log.Emit;
    Log.EmitTrailer(crc, p, left, begin);
  }

  // ---- Write batches ----

  /** Sequence number in eight bytes, count in four, then the operations. */
  lemma BatchFormat(r: GroupCommit.Record)
    requires Recovery.Storable(r)
    ensures var b := Recovery.BatchBytes(r);
              && |b| >= 12 && LittleEndian(b[..8]) == r.first && LittleEndian(b[8..12]) == |r.ops|
              && b[12..] == WriteBatch.OpsBytes(r.ops)
  {
    hide Fixed32, Fixed64, WriteBatch.OpsBytes;
    Recovery.BatchParts(r);
    Fixed64Format(r.first);
    Fixed32Format(|r.ops|);
  }

  function Sized(b: Bytes): Bytes {
    Varint(|b|) + b
  }

  /** A put is 1, key and value; a deletion 0 and the key; each with its length before it. */
  lemma OpFormat(key: Bytes, value: Bytes)
    ensures WriteBatch.OpBytes(WriteBatch.Op(key, Some(value))) == [1] + Sized(key) + Sized(value)
    ensures WriteBatch.OpBytes(WriteBatch.Op(key, None)) == [0] + Sized(key)
  {
    hide Varint;
  }

  // ---- Version edits ----

  /** Each field has its tag and its parts in order. */
  lemma EditFormat(n: nat, level: nat, key: Bytes)
    ensures VersionEdit.ChunkBytes(VersionEdit.Comparator(key)) == [1] + Sized(key)
    ensures VersionEdit.ChunkBytes(VersionEdit.LogNumber(n)) == [2] + Varint(n)
    ensures VersionEdit.ChunkBytes(VersionEdit.NextFile(n)) == [3] + Varint(n)
    ensures VersionEdit.ChunkBytes(VersionEdit.LastSequence(n)) == [4] + Varint(n)
    ensures VersionEdit.ChunkBytes(VersionEdit.Pointer(level, key)) == [5] + Varint(level) + Sized(key)
    ensures VersionEdit.ChunkBytes(VersionEdit.Deleted(level, n)) == [6] + Varint(level) + Varint(n)
    ensures VersionEdit.ChunkBytes(VersionEdit.PrevLogNumber(n)) == [9] + Varint(n)
  {
    hide Varint;
    SmallTags();
  }

  /** A new file: its level, number, size, and smallest and largest keys. */
  lemma NewFileFormat(level: nat, f: VersionEdit.FileEntry)
    ensures VersionEdit.ChunkBytes(VersionEdit.NewFile(level, f))
            == [7] + (Varint(level) + (Varint(f.number) + (Varint(f.size) + (Sized(f.smallest) + Sized(f.largest)))))
  {
    hide Varint;
    SmallTags();
  }

  lemma SmallTags()
    ensures Varint(1) == [1] && Varint(2) == [2] && Varint(3) == [3] && Varint(4) == [4]
    ensures Varint(5) == [5] && Varint(6) == [6] && Varint(7) == [7] && Varint(9) == [9]
  {
  }

  // ---- Tables ----

  /** Shared length, the rest's length, the value's length, the rest of the key, the value. */
  lemma EntryFormat(shared: nat, row: Block.Row) returns (a: Bytes, b: Bytes)
    requires shared <= |row.key| && |row.key| < WORD && |row.value| < WORD
    ensures ReadsNumber(Block.EntryBytes(shared, row), VARINT32, shared, a)
    ensures ReadsNumber(a, VARINT32, |row.key| - shared, b)
    ensures ReadsNumber(b, VARINT32, |row.value|, row.key[shared..] + row.value)
  {
    hide Varint, ReadsNumber, Limit;
    LimitsOfWidths();
    var n, data := |row.key| - shared, row.key[shared..] + row.value;
    b := Varint(|row.value|) + data;
    a := Varint(n) + b;
    NumberFirst(|row.value|, VARINT32, data);
    NumberFirst(n, VARINT32, b);
    NumberFirst(shared, VARINT32, a);
    assert Block.EntryBytes(shared, row) == Varint(shared) + a;
  }

  lemma NumberFirst(n: nat, w: Width, rest: Bytes)
    requires ValidWidth(w) && n < Limit(w)
    ensures ReadsNumber(Varint(n) + rest, w, n, rest)
  {
    hide Varint, Limit, ParseVarint;
    VarintRoundTrip(n, Varint(n) + rest, 0, w);
  }

  /** The filters, their offsets in four bytes each, the length of the filters, and 11. */
  lemma FilterFormat(data: Bytes, bounds: seq<nat>, i: nat)
    requires Small(bounds) && bounds != [] && bounds[|bounds| - 1] == |data| && i < |bounds|
    ensures var b := FilterBlock.Stored(data, bounds);
              && |b| == |data| + 4 * |bounds| + 1 && b[..|data|] == data && b[|b| - 1] == 11
              && LittleEndian(b[|data| + 4 * i..|data| + 4 * i + 4]) == bounds[i]
  {
    hide Fixed32;
    var b := FilterBlock.Stored(data, bounds);
    WordAt(bounds, i);
    Fixed32Format(bounds[i]);
    assert b[|data| + 4 * i..|data| + 4 * i + 4] == Words(bounds)[4 * i..4 * i + 4];
  }

  /** The user key, then eight bytes: the sequence number above one byte of type, 1 for a value, 0 for a deletion. */
  lemma InternalKeyFormat(k: Bytewise.Key)
    requires k.sequence <= MAX_SEQUENCE
    ensures var b, n := TableBytes.KeyBytes(k), |k.user|;
              && |b| == n + 8 && b[..n] == k.user
              && LittleEndian(b[n..]) == 256 * k.sequence + if k.kind.Value? then 1 else 0
  {
    hide Fixed64;
    Fixed64Format(Pack(k.sequence, k.kind));
    var b, n := TableBytes.KeyBytes(k), |k.user|;
    assert b[n..] == Fixed64(Pack(k.sequence, k.kind));
  }

  /** Offset, then size. */
  lemma HandleFormat(offset: nat, size: nat) returns (a: Bytes)
    requires offset < WORD64 && size < WORD64
    ensures ReadsNumber(TableBytes.HandleBytes(offset, size), VARINT64, offset, a)
    ensures ReadsNumber(a, VARINT64, size, [])
  {
    hide Varint, ReadsNumber, Limit;
    LimitsOfWidths();
    a := Varint(size);
    NumberFirst(size, VARINT64, []);
    assert a + [] == a;
    NumberFirst(offset, VARINT64, a);
  }

  // ---- Bloom filters ----

  /** Probes start at the hash and step by the hash rotated right by 17 bits, in 32-bit arithmetic. */
  lemma ProbeFormat(h: Word, j: nat)
    ensures Bloom.Probe(h, 0) == h && Bloom.Probe(h, j + 1) == (Bloom.Probe(h, j) + Bloom.Delta(h)) % 0x1_0000_0000
    ensures Bloom.Delta(h) % 0x8000 == h / 0x2_0000 && Bloom.Delta(h) / 0x8000 == h % 0x2_0000
  {
    RotationFormat(h);
    hide Bloom.Delta;
    assert h + 0 * Bloom.Delta(h) == h;
    Bloom.ProbeStep(h, j);
  }

  lemma RotationFormat(h: Word)
    ensures Bloom.Delta(h) % 0x8000 == h / 0x2_0000 && Bloom.Delta(h) / 0x8000 == h % 0x2_0000
  {
    assert h / 0x2_0000 < 0x8000;
  }

  /** The bit array is the least number of bytes that has the bits asked for, and at least 64. */
  lemma FilterSizeFormat(n: nat, bitsPerKey: nat)
    ensures var bits, size := n * bitsPerKey, Bloom.FilterBytes(n, bitsPerKey);
              && 8 * size >= bits && size >= 8 && (size > 8 ==> 8 * size - 8 < bits)
  {
  }

  // ---- Limits of a group of writers ----

  /** A header of 12 bytes; room for 128 KiB more than a small first batch, 1 MiB for a large one. */
  lemma GroupFormat(w: GroupCommit.Writer, first: nat)
    requires w.ops.Some?
    ensures GroupCommit.ByteSize(w) == 12 + |WriteBatch.OpsBytes(w.ops.value)|
    ensures GroupCommit.MaxSize(first) == if first <= 131072 then first + 131072 else 1048576
  {
  }
}
