/**
 * The record log: fragmentation into 32 KiB blocks (db/log_writer.cc) and
 * reassembly (db/log_reader.cc, initial offset 0, checksums on).
 */
module Log {
  import opened DbFormat
  import opened Coding

  const BLOCK := 32768
  const HEADER := 7

  const FULL: byte := 1
  const FIRST: byte := 2
  const MIDDLE: byte := 3
  const LAST: byte := 4

  function TypeOf(begin: bool, end: bool): (t: byte)
    ensures t != 0 && t <= LAST
  {
    if begin && end then FULL else if begin then FIRST else if end then LAST else MIDDLE
  }

  /** The checksum in use; CRC32C is `Coding.CrcValue`, and any other function would do. */
  type Checksum = Bytes -> Word

  /** Length of a payload in two bytes. */
  function Length16(n: nat): Bytes
    requires n < 65536
  {
    [n % 256, n / 256]
  }

  /** A physical record as EmitPhysicalRecord writes it. */
  function Physical(crc: Checksum, t: byte, payload: Bytes): (r: Bytes)
    requires |payload| < 65536
    ensures |r| == HEADER + |payload|
  {
    Fixed32(Mask(crc([t] + payload))) + Length16(|payload|) + [t] + payload
  }

  /** Bytes left in the block at file position `p`. */
  function Leftover(p: nat): (n: nat)
    ensures 1 <= n <= BLOCK
  {
    BLOCK - p % BLOCK
  }

  /** Length of the fragment written at `p`, which has room for a header. */
  function Fragment(p: nat, left: Bytes): (n: nat)
    requires Leftover(p) >= HEADER
    ensures n <= |left| && n <= Leftover(p) - HEADER && n < 65536
  {
    if |left| < Leftover(p) - HEADER then |left| else Leftover(p) - HEADER
  }

  /** The bytes that writing the rest of a record at file position `p` adds to the file. */
  function Emit(crc: Checksum, p: nat, left: Bytes, begin: bool): (r: Bytes)
    ensures |r| >= HEADER
    decreases |left|, Rank(Leftover(p))
  {
    LeftoverSteps(p, Leftover(p));
    if Leftover(p) < HEADER then
      Zeros(Leftover(p)) + Emit(crc, p + Leftover(p), left, begin)
    else
      var n := Fragment(p, left);
      var first := Physical(crc, TypeOf(begin, n == |left|), left[..n]);
      if n == |left| then first else first + Emit(crc, p + HEADER + n, left[n..], false)
  }

  /** Orders the steps that write no payload: a full block, then a trailer, then a fresh block. */
  function Rank(leftover: nat): nat {
    if leftover == HEADER then 2 else if leftover < HEADER then 1 else 0
  }

  lemma LeftoverSteps(p: nat, n: nat)
    requires n <= Leftover(p)
    ensures Leftover(p + n) == if n < Leftover(p) then Leftover(p) - n else BLOCK
  {
  }

  lemma EmitTrailer(crc: Checksum, p: nat, left: Bytes, begin: bool)
    requires Leftover(p) < HEADER
    ensures Emit(crc, p, left, begin) == Zeros(Leftover(p)) + Emit(crc, p + Leftover(p), left, begin)
  {
  }

  /** What follows the first `n` payload bytes of the rest of a record. */
  function AfterFragment(crc: Checksum, p: nat, left: Bytes, n: nat): Bytes
    requires n <= |left|
  {
    if n == |left| then [] else Emit(crc, p + HEADER + n, left[n..], false)
  }

  lemma EmitFirst(crc: Checksum, p: nat, left: Bytes, begin: bool)
    requires Leftover(p) >= HEADER
    ensures var n := Fragment(p, left);
              Emit(crc, p, left, begin)
                  == Physical(crc, TypeOf(begin, n == |left|), left[..n]) + AfterFragment(crc, p, left, n)
  {
  }

  /** The bytes of a whole list of records from file position `p`. */
  function Written(crc: Checksum, p: nat, records: seq<Bytes>): Bytes
    decreases |records|
  {
    if records == [] then []
    else
      var e := Emit(crc, p, records[0], true);
      e + Written(crc, p + |e|, records[1..])
  }

  // ---- Writer ----

  class Writer {
    const crc: Checksum
    var dest: Bytes
    var blockOffset: nat

    ghost predicate Valid()
      reads this
    {
      blockOffset <= BLOCK && (if blockOffset == BLOCK then Leftover(|dest|) == BLOCK
          else Leftover(|dest|) == BLOCK - blockOffset)
    }

    /** A writer at the end of an existing file. */
    constructor (crc: Checksum, contents: Bytes)
      ensures Valid() && dest == contents && this.crc == crc
    {
      this.crc := crc;
      dest := contents;
      blockOffset := |contents| % BLOCK;
    }

    /** AddRecord: the fragment loop writes exactly the record's layout. */
    method AddRecord(data: Bytes)
      requires Valid()
      modifies this
      ensures Valid() && dest == old(dest) + Emit(crc, |old(dest)|, data, true)
    {
      hide Leftover, Physical, Emit, TypeOf;
      var left, begin, more := data, true, true;
      ghost var goal := dest + Emit(crc, |dest|, data, true);
      while more
        invariant Valid()
        invariant if more then dest + Emit(crc, |dest|, left, begin) == goal else dest == goal
        decreases more, |left|, Rank(Leftover(|dest|))
      {
        if BLOCK - blockOffset < HEADER {
          SwitchBlock(left, begin);
        }
        var avail := BLOCK - blockOffset - HEADER;
        var n := if |left| < avail then |left| else avail;
        assert n == Fragment(|dest|, left);
        LeftoverSteps(|dest|, HEADER + n);
        EmitFirst(crc, |dest|, left, begin);
        EmitPhysicalRecord(TypeOf(begin, n == |left|), left[..n]);
        more := n < |left|;
        left, begin := left[n..], false;
      }
    }

    /** Fills the block trailer with zeros; the layout from the next block on is the same. */
    method SwitchBlock(ghost left: Bytes, ghost begin: bool)
      requires Valid() && BLOCK - blockOffset < HEADER
      modifies this
      ensures Valid() && blockOffset == 0
      ensures dest + Emit(crc, |dest|, left, begin) == old(dest) + Emit(crc, |old(dest)|, left, begin)
      ensures Rank(Leftover(|dest|)) <= old(Rank(Leftover(|dest|)))
    {
      hide Leftover, Physical, Emit;
      var leftover := BLOCK - blockOffset;
      if leftover > 0 {
        LeftoverSteps(|dest|, leftover);
        EmitTrailer(crc, |dest|, left, begin);
        dest := dest + Zeros(leftover);
      }
      blockOffset := 0;
    }

    method EmitPhysicalRecord(t: byte, payload: Bytes)
      requires Valid() && blockOffset < BLOCK && blockOffset + HEADER + |payload| <= BLOCK
      modifies this
      ensures Valid() && blockOffset == old(blockOffset) + HEADER + |payload|
      ensures dest == old(dest) + Physical(crc, t, payload)
    {
      hide Leftover, Mask, Fixed32, Length16;
      LeftoverSteps(|dest|, HEADER + |payload|);
      var header := Fixed32(Mask(crc([t] + payload))) + Length16(|payload|) + [t];
      dest := dest + header + payload;
      blockOffset := blockOffset + HEADER + |payload|;
      assert dest == old(dest) + Physical(crc, t, payload);
    }
  }

  // ---- Reader ----

  /** What remains of the file from `p` is a (possibly cut) copy of `future`. */
  ghost predicate Torn(contents: Bytes, p: nat, future: Bytes) {
    p <= |contents| && contents[p..] <= future
  }

  lemma TornStep(contents: Bytes, p: nat, a: Bytes, b: Bytes)
    requires Torn(contents, p, a + b) && p + |a| <= |contents|
    ensures contents[p..p + |a|] == a && Torn(contents, p + |a|, b)
  {
  }

  lemma TornPrefix(contents: Bytes, p: nat, a: Bytes, b: Bytes, n: nat)
    requires Torn(contents, p, a + b) && n <= |a| && p + n <= |contents|
    ensures contents[p..p + n] == a[..n]
  {
  }

  /** The four header fields of a physical record. */
  function HeaderCrc(h: Bytes): nat
    requires |h| >= HEADER
  {
    Unmask(DecodeFixed32(h[..4]))
  }

  function HeaderLength(h: Bytes): nat
    requires |h| >= HEADER
  {
    (h[4] as int) + 256 * (h[5] as int)
  }

  /** Reading back a header that was written. */
  lemma HeaderRoundTrip(crc: Checksum, t: byte, payload: Bytes)
    requires |payload| < 65536
    ensures var r := Physical(crc, t, payload);
              && HeaderLength(r) == |payload| && r[6] == t && r[HEADER..] == payload && r[6..] == [t] + payload
              && HeaderCrc(r) == crc([t] + payload)
  {
    hide Fixed32, Mask, Unmask, DecodeFixed32;
    var r := Physical(crc, t, payload);
    var c := Mask(crc([t] + payload));
    assert r[..4] == Fixed32(c);
    Fixed32RoundTrip(c);
    MaskRoundTrip(crc([t] + payload));
  }

  lemma HeaderOfPrefix(r: Bytes, s: Bytes)
    requires |r| >= HEADER && |s| >= HEADER && r[..HEADER] == s[..HEADER]
    ensures HeaderLength(r) == HeaderLength(s) && r[6] == s[6] && HeaderCrc(r) == HeaderCrc(s)
  {
  }

  datatype Piece = Eof | Bad | Got(kind: byte, fragment: Bytes)

  // ---- What may be returned from any bytes at all ----

  /** A physical record that ends at `end` and starts at `from` or later, as the writer would have written it. */
  ghost predicate RecordAt(crc: Checksum, contents: Bytes, from: int, end: int, kind: byte, payload: Bytes) {
    && |payload| < 65536 && from <= end - HEADER - |payload| && 0 <= end - HEADER - |payload| && end <= |contents|
    && contents[end - HEADER - |payload|..end] == Physical(crc, kind, payload)
  }

  ghost predicate Sound(crc: Checksum, contents: Bytes, from: int, end: int, r: Piece) {
    r.Got? ==> RecordAt(crc, contents, from, end, r.kind, r.fragment)
  }

  /** A header of zeros in type and length, as of preallocated space, lies between `from` and `to`. */
  ghost predicate ZeroHeader(contents: Bytes, from: int, to: int) {
    exists p :: BlankAt(contents, p) && from <= p && p + HEADER <= to
  }

  predicate BlankAt(contents: Bytes, p: int) {
    0 <= p && p + HEADER <= |contents| && contents[p + 4] == contents[p + 5] == contents[p + 6] == 0
  }

  /** A fragment that is refused is reported, unless it is blank; nothing else is. */
  ghost predicate Reported(contents: Bytes, from: int, to: int, r: Piece, before: int, after: int) {
    if r.Bad? then after == before + 1 || (after == before && ZeroHeader(contents, from, to)) else after == before
  }

  /** Payloads end to end. */
  function Payloads(read: seq<Bytes>): Bytes {
    if read == [] then [] else Payloads(read[..|read| - 1]) + read[|read| - 1]
  }

  lemma PayloadsMore(read: seq<Bytes>, b: Bytes)
    ensures Payloads(read + [b]) == Payloads(read) + b
  {
    assert (read + [b])[..|read|] == read;
  }

  /** Bytes whose header fits the rest of them are a written record. */
  lemma CheckedIsWritten(crc: Checksum, b: Bytes)
    requires |b| >= HEADER && |b| == HEADER + HeaderLength(b) && crc(b[6..]) == HeaderCrc(b)
    ensures |b[HEADER..]| < 65536 && b == Physical(crc, b[6], b[HEADER..])
  {
    hide Mask, Unmask, DecodeFixed32, Fixed32;
    var w := DecodeFixed32(b[..4]);
    WordOfBytes(b[..4]);
    UnmaskRoundTrip(w);
    assert b[6..] == [b[6]] + b[HEADER..];
    var n := |b| - HEADER;
    assert b[4] == n % 256 && b[5] == n / 256;
    assert b == b[..4] + [b[4], b[5]] + [b[6]] + b[HEADER..];
  }

  lemma CheckedPrefix(b: Bytes, n: nat)
    requires HEADER + n <= |b|
    ensures var c := b[..HEADER + n];
              && c[6..] == b[6..HEADER + n] && c[6] == b[6]
              && HeaderLength(c) == HeaderLength(b) && HeaderCrc(c) == HeaderCrc(b)
  {
    HeaderOfPrefix(b[..HEADER + n], b);
  }

  /** A fragment of a record: where it ends, its type and its payload. */
  datatype Part = Part(end: nat, kind: byte, payload: Bytes)

  function Join(ps: seq<Part>): Bytes {
    if ps == [] then [] else Join(ps[..|ps| - 1]) + ps[|ps| - 1].payload
  }

  /** Written physical records one after another between `from` and `to`, the first of type 2, the others of type 3. */
  ghost predicate Chain(crc: Checksum, contents: Bytes, from: int, to: int, ps: seq<Part>) {
    && ps != [] && ps[|ps| - 1].end <= to
    && (forall i :: 0 <= i < |ps| ==> ps[i].kind == if i == 0 then 2 else 3)
    && (forall i :: 0 <= i < |ps| ==> PartAt(crc, contents, from, ps, i))
  }

  ghost predicate PartAt(crc: Checksum, contents: Bytes, from: int, ps: seq<Part>, i: nat)
    requires i < |ps|
  {
    RecordAt(crc, contents, if i == 0 then from else ps[i - 1].end, ps[i].end, ps[i].kind, ps[i].payload)
  }

  /** `data` is what a first fragment and any middle ones hold. */
  ghost predicate Begun(crc: Checksum, contents: Bytes, from: int, to: int, data: Bytes) {
    exists ps :: Chain(crc, contents, from, to, ps) && data == Join(ps)
  }

  /** A record of one fragment of type 1, or of a first, middle ones and a last of type 4. */
  ghost predicate Assembled(crc: Checksum, contents: Bytes, from: int, to: int, record: Bytes) {
    || RecordAt(crc, contents, from, to, 1, record)
    || (exists mid, data, last :: Begun(crc, contents, from, mid, data) && RecordAt(crc, contents, mid, to, 4, last)
                                  && record == data + last)
  }

  lemma StartsChain(crc: Checksum, contents: Bytes, from: int, low: int, to: int, payload: Bytes)
    requires from <= low && RecordAt(crc, contents, low, to, 2, payload)
    ensures Begun(crc, contents, from, to, payload)
  {
    hide Physical;
    var ps := [Part(to, 2, payload)];
    assert Join(ps) == payload;
    assert PartAt(crc, contents, from, ps, 0);
    assert Chain(crc, contents, from, to, ps);
  }

  lemma EndsWhole(crc: Checksum, contents: Bytes, from: int, low: int, to: int, payload: Bytes)
    requires from <= low && RecordAt(crc, contents, low, to, 1, payload)
    ensures Assembled(crc, contents, from, to, payload)
  {
    hide Physical;
  }

  /**
   * What ReadRecord keeps on any bytes, `reports` reports after it started at
   * `from`: a fragmented record is written as read so far, and without a report
   * it is all the payload read.
   */
  ghost predicate Going(crc: Checksum, contents: Bytes, from: int, pos: int, scratch: Bytes, fragmented: bool,
                        read: seq<Bytes>, reports: int) {
    && reports >= 0 && from <= pos && (if fragmented then Begun(crc, contents, from, pos, scratch) else scratch == [])
    && (reports == 0 ==> Payloads(read) == scratch)
  }

  lemma GoingAtFirst(crc: Checksum, contents: Bytes, from: int)
    ensures Going(crc, contents, from, from, [], false, [], 0)
  {
  }

  /** The file ends, or a fragment is refused. */
  lemma GoingPast(crc: Checksum, contents: Bytes, from: int, low: int, pos: int, scratch: Bytes, fragmented: bool,
                  read: seq<Bytes>, reports: int, more: nat)
    requires Going(crc, contents, from, low, scratch, fragmented, read, reports) && low <= pos
    ensures reports == 0 && Payloads(read) != [] ==> Begun(crc, contents, from, pos, Payloads(read))
    ensures fragmented ==> Going(crc, contents, from, pos, [], false, read, reports + 1 + more)
    ensures !fragmented ==> Going(crc, contents, from, pos, [], false, read, reports + more)
  {
    hide RecordAt, Payloads;
    if fragmented {
      assert Begun(crc, contents, from, pos, scratch);
    }
  }

  /** A fragment is read. */
  lemma GoingOn(crc: Checksum, contents: Bytes, from: int, low: int, pos: int, scratch: Bytes, fragmented: bool,
                read: seq<Bytes>, reports: int, kind: byte, fragment: Bytes)
    requires Going(crc, contents, from, low, scratch, fragmented, read, reports) && low <= pos
    requires RecordAt(crc, contents, low, pos, kind, fragment)
    ensures from <= low
    ensures var all, broken := read + [fragment], if fragmented && scratch != [] then 1 else 0;
            if kind == FULL then
              Assembled(crc, contents, from, pos, fragment)
              && (reports + broken == 0 ==> fragment == Payloads(all))
            else if kind == FIRST then Going(crc, contents, from, pos, fragment, true, all, reports + broken)
            else if kind == MIDDLE && fragmented then
              Going(crc, contents, from, pos, scratch + fragment, true, all, reports)
            else if kind == LAST && fragmented then
              Assembled(crc, contents, from, pos, scratch + fragment)
              && (reports == 0 ==> scratch + fragment == Payloads(all))
            else Going(crc, contents, from, pos, [], false, all, reports + 1)
  {
    hide RecordAt, Payloads, Begun, Assembled;
    PayloadsMore(read, fragment);
    if kind == FULL {
      EndsWhole(crc, contents, from, low, pos, fragment);
    } else if kind == FIRST {
      StartsChain(crc, contents, from, low, pos, fragment);
    } else if kind == MIDDLE && fragmented {
      GrowsChain(crc, contents, from, low, pos, scratch, fragment);
    } else if kind == LAST && fragmented {
      EndsChain(crc, contents, from, low, pos, scratch, fragment);
    }
  }

  lemma EndsChain(crc: Checksum, contents: Bytes, from: int, low: int, to: int, data: Bytes, payload: Bytes)
    requires Begun(crc, contents, from, low, data) && RecordAt(crc, contents, low, to, 4, payload)
    ensures Assembled(crc, contents, from, to, data + payload)
  {
    hide Physical, Begun, RecordAt;
  }

  lemma GrowsChain(crc: Checksum, contents: Bytes, from: int, low: int, to: int, data: Bytes, payload: Bytes)
    requires Begun(crc, contents, from, low, data) && RecordAt(crc, contents, low, to, 3, payload)
    ensures Begun(crc, contents, from, to, data + payload)
  {
    hide Physical;
    var ps :| Chain(crc, contents, from, low, ps) && data == Join(ps);
    var more := ps + [Part(to, 3, payload)];
    assert more[..|ps|] == ps;
    assert Join(more) == data + payload;
    forall i | 0 <= i < |more| ensures PartAt(crc, contents, from, more, i) {
      if i < |ps| {
        assert more[i] == ps[i] && PartAt(crc, contents, from, ps, i);
      }
    }
    assert Chain(crc, contents, from, to, more);
  }

  /** A turn of ReadRecord: there is more to read, the record is complete, or the file is at its end. */
  datatype Turn = More | Complete | AtEnd

  /** The record that was written ahead of the reader, what follows it, and where it ends. */
  datatype Next = Nothing | Record(data: Bytes, tail: Bytes, end: nat)

  /**
   * What ReadRecord does with one fragment: it joins the record being read, ends
   * it, or is out of place, which is reported.
   */
  method Absorb(kind: byte, fragment: Bytes, scratch: Bytes, inFragmented: bool)
    returns (done: bool, report: bool, joined: Bytes, more: bool)
    requires !inFragmented ==> scratch == []
    ensures if kind == FULL then done && joined == fragment && report == (inFragmented && scratch != [])
            else if kind == FIRST then !done && joined == fragment && more && report == (inFragmented && scratch != [])
            else if (kind == MIDDLE || kind == LAST) && inFragmented then
              done == (kind == LAST) && joined == scratch + fragment && more && !report
            else !done && joined == [] && !more && report
  {
    done, report, joined, more := false, false, scratch, inFragmented;
    if kind == FULL {
      if inFragmented && scratch != [] {
        report := true;
      }
      done, joined := true, fragment;
    } else if kind == FIRST {
      if inFragmented && scratch != [] {
        report := true;
      }
      joined, more := fragment, true;
    } else if kind == MIDDLE {
      if !inFragmented {
        report := true;
      } else {
        joined := scratch + fragment;
      }
    } else if kind == LAST {
      if !inFragmented {
        report := true;
      } else {
        done, joined := true, scratch + fragment;
      }
    } else {
      report, joined, more := true, [], false;
    }
  }

  class Reader {
    const crc: Checksum
    const contents: Bytes
    var fileOffset: nat      // bytes handed out by the file so far
    var buffer: Bytes
    var eof: bool
    var corruptions: nat     // drops reported
    /** Where the block in the buffer starts. */
    ghost var start: nat

    ghost function Pos(): int
      reads this
    {
      fileOffset - |buffer|
    }

    ghost predicate Valid()
      reads this
    {
      && Leftover(start) == BLOCK
      && start <= Pos() <= fileOffset <= |contents|
      && buffer == contents[Pos()..fileOffset]
      && fileOffset <= start + BLOCK
      && (eof ==> fileOffset == |contents|)
      && (!eof ==> fileOffset == start + BLOCK || (fileOffset == start && buffer == []))
    }

    constructor (crc: Checksum, contents: Bytes)
      ensures Valid() && Pos() == 0 && this.contents == contents && this.crc == crc && corruptions == 0
    {
      this.crc, this.contents := crc, contents;
      fileOffset, buffer, eof, corruptions, start := 0, [], false, 0, 0;
    }

    /** Reads the next block; a short read marks the end of the file. */
    method ReadBlock()
      requires Valid() && !eof && |buffer| < HEADER
      modifies this
      ensures Valid() && Pos() == old(fileOffset) && corruptions == old(corruptions)
      ensures |buffer| >= HEADER || eof
      ensures old(Pos()) <= Pos()
      ensures old(buffer) == [] ==> Pos() == old(Pos())
      ensures old(buffer) != [] ==>
                && Leftover(old(Pos())) == |old(buffer)| < HEADER
                && Pos() == old(Pos()) + |old(buffer)|
    {
      hide Leftover;
      if buffer != [] {
        LeftoverSteps(start, Pos() - start);
      }
      if fileOffset == start + BLOCK { LeftoverSteps(start, BLOCK); }
      start := fileOffset;
      var n := if |contents| - fileOffset < BLOCK then |contents| - fileOffset else BLOCK;
      buffer := contents[fileOffset..fileOffset + n];
      fileOffset := fileOffset + n;
      if n < BLOCK {
        eof := true;
      }
    }

    /** From here on the file is what writing `left` and then `tail` would add, possibly cut. */
    ghost predicate Ahead(left: Bytes, begin: bool, tail: Bytes)
      reads this
      requires Pos() >= 0
    {
      Torn(contents, Pos(), Emit(crc, Pos(), left, begin) + tail)
    }

    /**
     * ReadPhysicalRecord.  Where the writer has `left` of a record to write, it
     * gives the next fragment, or the end of the file if the record is not all
     * there, and reports nothing.
     */
    method ReadPhysicalRecord(ghost left: Bytes, ghost begin: bool, ghost tail: Bytes) returns (r: Piece)
      requires Valid()
      modifies this
      ensures Valid() && Pos() >= old(Pos()) && (!r.Eof? ==>
                Pos() > old(Pos())) && Sound(crc, contents, old(Pos()), Pos(), r)
      ensures Reported(contents, old(Pos()), Pos(), r, old(corruptions), corruptions)
      ensures old(Ahead(left, begin, tail)) ==>
                AsWritten(r, left, begin, tail, old(Pos())) && corruptions == old(corruptions)
    {
      hide Leftover, Physical, HeaderLength, HeaderCrc, Emit, Torn;
      ghost var from := Pos();
      ghost var ahead := Ahead(left, begin, tail);
      ghost var end := from + |Emit(crc, from, left, begin)|;
      while |buffer| < HEADER
        invariant Valid() && corruptions == old(corruptions) && from <= Pos()
        invariant ahead ==> Ahead(left, begin, tail) && Pos() + |Emit(crc, Pos(), left, begin)| == end
        decreases |buffer| < HEADER, !eof
      {
        if eof {
          buffer := [];
          return Eof;
        }
        if ahead { SkipTrailer(left, begin, tail); }
        ReadBlock();
      }
      r := ParsePhysicalRecord(left, begin, tail);
    }

    /** The trailer the reader skips is the one the writer filled. */
    lemma SkipTrailer(left: Bytes, begin: bool, tail: Bytes)
      requires Valid() && !eof && |buffer| < HEADER && Ahead(left, begin, tail)
      ensures Torn(contents, fileOffset, Emit(crc, fileOffset, left, begin) + tail)
      ensures fileOffset + |Emit(crc, fileOffset, left, begin)| == Pos() + |Emit(crc, Pos(), left, begin)|
    {
      hide Leftover, Physical, Emit, Torn;
      if buffer != [] {
        var p := Pos();
        LeftoverSteps(start, p - start);
        EmitTrailer(crc, p, left, begin);
        var z, rest := Zeros(|buffer|), Emit(crc, fileOffset, left, begin);
        assert z + rest + tail == z + (rest + tail);
        TornStep(contents, p, z, rest + tail);
      }
    }

    /** The next fragment as written, with the reader just past it. */
    ghost predicate GotFragment(r: Piece, left: Bytes, begin: bool, tail: Bytes, from: nat)
      requires r.Got?
      reads this
    {
      && from + HEADER + |r.fragment| <= Pos() <= |contents|
      && r.fragment <= left
      && var n := |r.fragment|;
         && r.kind == TypeOf(begin, n == |left|)
         && var rest := AfterFragment(crc, Pos() - HEADER - n, left, n);
            && Torn(contents, Pos(), rest + tail)
            && Pos() + |rest| == from + |Emit(crc, from, left, begin)|
    }

    /** The next fragment, or the end of the file if the record runs past it. */
    ghost predicate AsWritten(r: Piece, left: Bytes, begin: bool, tail: Bytes, from: nat)
      reads this
    {
      match r
      case Eof => |contents| < from + |Emit(crc, from, left, begin)|
      case Bad => false
      case Got(_, _) => GotFragment(r, left, begin, tail, from)
    }

    /** With a header in the buffer: checks length and checksum and takes the fragment. */
    method ParsePhysicalRecord(ghost left: Bytes, ghost begin: bool, ghost tail: Bytes) returns (r: Piece)
      requires Valid() && |buffer| >= HEADER
      modifies this
      ensures Valid() && Pos() > old(Pos()) && Sound(crc, contents, old(Pos()), Pos(), r)
      ensures Reported(contents, old(Pos()), Pos(), r, old(corruptions), corruptions)
      ensures old(Ahead(left, begin, tail)) ==>
                AsWritten(r, left, begin, tail, old(Pos())) && corruptions == old(corruptions)
    {
      hide Leftover, Physical, HeaderLength, HeaderCrc, Emit, TypeOf, Torn, AfterFragment;
      BufferRoom();
      ghost var ahead := Ahead(left, begin, tail);
      if ahead { HeaderInBuffer(left, begin, tail); }
      var length, t := HeaderLength(buffer), buffer[6];
      if HEADER + length > |buffer| {
        buffer := [];
        if !eof {
          corruptions := corruptions + 1;
          return Bad;
        }
        return Eof;
      }
      if t == 0 && length == 0 {
        BlankInBuffer();
        buffer := [];
        return Bad;
      }
      r := TakeFragment(length, left, begin, tail);
    }

    lemma BlankInBuffer()
      requires Valid() && |buffer| >= HEADER && HeaderLength(buffer) == 0 && buffer[6] == 0
      ensures BlankAt(contents, Pos())
    {
      assert buffer[4] == contents[Pos() + 4] && buffer[5] == contents[Pos() + 5] && buffer[6] == contents[Pos() + 6];
    }

    /** With a whole record in the buffer: checks its checksum and takes the payload. */
    method TakeFragment(length: nat, ghost left: Bytes, ghost begin: bool, ghost tail: Bytes) returns (r: Piece)
      requires Valid() && HEADER + length <= |buffer| && Leftover(Pos()) >= |buffer| && length == HeaderLength(buffer)
      requires Ahead(left, begin, tail) ==> HeaderFor(left, begin) && length == Fragment(Pos(), left)
      modifies this`buffer, this`corruptions
      ensures Valid() && Pos() > old(Pos()) && Sound(crc, contents, old(Pos()), Pos(), r)
      ensures Reported(contents, old(Pos()), Pos(), r, old(corruptions), corruptions)
      ensures old(Ahead(left, begin, tail)) ==>
                AsWritten(r, left, begin, tail, old(Pos())) && corruptions == old(corruptions)
    {
      hide Leftover, Physical, HeaderLength, HeaderCrc, Emit, TypeOf, Torn, AfterFragment;
      if Ahead(left, begin, tail) { FragmentInBuffer(left, begin, tail); }
      var t, data := buffer[6], buffer[6..HEADER + length];
      if crc(data) != HeaderCrc(buffer) {
        buffer := [];
        corruptions := corruptions + 1;
        return Bad;
      }
      ghost var from := Pos();
      assert buffer[..HEADER + length][HEADER..] == buffer[HEADER..HEADER + length];
      assert contents[from..from + HEADER + length] == buffer[..HEADER + length];
      CheckedPrefix(buffer, length);
      CheckedIsWritten(crc, buffer[..HEADER + length]);
      r := Got(t, buffer[HEADER..HEADER + length]);
      buffer := buffer[HEADER + length..];
    }

    /** The header in the buffer is that of the next fragment. */
    ghost predicate HeaderFor(left: Bytes, begin: bool)
      requires Valid() && |buffer| >= HEADER
      reads this
    {
      var n := Fragment(Pos(), left);
      && HeaderLength(buffer) == n && buffer[6] == TypeOf(begin, n == |left|)
      && HeaderCrc(buffer) == crc([buffer[6]] + left[..n])
    }

    /** The buffer ends at the block boundary unless the file ends first. */
    lemma BufferRoom()
      requires Valid() && buffer != []
      ensures Leftover(Pos()) >= |buffer|
      ensures !eof ==> Leftover(Pos()) == |buffer|
    {
    }

    /** The header in the buffer is the one written for the next fragment. */
    lemma HeaderInBuffer(left: Bytes, begin: bool, tail: Bytes)
      requires Valid() && |buffer| >= HEADER && Ahead(left, begin, tail)
      requires Leftover(Pos()) >= |buffer|
      ensures HeaderFor(left, begin) && |Emit(crc, Pos(), left, begin)| >= HEADER + Fragment(Pos(), left)
    {
      hide Leftover, HeaderLength, HeaderCrc, Emit, TypeOf, Torn, AfterFragment, Physical;
      var n := Fragment(Pos(), left);
      var first := Physical(crc, TypeOf(begin, n == |left|), left[..n]);
      EmitFirst(crc, Pos(), left, begin);
      TornPrefix(contents, Pos(), Emit(crc, Pos(), left, begin), tail, HEADER);
      assert buffer[..HEADER] == contents[Pos()..Pos() + HEADER];
      HeaderOfPrefix(buffer, first);
      HeaderRoundTrip(crc, TypeOf(begin, n == |left|), left[..n]);
    }

    /** When the whole fragment is in the buffer, its bytes are those written, and the rest follows. */
    lemma FragmentInBuffer(left: Bytes, begin: bool, tail: Bytes)
      requires Valid() && |buffer| >= HEADER && Ahead(left, begin, tail)
      requires Leftover(Pos()) >= |buffer| && HEADER + Fragment(Pos(), left) <= |buffer|
      ensures var n := Fragment(Pos(), left);
                && buffer[HEADER..HEADER + n] == left[..n]
                && buffer[6..HEADER + n] == [TypeOf(begin, n == |left|)] + left[..n]
                && var rest := AfterFragment(crc, Pos(), left, n);
                   && Torn(contents, Pos() + HEADER + n, rest + tail)
                   && HEADER + n + |rest| == |Emit(crc, Pos(), left, begin)|
    {
      hide Leftover, HeaderLength, HeaderCrc, Emit, TypeOf, Torn, AfterFragment, Physical;
      var p, n := Pos(), Fragment(Pos(), left);
      var t := TypeOf(begin, n == |left|);
      var first := Physical(crc, t, left[..n]);
      var rest := AfterFragment(crc, p, left, n);
      EmitFirst(crc, p, left, begin);
      assert Emit(crc, p, left, begin) + tail == first + (rest + tail);
      TornStep(contents, p, first, rest + tail);
      assert buffer[..HEADER + n] == first;
      HeaderRoundTrip(crc, t, left[..n]);
    }

    /** Reading a written record: `scratch` has been read of it, `left` is ahead, and it ends at `end`. */
    ghost predicate OnTrack(data: Bytes, scratch: Bytes, left: Bytes, fragmented: bool, tail: Bytes, end: nat)
      requires Valid()
      reads this
    {
      && scratch + left == data && (!fragmented ==> scratch == []) && Ahead(left, !fragmented, tail)
      && Pos() + |Emit(crc, Pos(), left, !fragmented)| == end
    }

    lemma TrackStart(data: Bytes, tail: Bytes)
      requires Valid() && Ahead(data, true, tail)
      ensures OnTrack(data, [], data, false, tail, Pos() + |Emit(crc, Pos(), data, true)|)
    {
      hide Emit, Torn;
    }

    lemma TrackFacts(data: Bytes, scratch: Bytes, left: Bytes, fragmented: bool, tail: Bytes, end: nat)
      requires Valid() && OnTrack(data, scratch, left, fragmented, tail, end)
      ensures scratch + left == data && Ahead(left, !fragmented, tail)
      ensures Pos() + |Emit(crc, Pos(), left, !fragmented)| == end
    {
    }

    lemma WrittenFacts(r: Piece, left: Bytes, begin: bool, tail: Bytes, from: nat)
      requires Valid() && AsWritten(r, left, begin, tail, from)
      ensures !r.Bad? && (r.Eof? ==> |contents| < from + |Emit(crc, from, left, begin)|)
      ensures r.Got? ==> GotFragment(r, left, begin, tail, from)
    {
    }

    /** The next fragment of a written record is its last, or leaves the reader on its track. */
    lemma TrackOn(data: Bytes, scratch: Bytes, left: Bytes, fragmented: bool, tail: Bytes, end: nat, r: Piece, low: nat)
      requires Valid() && r.Got? && GotFragment(r, left, !fragmented, tail, low)
      requires scratch + left == data && (!fragmented ==> scratch == [])
      requires low + |Emit(crc, low, left, !fragmented)| == end
      ensures var n := |r.fragment|;
              && r.fragment <= left
              && if n == |left| then
                   && r.kind == (if fragmented then LAST else FULL) && scratch + r.fragment == data && Pos() == end
                   && Torn(contents, Pos(), tail)
                 else
                   && r.kind == (if fragmented then MIDDLE else FIRST)
                   && OnTrack(data, scratch + r.fragment, left[n..], true, tail, end)
    {
      hide Emit, Torn, Physical;
      assert left == r.fragment + left[|r.fragment|..];
      assert [] + tail == tail;
    }

    /** What ReadRecord keeps from one fragment to the next. */
    ghost predicate Kept(w: Next, from: int, before: nat, scratch: Bytes, fragmented: bool, read: seq<Bytes>,
                         left: Bytes)
      requires Valid()
      reads this
    {
      && corruptions >= before && (!fragmented ==> scratch == [])
      && Going(crc, contents, from, Pos(), scratch, fragmented, read, corruptions - before)
      && (w.Record? ==> corruptions == before && OnTrack(w.data, scratch, left, fragmented, w.tail, w.end))
    }

    /** One turn of ReadRecord: the next fragment, or the end of the file. */
    method ReadOn(scratch0: Bytes, inFragmented0: bool, ghost w: Next, ghost from: int, ghost before: nat,
                  ghost read0: seq<Bytes>, ghost left0: Bytes)
      returns (turn: Turn, scratch: Bytes, inFragmented: bool, ghost read: seq<Bytes>, ghost left: Bytes)
      requires Valid() && Kept(w, from, before, scratch0, inFragmented0, read0, left0)
      modifies this
      ensures Valid() && corruptions >= before && (w.Record? ==> corruptions == before)
      ensures turn.More? ==> Pos() > old(Pos()) && Kept(w, from, before, scratch, inFragmented, read, left)
      ensures turn.Complete? ==>
                && Pos() > old(Pos()) >= from && Assembled(crc, contents, from, Pos(), scratch)
                    && (corruptions == before ==> scratch == Payloads(read))
                && (w.Record? ==> scratch == w.data && Pos() == w.end && Torn(contents, Pos(), w.tail))
      ensures turn.AtEnd? ==>
                && (corruptions == before && Payloads(read) != [] ==> Begun(crc, contents, from, Pos(), Payloads(read)))
                && (w.Record? ==> |contents| < w.end)
    {
      hide Emit, Torn, Leftover, RecordAt, Begun, Assembled, Physical, Payloads, ZeroHeader, Going, OnTrack, AsWritten,
          GotFragment;
      scratch, inFragmented, read, left := scratch0, inFragmented0, read0, left0;
      ghost var low, reports := Pos(), corruptions - before;
      ghost var tail := if w.Record? then w.tail else [];
      if w.Record? { TrackFacts(w.data, scratch, left, inFragmented, tail, w.end); }
      var piece := ReadPhysicalRecord(left, !inFragmented, tail);
      if w.Record? { WrittenFacts(piece, left, !inFragmented, tail, low); }
      if !piece.Got? {
        GoingPast(crc, contents, from, low, Pos(), scratch, inFragmented, read, reports,
            corruptions - before - reports);
      }
      match piece
      case Eof =>
        turn := AtEnd;
      case Bad =>
        if inFragmented {
          corruptions := corruptions + 1;
          inFragmented := false;
          scratch := [];
        }
        turn := More;
      case Got(kind, fragment) =>
        GoingOn(crc, contents, from, low, Pos(), scratch, inFragmented, read, reports, kind, fragment);
        read := read + [fragment];
        assert [] + fragment == fragment;
        if w.Record? { TrackOn(w.data, scratch, left, inFragmented, tail, w.end, piece, low); }
        var done, report;
        done, report, scratch, inFragmented := Absorb(kind, fragment, scratch, inFragmented);
        if report {
          corruptions := corruptions + 1;
        }
        left := if w.Record? then left[|fragment|..] else left;
        turn := if done then Complete else More;
    }

    /**
     * ReadRecord.  Where `data` is the next record written and `tail` what
     * follows, it returns the record exactly when all its bytes are in the
     * file, and reports nothing.  On any bytes nothing is lost without a report:
     * unless there is one, the record is all the payload `read`, or at the end of
     * the file that is the start of a record.
     */
    method ReadRecord(ghost data: Bytes, ghost tail: Bytes) returns (ok: bool, record: Bytes, ghost read: seq<Bytes>)
      requires Valid()
      modifies this
      ensures Valid() && corruptions >= old(corruptions)
      ensures ok ==> Pos() > old(Pos()) && Assembled(crc, contents, old(Pos()), Pos(), record)
      ensures ok && corruptions == old(corruptions) ==> record == Payloads(read)
      ensures !ok && corruptions == old(corruptions) && Payloads(read) != [] ==>
                Begun(crc, contents, old(Pos()), Pos(), Payloads(read))
      ensures old(Ahead(data, true, tail)) ==>
                var end := old(Pos()) + |Emit(crc, old(Pos()), data, true)|;
                && corruptions == old(corruptions)
                && (ok <==> end <= |contents|)
                && (ok ==> record == data && Pos() == end && Torn(contents, Pos(), tail))
    {
      hide Emit, Torn, Leftover, Begun, Assembled, Physical, Payloads, Going, OnTrack;
      ghost var from, before := Pos(), corruptions;
      ghost var w := if Ahead(data, true, tail) then Record(data, tail, from + |Emit(crc, from, data, true)|)
          else Nothing;
      if w.Record? { TrackStart(data, tail); }
      GoingAtFirst(crc, contents, from);
      var scratch, inFragmented: bool := [], false;
      ghost var left := data;
      read := [];
      while true
        invariant Valid() && Kept(w, from, before, scratch, inFragmented, read, left)
        decreases |contents| - Pos()
      {
        var turn;
        turn, scratch, inFragmented, read, left := ReadOn(scratch, inFragmented, w, from, before, read, left);
        match turn
        case AtEnd => return false, [], read;
        case Complete => return true, scratch, read;
        case More =>
      }
    }
  }

  // ---- Whole logs, cut anywhere ----

  /** How many of the records end within the first `n` bytes of the file. */
  ghost function Whole(crc: Checksum, p: nat, records: seq<Bytes>, n: nat): (k: nat)
    ensures k <= |records|
    decreases |records|
  {
    if records == [] then 0
    else
      var e := p + |Emit(crc, p, records[0], true)|;
      if e <= n then 1 + Whole(crc, e, records[1..], n) else 0
  }

  /** A record is counted exactly when the log up to its end fits in `n` bytes. */
  lemma {:induction false} WholeIsContained(crc: Checksum, p: nat, records: seq<Bytes>, n: nat, i: nat)
    requires i < |records|
    ensures i < Whole(crc, p, records, n) <==> p + |Written(crc, p, records[..i + 1])| <= n
    decreases i
  {
    hide Emit;
    var e := Emit(crc, p, records[0], true);
    assert records[..i + 1][1..] == records[1..][..i];
    if i == 0 {
    } else {
      WholeIsContained(crc, p + |e|, records[1..], n, i - 1);
    }
  }

  /** A reader at `pos` has read exactly the first `i` records of a written log that may be cut. */
  ghost predicate AtRecord(crc: Checksum, contents: Bytes, pos: int, records: seq<Bytes>, i: nat) {
    && 0 <= pos && i <= |records| && Torn(contents, pos, Written(crc, pos, records[i..]))
    && i + Whole(crc, pos, records[i..], |contents|) == Whole(crc, 0, records, |contents|)
  }

  lemma AtFirst(crc: Checksum, contents: Bytes, records: seq<Bytes>)
    requires contents <= Written(crc, 0, records)
    ensures AtRecord(crc, contents, 0, records, 0)
  {
    hide Written, Whole;
    assert records[0..] == records;
    StartOfLog(contents, Written(crc, 0, records));
  }

  /** The next record of a log; of a written one exactly as long as whole records are left. */
  method ReadNext(reader: Reader, ghost records: seq<Bytes>, ghost i: nat) returns (ok: bool, record: Bytes)
    requires reader.Valid()
    modifies reader
    ensures reader.Valid() && reader.corruptions >= old(reader.corruptions)
    ensures ok ==> reader.Pos() > old(reader.Pos())
                   && Assembled(reader.crc, reader.contents, old(reader.Pos()), reader.Pos(), record)
    ensures old(AtRecord(reader.crc, reader.contents, reader.Pos(), records, i)) ==>
              && reader.corruptions == old(reader.corruptions)
              && (ok <==> i < Whole(reader.crc, 0, records, |reader.contents|))
              && (!ok ==> i == Whole(reader.crc, 0, records, |reader.contents|))
              && (ok ==> i < |records| && record == records[i]
                         && AtRecord(reader.crc, reader.contents, reader.Pos(), records, i + 1))
  {
    hide Emit, Whole, Written, Torn, Assembled, Payloads, Begun;
    ghost var p, at := reader.Pos(), AtRecord(reader.crc, reader.contents, reader.Pos(), records, i);
    ghost var data: Bytes, tail: Bytes := [], [];
    if at {
      data, tail := NextRecord(reader.crc, reader.contents, p, records[i..]);
    }
    ghost var read;
    ok, record, read := reader.ReadRecord(data, tail);
    if at && ok { assert records[i..][1..] == records[i + 1..]; }
  }

  /**
   * Reading the first bytes of a written log, cut at any point, returns exactly
   * the records wholly contained in them, in order, and reports no corruption.
   */
  method ReadTorn(crc: Checksum, contents: Bytes, ghost records: seq<Bytes>) returns (out: seq<Bytes>, corruptions: nat)
    requires contents <= Written(crc, 0, records)
    ensures corruptions == 0
    ensures |out| == Whole(crc, 0, records, |contents|) && out == records[..|out|]
  {
    hide Whole, Written, AtRecord, Assembled;
    var reader := new Reader(crc, contents);
    AtFirst(crc, contents, records);
    out := [];
    var more := true;
    while more
      invariant reader.Valid() && reader.corruptions == 0 && reader.crc == crc && reader.contents == contents
                  && fresh(reader)
      invariant |out| <= |records| && out == records[..|out|]
      invariant if more then AtRecord(crc, contents, reader.Pos(), records, |out|)
                else |out| == Whole(crc, 0, records, |contents|)
      decreases more, |contents| - reader.Pos()
    {
      ghost var i := |out|;
      var ok, record := ReadNext(reader, records, i);
      if ok {
        out := out + [record];
      } else {
        more := false;
      }
    }
    corruptions := reader.corruptions;
  }

  lemma StartOfLog(contents: Bytes, log: Bytes)
    requires contents <= log
    ensures Torn(contents, 0, log)
  {
  }

  /** The next record a reader at `p` may expect; past the last one, any record would run off the end. */
  lemma NextRecord(crc: Checksum, contents: Bytes, p: nat, left: seq<Bytes>) returns (data: Bytes, tail: Bytes)
    requires Torn(contents, p, Written(crc, p, left))
    ensures Torn(contents, p, Emit(crc, p, data, true) + tail)
    ensures var end := p + |Emit(crc, p, data, true)|;
              && (end <= |contents| ==> left != [] && data == left[0] && tail == Written(crc, end, left[1..])
                                        && Whole(crc, p, left, |contents|)
                                            == 1 + Whole(crc, end, left[1..], |contents|))
              && (end > |contents| ==> Whole(crc, p, left, |contents|) == 0)
  {
    hide Emit;
    if left == [] {
      data, tail := [], [];
      EmitNonempty(crc, p, data);
    } else {
      data := left[0];
      tail := Written(crc, p + |Emit(crc, p, data, true)|, left[1..]);
    }
  }

  lemma EmitNonempty(crc: Checksum, p: nat, data: Bytes)
    ensures |Emit(crc, p, data, true)| >= HEADER
  {
  }

  /** Appending records one by one produces the log of all of them. */
  lemma {:induction false} WrittenAppend(crc: Checksum, p: nat, records: seq<Bytes>, data: Bytes)
    ensures var w := Written(crc, p, records);
              Written(crc, p, records + [data]) == w + Emit(crc, p + |w|, data, true)
    decreases |records|
  {
    hide Emit;
    if records == [] {
    } else {
      var e := Emit(crc, p, records[0], true);
      assert (records + [data])[1..] == records[1..] + [data];
      WrittenAppend(crc, p + |e|, records[1..], data);
    }
  }
}
