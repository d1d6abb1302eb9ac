/**
 * The stored form of version edits, the records of the manifest
 * (db/version_edit.cc).  Internal keys are taken as encoded.
 */
module VersionEdit {
  import opened DbFormat
  import opened Coding
  import opened Version

  datatype FileEntry = FileEntry(number: nat, size: nat, smallest: Bytes, largest: Bytes)

  /** `deleted` is kept as an ordered set. */
  datatype FullEdit = FullEdit(
    comparator: Option<Bytes>,
    logNumber: Option<nat>,
    prevLogNumber: Option<nat>,
    nextFile: Option<nat>,
    lastSequence: Option<nat>,
    pointers: seq<(nat, Bytes)>,
    deleted: seq<(nat, nat)>,
    added: seq<(nat, FileEntry)>)

  const EMPTY := FullEdit(None, None, None, None, None, [], [], [])

  predicate PairLess(a: (nat, nat), b: (nat, nat)) {
    a.0 < b.0 || (a.0 == b.0 && a.1 < b.1)
  }

  ghost predicate Ascending(s: seq<(nat, nat)>) {
    forall i, j :: 0 <= i < j < |s| ==> PairLess(s[i], s[j])
  }

  /** Insertion into an ordered set. */
  function InsertPair(s: seq<(nat, nat)>, x: (nat, nat)): seq<(nat, nat)> {
    if s == [] then [x]
    else if PairLess(s[0], x) then [s[0]] + InsertPair(s[1..], x)
    else if s[0] == x then s
    else [x] + s
  }

  lemma {:induction false} InsertLast(s: seq<(nat, nat)>, x: (nat, nat))
    requires forall i :: 0 <= i < |s| ==> PairLess(s[i], x)
    ensures InsertPair(s, x) == s + [x]
  {
    if s == [] {
    } else {
      InsertLast(s[1..], x);
    }
  }

  // ---- Fields on the wire ----

  datatype Chunk =
    | Comparator(name: Bytes)
    | LogNumber(n: nat)
    | NextFile(n: nat)
    | LastSequence(n: nat)
    | Pointer(level: nat, key: Bytes)
    | Deleted(level: nat, n: nat)
    | NewFile(level: nat, f: FileEntry)
    | PrevLogNumber(n: nat)

  function TagOf(c: Chunk): nat {
    match c
    case Comparator(_) => 1
    case LogNumber(_) => 2
    case NextFile(_) => 3
    case LastSequence(_) => 4
    case Pointer(_, _) => 5
    case Deleted(_, _) => 6
    case NewFile(_, _) => 7
    case PrevLogNumber(_) => 9
  }

  function Body(c: Chunk): Bytes {
    match c
    case Comparator(name) => Prefixed(name)
    case LogNumber(n) => Varint(n)
    case NextFile(n) => Varint(n)
    case LastSequence(n) => Varint(n)
    case PrevLogNumber(n) => Varint(n)
    case Pointer(level, key) => Varint(level) + Prefixed(key)
    case Deleted(level, n) => Varint(level) + Varint(n)
    case NewFile(level, f) =>
      Varint(level) + (Varint(f.number) + (Varint(f.size) + (Prefixed(f.smallest) + Prefixed(f.largest))))
  }

  function ChunkBytes(c: Chunk): Bytes {
    Varint(TagOf(c)) + Body(c)
  }

  predicate ChunkOk(c: Chunk) {
    match c
    case Comparator(_) => true
    case LogNumber(n) => n < WORD64
    case NextFile(n) => n < WORD64
    case LastSequence(n) => n < WORD64
    case PrevLogNumber(n) => n < WORD64
    case Pointer(level, _) => level < NUM_LEVELS
    case Deleted(level, n) => level < NUM_LEVELS && n < WORD64
    case NewFile(level, f) => level < NUM_LEVELS && f.number < WORD64 && f.size < WORD64
  }

  function ChunksBytes(cs: seq<Chunk>): Bytes {
    if cs == [] then [] else ChunkBytes(cs[0]) + ChunksBytes(cs[1..])
  }

  lemma {:induction false} BytesAppend(a: seq<Chunk>, b: seq<Chunk>)
    ensures ChunksBytes(a + b) == ChunksBytes(a) + ChunksBytes(b)
  {
    hide ChunkBytes;
    if a == [] {
      assert a + b == b;
    } else {
      assert (a + b)[1..] == a[1..] + b;
      BytesAppend(a[1..], b);
    }
  }

  // ---- An edit as a list of fields ----

  function OptChunk<T>(o: Option<T>, c: T -> Chunk): seq<Chunk> {
    if o.Some? then [c(o.value)] else []
  }

  function Head(e: FullEdit): seq<Chunk> {
    OptChunk(e.comparator, b => Comparator(b)) + OptChunk(e.logNumber, n => LogNumber(n))
        + OptChunk(e.prevLogNumber, n => PrevLogNumber(n))
    + OptChunk(e.nextFile, n => NextFile(n)) + OptChunk(e.lastSequence, n => LastSequence(n))
  }

  function Pointers(e: FullEdit): seq<Chunk> {
    seq(|e.pointers|, i requires 0 <= i < |e.pointers| => Pointer(e.pointers[i].0, e.pointers[i].1))
  }

  function Deletions(e: FullEdit): seq<Chunk> {
    seq(|e.deleted|, i requires 0 <= i < |e.deleted| => Deleted(e.deleted[i].0, e.deleted[i].1))
  }

  function Additions(e: FullEdit): seq<Chunk> {
    seq(|e.added|, i requires 0 <= i < |e.added| => NewFile(e.added[i].0, e.added[i].1))
  }

  /** The fields in the order they are written. */
  function Chunks(e: FullEdit): seq<Chunk> {
    Head(e) + Pointers(e) + Deletions(e) + Additions(e)
  }

  function Encoded(e: FullEdit): Bytes {
    ChunksBytes(Chunks(e))
  }

  /** What decoding a field does to the edit. */
  function Apply(e: FullEdit, c: Chunk): FullEdit {
    match c
    case Comparator(name) => e.(comparator := Some(name))
    case LogNumber(n) => e.(logNumber := Some(n))
    case NextFile(n) => e.(nextFile := Some(n))
    case LastSequence(n) => e.(lastSequence := Some(n))
    case PrevLogNumber(n) => e.(prevLogNumber := Some(n))
    case Pointer(level, key) => e.(pointers := e.pointers + [(level, key)])
    case Deleted(level, n) => e.(deleted := InsertPair(e.deleted, (level, n)))
    case NewFile(level, f) => e.(added := e.added + [(level, f)])
  }

  function ApplyChunks(e: FullEdit, cs: seq<Chunk>): FullEdit {
    if cs == [] then e else Apply(ApplyChunks(e, cs[..|cs| - 1]), cs[|cs| - 1])
  }

  lemma {:induction false} ApplyChunksAppend(e: FullEdit, a: seq<Chunk>, b: seq<Chunk>)
    ensures ApplyChunks(e, a + b) == ApplyChunks(ApplyChunks(e, a), b)
    decreases |b|
  {
    hide Apply;
    if b == [] {
      assert a + b == a;
    } else {
      var n := |b| - 1;
      assert (a + b)[..|a + b| - 1] == a + b[..n];
      ApplyChunksAppend(e, a, b[..n]);
    }
  }

  /** Decoding all fields of an edit rebuilds it; compaction pointers join those already there. */
  lemma ChunksRebuild(e: FullEdit, held: seq<(nat, Bytes)>)
    requires Ascending(e.deleted)
    ensures ApplyChunks(EMPTY.(pointers := held), Chunks(e)) == e.(pointers := held + e.pointers)
  {
    hide Apply, ApplyChunks, Head, Pointers, Deletions, Additions;
    var start := EMPTY.(pointers := held);
    ApplyChunksAppend(start, Head(e) + Pointers(e) + Deletions(e), Additions(e));
    ApplyChunksAppend(start, Head(e) + Pointers(e), Deletions(e));
    ApplyChunksAppend(start, Head(e), Pointers(e));
    HeadRebuilds(e, held);
    var h := ApplyChunks(start, Head(e));
    PointersRebuild(e, h, |e.pointers|);
    assert Pointers(e)[..|e.pointers|] == Pointers(e)
           && e.pointers[..|e.pointers|] == e.pointers by { PointersCount(e); }
    var p := ApplyChunks(h, Pointers(e));
    DeletionsRebuild(e, p, |e.deleted|);
    var d := ApplyChunks(p, Deletions(e));
    AdditionsRebuild(e, d, |e.added|);
  }

  lemma PointersCount(e: FullEdit)
    ensures |Pointers(e)| == |e.pointers| && |Deletions(e)| == |e.deleted| && |Additions(e)| == |e.added|
  {
  }

  lemma HeadRebuilds(e: FullEdit, held: seq<(nat, Bytes)>)
    ensures ApplyChunks(EMPTY.(pointers := held), Head(e)) ==
            FullEdit(e.comparator, e.logNumber, e.prevLogNumber, e.nextFile, e.lastSequence, held, [], [])
  {
    hide ApplyChunks, InsertPair;
    var a, b, c, d, f := OptChunk(e.comparator, b => Comparator(b)), OptChunk(e.logNumber, n => LogNumber(n)),
      OptChunk(e.prevLogNumber, n => PrevLogNumber(n)), OptChunk(e.nextFile, n => NextFile(n)),
          OptChunk(e.lastSequence, n => LastSequence(n));
    var start := EMPTY.(pointers := held);
    ApplyChunksAppend(start, a + b + c + d, f);
    ApplyChunksAppend(start, a + b + c, d);
    ApplyChunksAppend(start, a + b, c);
    ApplyChunksAppend(start, a, b);
    var e1 := start.(comparator := e.comparator);
    var e2 := e1.(logNumber := e.logNumber);
    var e3 := e2.(prevLogNumber := e.prevLogNumber);
    var e4 := e3.(nextFile := e.nextFile);
    var e5 := e4.(lastSequence := e.lastSequence);
    SetField(start, a, e1);
    SetField(e1, b, e2);
    SetField(e2, c, e3);
    SetField(e3, d, e4);
    SetField(e4, f, e5);
  }

  lemma SetField(e: FullEdit, cs: seq<Chunk>, e': FullEdit)
    requires |cs| <= 1 && (cs == [] ==> e' == e) && (|cs| == 1 ==> e' == Apply(e, cs[0]))
    ensures ApplyChunks(e, cs) == e'
  {
  }

  lemma {:induction false} PointersRebuild(e: FullEdit, s: FullEdit, n: nat)
    requires n <= |e.pointers|
    ensures ApplyChunks(s, Pointers(e)[..n]) == s.(pointers := s.pointers + e.pointers[..n])
  {
    if n == 0 {
    } else {
      PointersRebuild(e, s, n - 1);
      assert Pointers(e)[..n][..n - 1] == Pointers(e)[..n - 1];
    }
  }

  lemma {:induction false} DeletionsRebuild(e: FullEdit, s: FullEdit, n: nat)
    requires n <= |e.deleted| && Ascending(e.deleted) && s.deleted == []
    ensures ApplyChunks(s, Deletions(e)[..n]) == s.(deleted := e.deleted[..n])
    ensures Deletions(e)[..|e.deleted|] == Deletions(e) && e.deleted[..|e.deleted|] == e.deleted
  {
    if n == 0 {
    } else {
      DeletionsRebuild(e, s, n - 1);
      assert Deletions(e)[..n][..n - 1] == Deletions(e)[..n - 1];
      InsertLast(e.deleted[..n - 1], e.deleted[n - 1]);
    }
  }

  lemma {:induction false} AdditionsRebuild(e: FullEdit, s: FullEdit, n: nat)
    requires n <= |e.added| && s.added == []
    ensures ApplyChunks(s, Additions(e)[..n]) == s.(added := e.added[..n])
    ensures Additions(e)[..|e.added|] == Additions(e) && e.added[..|e.added|] == e.added
  {
    if n == 0 {
    } else {
      AdditionsRebuild(e, s, n - 1);
      assert Additions(e)[..n][..n - 1] == Additions(e)[..n - 1];
    }
  }

  // ---- Encoding and decoding ----

  /** A tag and what follows it. */
  method PutField(dst: Bytes, c: Chunk) returns (r: Bytes)
    ensures r == dst + ChunkBytes(c)
  {
    hide Varint, Prefixed;
    r := EncodeVarint(dst, TagOf(c));
    match c
    case Comparator(name) =>
      r := PutPrefixed(r, name);
    case Pointer(level, key) =>
      r := EncodeVarint(r, level);
      r := PutPrefixed(r, key);
    case Deleted(level, n) =>
      r := EncodeVarint(r, level);
      r := EncodeVarint(r, n);
    case NewFile(level, f) =>
      r := PutFile(r, level, f);
    case _ =>
      r := EncodeVarint(r, c.n);
  }

  method PutFile(dst: Bytes, level: nat, f: FileEntry) returns (r: Bytes)
    ensures r == dst + Body(NewFile(level, f))
  {
    hide Varint, Prefixed;
    var a := EncodeVarint(dst, level);
    var b := EncodeVarint(a, f.number);
    var c := EncodeVarint(b, f.size);
    var d := PutPrefixed(c, f.smallest);
    r := PutPrefixed(d, f.largest);
    LeftToRight(dst, Varint(level), Varint(f.number), Varint(f.size), Prefixed(f.smallest), Prefixed(f.largest));
  }

  lemma LeftToRight(a: Bytes, b: Bytes, c: Bytes, d: Bytes, e: Bytes, f: Bytes)
    ensures a + b + c + d + e + f == a + (b + (c + (d + (e + f))))
  {
  }

  /** One more field after those of `cs`. */
  method PutNext(r: Bytes, ghost dst: Bytes, ghost cs: seq<Chunk>, c: Chunk) returns (r': Bytes)
    requires r == dst + ChunksBytes(cs)
    ensures r' == dst + ChunksBytes(cs + [c])
  {
    hide ChunkBytes;
    BytesAppend(cs, [c]);
    assert [c][1..] == [];
    assert ChunksBytes([c]) == ChunkBytes(c);
    r' := PutField(r, c);
  }

  /** EncodeTo: the present fields, then the three lists. */
  method EncodeTo(e: FullEdit, dst: Bytes) returns (r: Bytes)
    ensures r == dst + Encoded(e)
  {
    hide ChunksBytes, Head, Pointers, Deletions, Additions;
    ghost var cs;
    r, cs := PutHead(e, dst);
    r := PutPointers(e, r, dst, cs);
    r := PutDeletions(e, r, dst, cs + Pointers(e));
    r := PutAdditions(e, r, dst, cs + Pointers(e) + Deletions(e));
  }

  method PutPointers(e: FullEdit, r: Bytes, ghost dst: Bytes, ghost before: seq<Chunk>) returns (r': Bytes)
    requires r == dst + ChunksBytes(before)
    ensures r' == dst + ChunksBytes(before + Pointers(e))
  {
    hide ChunksBytes;
    r' := r;
    assert before + Pointers(e)[..0] == before;
    for i := 0 to |e.pointers|
      invariant r' == dst + ChunksBytes(before + Pointers(e)[..i])
    {
      assert before + Pointers(e)[..i + 1] == before + Pointers(e)[..i] + [Pointers(e)[i]];
      r' := PutNext(r', dst, before + Pointers(e)[..i], Pointer(e.pointers[i].0, e.pointers[i].1));
    }
    assert Pointers(e)[..|e.pointers|] == Pointers(e);
  }

  method PutDeletions(e: FullEdit, r: Bytes, ghost dst: Bytes, ghost before: seq<Chunk>) returns (r': Bytes)
    requires r == dst + ChunksBytes(before)
    ensures r' == dst + ChunksBytes(before + Deletions(e))
  {
    hide ChunksBytes;
    r' := r;
    assert before + Deletions(e)[..0] == before;
    for i := 0 to |e.deleted|
      invariant r' == dst + ChunksBytes(before + Deletions(e)[..i])
    {
      assert before + Deletions(e)[..i + 1] == before + Deletions(e)[..i] + [Deletions(e)[i]];
      r' := PutNext(r', dst, before + Deletions(e)[..i], Deleted(e.deleted[i].0, e.deleted[i].1));
    }
    assert Deletions(e)[..|e.deleted|] == Deletions(e);
  }

  method PutAdditions(e: FullEdit, r: Bytes, ghost dst: Bytes, ghost before: seq<Chunk>) returns (r': Bytes)
    requires r == dst + ChunksBytes(before)
    ensures r' == dst + ChunksBytes(before + Additions(e))
  {
    hide ChunksBytes;
    r' := r;
    assert before + Additions(e)[..0] == before;
    for i := 0 to |e.added|
      invariant r' == dst + ChunksBytes(before + Additions(e)[..i])
    {
      assert before + Additions(e)[..i + 1] == before + Additions(e)[..i] + [Additions(e)[i]];
      r' := PutNext(r', dst, before + Additions(e)[..i], NewFile(e.added[i].0, e.added[i].1));
    }
    assert Additions(e)[..|e.added|] == Additions(e);
  }

  method PutHead(e: FullEdit, dst: Bytes) returns (r: Bytes, ghost cs: seq<Chunk>)
    ensures cs == Head(e) && r == dst + ChunksBytes(cs)
  {
    r, cs := dst, [];
    assert dst + ChunksBytes(cs) == dst;
    hide ChunksBytes;
    ghost var c1 := OptChunk(e.comparator, b => Comparator(b));
    if e.comparator.Some? {
      r := PutNext(r, dst, cs, Comparator(e.comparator.value));
      cs := cs + [Comparator(e.comparator.value)];
    }
    assert cs == c1;
    ghost var c2 := c1 + OptChunk(e.logNumber, n => LogNumber(n));
    if e.logNumber.Some? {
      r := PutNext(r, dst, cs, LogNumber(e.logNumber.value));
      cs := cs + [LogNumber(e.logNumber.value)];
    }
    assert cs == c2;
    ghost var c3 := c2 + OptChunk(e.prevLogNumber, n => PrevLogNumber(n));
    if e.prevLogNumber.Some? {
      r := PutNext(r, dst, cs, PrevLogNumber(e.prevLogNumber.value));
      cs := cs + [PrevLogNumber(e.prevLogNumber.value)];
    }
    assert cs == c3;
    ghost var c4 := c3 + OptChunk(e.nextFile, n => NextFile(n));
    if e.nextFile.Some? {
      r := PutNext(r, dst, cs, NextFile(e.nextFile.value));
      cs := cs + [NextFile(e.nextFile.value)];
    }
    assert cs == c4;
    ghost var c5 := c4 + OptChunk(e.lastSequence, n => LastSequence(n));
    if e.lastSequence.Some? {
      r := PutNext(r, dst, cs, LastSequence(e.lastSequence.value));
      cs := cs + [LastSequence(e.lastSequence.value)];
    }
    assert cs == c5;
  }

  // ---- The grammar of stored edits ----

  ghost predicate ReadsPointer(input: Bytes, level: nat, key: Bytes, rest: Bytes) {
    level < 7 && exists a :: ReadsNumber(input, VARINT32, level, a) && ReadsSlice(a, key, rest)
  }

  ghost predicate ReadsDeleted(input: Bytes, level: nat, n: nat, rest: Bytes) {
    level < 7 && exists a :: ReadsNumber(input, VARINT32, level, a) && ReadsNumber(a, VARINT64, n, rest)
  }

  ghost predicate ReadsNewFile(input: Bytes, level: nat, f: FileEntry, rest: Bytes) {
    level < 7 && exists a, b, c, d ::
      && ReadsNumber(input, VARINT32, level, a)
      && ReadsNumber(a, VARINT64, f.number, b) && ReadsNumber(b, VARINT64, f.size, c)
      && ReadsSlice(c, f.smallest, d) && ReadsSlice(d, f.largest, rest)
  }

  /** The input starts with the field of that tag. */
  ghost predicate ReadsBody(tag: nat, input: Bytes, c: Chunk, rest: Bytes) {
    match c
    case Comparator(name) => tag == 1 && ReadsSlice(input, name, rest)
    case LogNumber(n) => tag == 2 && ReadsNumber(input, VARINT64, n, rest)
    case NextFile(n) => tag == 3 && ReadsNumber(input, VARINT64, n, rest)
    case LastSequence(n) => tag == 4 && ReadsNumber(input, VARINT64, n, rest)
    case Pointer(level, key) => tag == 5 && ReadsPointer(input, level, key, rest)
    case Deleted(level, n) => tag == 6 && ReadsDeleted(input, level, n, rest)
    case NewFile(level, f) => tag == 7 && ReadsNewFile(input, level, f, rest)
    case PrevLogNumber(n) => tag == 9 && ReadsNumber(input, VARINT64, n, rest)
  }

  ghost predicate ReadsChunk(input: Bytes, c: Chunk, rest: Bytes) {
    exists tag, body :: ReadsNumber(input, VARINT32, tag, body) && ReadsBody(tag, body, c, rest)
  }

  /** The input is a list of fields and nothing else. */
  ghost predicate ReadsChunks(input: Bytes, cs: seq<Chunk>)
    decreases |cs|
  {
    if cs == [] then input == [] else exists rest :: ReadsChunk(input, cs[0], rest) && ReadsChunks(rest, cs[1..])
  }

  /** The lists an input can be read as, after its first fields. */
  ghost predicate ReadsOn(input: Bytes, out: seq<Chunk>, rest: Bytes) {
    forall cs :: ReadsChunks(input, cs) <==> out <= cs && ReadsChunks(rest, cs[|out|..])
  }

  lemma ReadsStart(input: Bytes)
    ensures ReadsOn(input, [], input)
  {
    hide ReadsChunks;
    forall cs ensures ReadsChunks(input, cs) <==> [] <= cs && ReadsChunks(input, cs[0..]) {
      assert cs[0..] == cs;
    }
  }

  lemma ReadsNext(input: Bytes, out: seq<Chunk>, mid: Bytes, c: Chunk, rest: Bytes)
    requires ReadsOn(input, out, mid) && mid != []
    requires forall x, r :: ReadsChunk(mid, x, r) <==> x == c && r == rest
    ensures ReadsOn(input, out + [c], rest)
  {
    hide ReadsChunk;
    var more := out + [c];
    forall cs ensures ReadsChunks(input, cs) <==> more <= cs && ReadsChunks(rest, cs[|more|..]) {
      if out <= cs && |out| < |cs| {
        var left := cs[|out|..];
        assert left[1..] == cs[|more|..];
        assert ReadsChunks(mid, left) <==> left[0] == c && ReadsChunks(rest, left[1..]);
        assert more <= cs <==> left[0] == c;
      }
    }
  }

  lemma ReadsStuck(input: Bytes, out: seq<Chunk>, mid: Bytes, cs: seq<Chunk>)
    requires ReadsOn(input, out, mid) && mid != [] && forall x, r :: !ReadsChunk(mid, x, r)
    ensures !ReadsChunks(input, cs)
  {
    hide ReadsChunk;
  }

  lemma ReadsEnd(input: Bytes, out: seq<Chunk>, cs: seq<Chunk>)
    requires ReadsOn(input, out, [])
    ensures ReadsChunks(input, cs) <==> cs == out
  {
    if out <= cs && ReadsChunks([], cs[|out|..]) {
      assert cs == out + cs[|out|..];
    }
    assert out[|out|..] == [];
  }

  // ---- Decoding ----

  method GetNumber(input: Bytes, w: Width, ghost n: nat, ghost tail: Bytes) returns (ok: bool, value: nat, rest: Bytes)
    requires ValidWidth(w)
    ensures ok ==> |rest| < |input|
    ensures n < Limit(w) && input == Varint(n) + tail ==> ok && value == n && rest == tail
    ensures forall v, r :: ReadsNumber(input, w, v, r) <==> ok && v == value && r == rest
  {
    hide Varint, ParseVarint, Limit;
    var r := GetVarint(input, 0, w);
    if n < Limit(w) && input == Varint(n) + tail {
      VarintRoundTrip(n, input, 0, w);
    }
    if r == None { return false, 0, input; }
    return true, r.value.value, input[r.value.next..];
  }

  method GetLevel(input: Bytes, ghost level: nat, ghost tail: Bytes) returns (ok: bool, value: nat, rest: Bytes)
    ensures ok ==> |rest| < |input| && value < NUM_LEVELS
    ensures level < NUM_LEVELS && input == Varint(level) + tail ==> ok && value == level && rest == tail
    ensures forall l, r :: l < 7 && ReadsNumber(input, VARINT32, l, r) <==> ok && l == value && r == rest
  {
    hide Varint, ReadsNumber;
    LimitsOfWidths();
    ok, value, rest := GetNumber(input, VARINT32, level, tail);
    if ok && value >= NUM_LEVELS {
      ok := false;
    }
  }

  ghost function LevelOf(c: Chunk): nat {
    match c
    case Pointer(l, _) => l
    case Deleted(l, _) => l
    case NewFile(l, _) => l
    case _ => 0
  }

  ghost function NumberOf(c: Chunk): nat {
    match c
    case LogNumber(n) => n
    case NextFile(n) => n
    case LastSequence(n) => n
    case PrevLogNumber(n) => n
    case Deleted(_, n) => n
    case NewFile(_, f) => f.number
    case _ => 0
  }

  /** The field after its tag. */
  method ParseBody(tag: nat, input: Bytes, ghost c: Chunk, ghost tail: Bytes) returns (r: Option<Chunk>, rest: Bytes)
    ensures r.Some? ==> |rest| < |input|
    ensures |input| < WORD && ChunkOk(c) && tag == TagOf(c) && input == Body(c) + tail ==> r == Some(c) && rest == tail
    ensures forall x, t :: ReadsBody(tag, input, x, t) <==> r == Some(x) && t == rest
  {
    hide Varint, Prefixed, Limit, ReadsNumber, ReadsSlice, ReadsPointer, ReadsDeleted, ReadsNewFile;
    LimitsOfWidths();
    r, rest := None, input;
    if tag == 1 {
      var ok, name, after := GetPrefixed(input, if c.Comparator? then c.name else [], tail);
      if ok { return Some(Comparator(name)), after; }
    } else if tag == 2 || tag == 3 || tag == 4 || tag == 9 {
      var ok, n, after := GetNumber(input, VARINT64, NumberOf(c), tail);
      if ok {
        var field := if tag == 2 then LogNumber(n) else if tag == 3 then NextFile(n)
                     else if tag == 4 then LastSequence(n) else PrevLogNumber(n);
        return Some(field), after;
      }
    } else if tag == 5 {
      r, rest := ParsePointer(input, c, tail);
    } else if tag == 6 {
      r, rest := ParseDeleted(input, c, tail);
    } else if tag == 7 {
      r, rest := ParseNewFile(input, c, tail);
    }
  }

  method ParsePointer(input: Bytes, ghost c: Chunk, ghost tail: Bytes) returns (r: Option<Chunk>, rest: Bytes)
    ensures r.Some? ==> |rest| < |input|
    ensures |input| < WORD && c.Pointer? && ChunkOk(c) && input == Body(c) + tail ==> r == Some(c) && rest == tail
    ensures r.Some? ==> r.value.Pointer?
    ensures forall l, k, t :: ReadsPointer(input, l, k, t) <==> r == Some(Pointer(l, k)) && t == rest
  {
    hide Varint, Prefixed, ReadsNumber, ReadsSlice;
    ghost var key := if c.Pointer? then c.key else [];
    if c.Pointer? { assert Body(c) + tail == Varint(c.level) + (Prefixed(key) + tail); }
    var ok, level, after := GetLevel(input, LevelOf(c), Prefixed(key) + tail);
    if !ok { return None, input; }
    var ok2, k, after2 := GetPrefixed(after, key, tail);
    if !ok2 { return None, input; }
    return Some(Pointer(level, k)), after2;
  }

  method ParseDeleted(input: Bytes, ghost c: Chunk, ghost tail: Bytes) returns (r: Option<Chunk>, rest: Bytes)
    ensures r.Some? ==> |rest| < |input|
    ensures c.Deleted? && ChunkOk(c) && input == Body(c) + tail ==> r == Some(c) && rest == tail
    ensures r.Some? ==> r.value.Deleted?
    ensures forall l, n, t :: ReadsDeleted(input, l, n, t) <==> r == Some(Deleted(l, n)) && t == rest
  {
    hide Varint, Limit, ReadsNumber;
    LimitsOfWidths();
    if c.Deleted? { assert Body(c) + tail == Varint(c.level) + (Varint(c.n) + tail); }
    var ok, level, after := GetLevel(input, LevelOf(c), Varint(NumberOf(c)) + tail);
    if !ok { return None, input; }
    var ok2, n, after2 := GetNumber(after, VARINT64, NumberOf(c), tail);
    if !ok2 { return None, input; }
    assert ReadsNumber(input, VARINT32, level, after) && ReadsNumber(after, VARINT64, n, after2);
    return Some(Deleted(level, n)), after2;
  }

  method ParseNewFile(input: Bytes, ghost c: Chunk, ghost tail: Bytes) returns (r: Option<Chunk>, rest: Bytes)
    ensures r.Some? ==> |rest| < |input|
    ensures |input| < WORD && c.NewFile? && ChunkOk(c) && input == Body(c) + tail ==> r == Some(c) && rest == tail
    ensures r.Some? ==> r.value.NewFile?
    ensures forall l, x, t :: ReadsNewFile(input, l, x, t) <==> r == Some(NewFile(l, x)) && t == rest
  {
    hide Varint, Prefixed, Limit, ReadsNumber, ReadsSlice;
    LimitsOfWidths();
    ghost var f := if c.NewFile? then c.f else FileEntry(0, 0, [], []);
    ghost var t4 := Prefixed(f.largest) + tail;
    ghost var t3 := Prefixed(f.smallest) + t4;
    ghost var t2 := Varint(f.size) + t3;
    ghost var t1 := Varint(f.number) + t2;
    if c.NewFile? {
      Regroup(Varint(c.level), Varint(f.number), Varint(f.size), Prefixed(f.smallest), Prefixed(f.largest), tail);
    }
    var ok, level, after := GetLevel(input, LevelOf(c), t1);
    if !ok { return None, input; }
    var ok1, number, a1 := GetNumber(after, VARINT64, f.number, t2);
    if !ok1 { return None, input; }
    var ok2, size, a2 := GetNumber(a1, VARINT64, f.size, t3);
    if !ok2 { return None, input; }
    var ok3, smallest, a3 := GetPrefixed(a2, f.smallest, t4);
    if !ok3 { return None, input; }
    var ok4, largest, a4 := GetPrefixed(a3, f.largest, tail);
    if !ok4 { return None, input; }
    assert ReadsNumber(input, VARINT32, level, after) && ReadsNumber(after, VARINT64, number, a1);
    assert ReadsNumber(a1, VARINT64, size, a2);
    return Some(NewFile(level, FileEntry(number, size, smallest, largest))), a4;
  }

  lemma Regroup(a: Bytes, b: Bytes, c: Bytes, d: Bytes, e: Bytes, tail: Bytes)
    ensures (a + (b + (c + (d + e)))) + tail == a + (b + (c + (d + (e + tail))))
  {
  }

  ghost predicate ChunksOk(cs: seq<Chunk>) {
    forall i :: 0 <= i < |cs| ==> ChunkOk(cs[i])
  }

  /**
   * DecodeFrom into an edit that has just been cleared.  Clearing leaves the
   * compaction pointers, so those decoded join the ones the object had; into a
   * new object the edit comes back as it was.
   */
  method DecodeFrom(src: Bytes, before: FullEdit, ghost e: FullEdit) returns (ok: bool, r: FullEdit)
    ensures |src| < WORD && Ascending(e.deleted) && ChunksOk(Chunks(e)) && src == Encoded(e) ==>
              ok && r == e.(pointers := before.pointers + e.pointers)
    ensures ok ==> exists cs :: ReadsChunks(src, cs) && r == ApplyChunks(EMPTY.(pointers := before.pointers), cs)
    ensures forall cs :: ReadsChunks(src, cs) ==> ok && r == ApplyChunks(EMPTY.(pointers := before.pointers), cs)
  {
    hide ReadsChunks, ReadsChunk, ReadsBody, ReadsOn, ReadsNumber, Chunks, ChunksBytes, Apply, ApplyChunks, Varint,
        Body, ChunkOk;
    ghost var cs := Chunks(e);
    ghost var good := |src| < WORD && Ascending(e.deleted) && ChunksOk(cs) && src == Encoded(e);
    r := EMPTY.(pointers := before.pointers);
    ghost var start := r;
    var input := src;
    ghost var k := 0;
    StartDecode(start, cs);
    ghost var read: seq<Chunk> := [];
    ReadsStart(src);
    StartDecode(start, read);
    while input != []
      invariant |input| <= |src| && 0 <= k <= |cs|
      invariant ReadsOn(src, read, input) && r == ApplyChunks(start, read)
      invariant good ==> input == ChunksBytes(cs[k..]) && r == ApplyChunks(start, cs[..k])
      decreases |input|
    {
      ghost var c, tail := LogNumber(0), [];
      if good {
        c, tail := NextChunk(cs, k, input);
      }
      LimitsOfWidths();
      var got, tag, rest := GetNumber(input, VARINT32, TagOf(c), Body(c) + tail);
      if !got {
        NoTag(input);
        forall xs ensures !ReadsChunks(src, xs) { ReadsStuck(src, read, input, xs); }
        return false, r;
      }
      var field, after := ParseBody(tag, rest, c, tail);
      TagThenBody(input, tag, rest, field, after);
      if field == None {
        forall xs ensures !ReadsChunks(src, xs) { ReadsStuck(src, read, input, xs); }
        return false, r;
      }
      ReadsNext(src, read, input, field.value, after);
      ReadMore(start, read, field.value);
      read := read + [field.value];
      if good { ApplyNext(start, cs, k); }
      r, input := Apply(r, field.value), after;
      k := if good then k + 1 else k;
    }
    forall xs ensures ReadsChunks(src, xs) <==> xs == read { ReadsEnd(src, read, xs); }
    if good {
      DecodeEnds(cs, k);
      ChunksRebuild(e, before.pointers);
    }
    ok := true;
  }

  lemma NoTag(input: Bytes)
    requires forall v, r :: !ReadsNumber(input, VARINT32, v, r)
    ensures forall x, t :: !ReadsChunk(input, x, t)
  {
  }

  lemma TagThenBody(input: Bytes, tag: nat, rest: Bytes, field: Option<Chunk>, after: Bytes)
    requires forall v, r :: ReadsNumber(input, VARINT32, v, r) <==> v == tag && r == rest
    requires forall x, t :: ReadsBody(tag, rest, x, t) <==> field == Some(x) && t == after
    ensures forall x, t :: ReadsChunk(input, x, t) <==> field == Some(x) && t == after
  {
    hide ReadsNumber, ReadsBody;
    assert ReadsNumber(input, VARINT32, tag, rest);
    if field.Some? {
      assert ReadsBody(tag, rest, field.value, after);
    }
  }

  lemma ReadMore(e: FullEdit, read: seq<Chunk>, c: Chunk)
    ensures ApplyChunks(e, read + [c]) == Apply(ApplyChunks(e, read), c)
  {
    hide Apply;
    assert (read + [c])[..|read|] == read;
  }

  lemma StartDecode(e: FullEdit, cs: seq<Chunk>)
    ensures cs[0..] == cs && ApplyChunks(e, cs[..0]) == e
  {
  }

  lemma NextChunk(cs: seq<Chunk>, k: nat, input: Bytes) returns (c: Chunk, tail: Bytes)
    requires k <= |cs| && input == ChunksBytes(cs[k..]) && input != []
    ensures k < |cs| && c == cs[k] && tail == ChunksBytes(cs[k + 1..]) && input == Varint(TagOf(c)) + (Body(c) + tail)
  {
    c, tail := cs[k], ChunksBytes(cs[k + 1..]);
  }

  lemma ApplyNext(e: FullEdit, cs: seq<Chunk>, k: nat)
    requires k < |cs|
    ensures ApplyChunks(e, cs[..k + 1]) == Apply(ApplyChunks(e, cs[..k]), cs[k])
  {
    hide Apply;
    assert cs[..k + 1][..k] == cs[..k];
  }

  lemma DecodeEnds(cs: seq<Chunk>, k: nat)
    requires k <= |cs| && ChunksBytes(cs[k..]) == []
    ensures cs[..k] == cs
  {
  }

  /** A stored edit, decoded into a new object, is the edit. */
  method RoundTrip(e: FullEdit) returns (ok: bool, r: FullEdit, size: nat)
    requires Ascending(e.deleted) && ChunksOk(Chunks(e))
    ensures size == |Encoded(e)|
    ensures size < WORD ==> ok && r == e
  {
    hide Chunks, ChunksBytes, ChunkOk, Encoded;
    var bytes := EncodeTo(e, []);
    size := |bytes|;
    ok, r := DecodeFrom(bytes, EMPTY, e);
  }
}
