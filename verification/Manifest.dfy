/**
 * The builder object, the manifest it is replayed from, and the version set
 * that writes the manifest (VersionSet::Builder, LogAndApply, WriteSnapshot,
 * Recover in db/version_set.cc).
 */
module Manifest {
  import opened DbFormat
  import opened Version
  import opened Install
  import opened Builder
  import opened Coding
  import opened VersionEdit
  import Log

  /** Adding `e` brings no number the level already knows, and no number twice. */
  ghost predicate AddsFresh(known: set<File>, e: Edit, l: nat) {
    && (forall f :: f in known ==> f.number !in Numbers(AddedAt(e, l)))
    && (forall f, g :: f in AddedAt(e, l) && g in AddedAt(e, l) && f.number == g.number ==> f == g)
  }

  class VersionBuilder {
    const base: Levels
    var deleted: seq<set<nat>>
    var added: seq<seq<File>>

    ghost function At(l: nat): LevelState
      requires l < |deleted| && l < |added|
      reads this
    {
      LevelState(deleted[l], FilesOf(added[l]))
    }

    /** What the builder remembers is what the records say. */
    ghost predicate Collected(recs: seq<Record>)
      reads this
    {
      |deleted| == |added| && forall l :: 0 <= l < |deleted| ==> At(l) == ApplyAll(Fresh(), Edits(recs), l)
    }

    ghost predicate Valid()
      reads this
    {
      && |deleted| == |base| && |added| == |base|
      && LevelsOrdered(base)
      && (forall l :: 0 <= l < |base| ==> OrderedLevel(added[l]))
      && (forall l, f, g :: 0 <= l < |base| && f in base[l] && g in added[l] ==> f.number != g.number)
    }

    constructor (base: Levels)
      requires LevelsOrdered(base)
      ensures Valid() && this.base == base
      ensures forall l :: 0 <= l < |base| ==> At(l) == Fresh()
    {
      this.base := base;
      deleted := seq(|base|, i => {});
      added := seq(|base|, i => []);
    }

    /** Builder::Apply: marks deletions, then adds files, unmarking their numbers. */
    method Apply(e: Edit)
      requires Valid() && EditOk(e, |base|)
      requires forall l :: 0 <= l < |base| ==> AddsFresh(FilesOf(base[l]) + At(l).added, e, l)
      modifies this
      ensures Valid()
      ensures forall l :: 0 <= l < |base| ==> At(l) == ApplyAt(old(At(l)), e, l)
    {
      ghost var was := seq(|base|, l requires 0 <= l < |base| reads this requires Valid() => At(l));
      MarkDeleted(e);
      AddFiles(e, was);
    }

    method MarkDeleted(e: Edit)
      requires Valid() && EditOk(e, |base|)
      modifies this`deleted
      ensures Valid()
      ensures forall l :: 0 <= l < |base| ==> deleted[l] == old(deleted[l]) + DeletedAt(e, l)
    {
      for i := 0 to |e.deleted|
        invariant Valid()
        invariant forall l :: 0 <= l < |base| ==> deleted[l] == old(deleted[l]) + DeletedAt(Edit(e.deleted[..i], []), l)
      {
        var (level, number) := e.deleted[i];
        deleted := deleted[level := deleted[level] + {number}];
        forall l | 0 <= l < |base|
          ensures DeletedAt(Edit(e.deleted[..i + 1], []), l)
                  == DeletedAt(Edit(e.deleted[..i], []), l) + (if l == level then {number} else {})
        {
          DeletedStep(e, i, l);
        }
      }
      assert e.deleted[..|e.deleted|] == e.deleted;
    }

    method AddFiles(e: Edit, ghost was: seq<LevelState>)
      requires Valid() && EditOk(e, |base|) && |was| == |base|
      requires forall l :: 0 <= l < |base| ==> At(l) == LevelState(was[l].deleted + DeletedAt(e, l), was[l].added)
      requires forall l :: 0 <= l < |base| ==> AddsFresh(FilesOf(base[l]) + was[l].added, e, l)
      modifies this
      ensures Valid()
      ensures forall l :: 0 <= l < |base| ==> At(l) == ApplyAt(was[l], e, l)
    {
      for i := 0 to |e.added|
        invariant Valid()
        invariant forall l :: 0 <= l < |base| ==> At(l) == ApplyAt(was[l], Edit(e.deleted, e.added[..i]), l)
      {
        var (level, f) := e.added[i];
        AddOne(level, f, e, i, was);
      }
      assert Edit(e.deleted, e.added[..|e.added|]) == e;
    }

    method AddOne(level: nat, f: File, ghost e: Edit, ghost i: nat, ghost was: seq<LevelState>)
      requires Valid() && EditOk(e, |base|) && |was| == |base| && i < |e.added| && e.added[i] == (level, f)
                 && level < |base|
      requires forall l :: 0 <= l < |base| ==> AddsFresh(FilesOf(base[l]) + was[l].added, e, l)
      requires forall l :: 0 <= l < |base| ==> At(l) == ApplyAt(was[l], Edit(e.deleted, e.added[..i]), l)
      modifies this
      ensures Valid()
      ensures forall l :: 0 <= l < |base| ==> At(l) == ApplyAt(was[l], Edit(e.deleted, e.added[..i + 1]), l)
    {
      hide OrderedLevel, EditOk;
      AddedSoFar(e, i, level, f);
      var fs := InsertFile(added[level], f);
      AlreadyThere(added[level], fs, was[level].added, e, i, level, f);
      deleted := deleted[level := deleted[level] - {f.number}];
      added := added[level := fs];
      hide AddsFresh, ApplyAt;
      forall l | 0 <= l < |base| ensures At(l) == ApplyAt(was[l], Edit(e.deleted, e.added[..i + 1]), l) {
        ApplyAtStep(was[l], e, i, l);
      }
    }

    /** Builder::SaveTo: every level in order, holding exactly the saved files. */
    method SaveTo() returns (v: Levels)
      requires Valid()
      ensures |v| == |base| && LevelsOrdered(v)
      ensures forall l :: 0 <= l < |base| ==> FilesOf(v[l]) == Saved(FilesOf(base[l]), At(l))
    {
      v := [];
      for l := 0 to |base|
        invariant |v| == l && LevelsOrdered(v)
        invariant forall m :: 0 <= m < l ==> FilesOf(v[m]) == Saved(FilesOf(base[m]), At(m))
      {
        var files := SaveLevel(base[l], added[l], deleted[l]);
        v := v + [files];
      }
    }
  }

  lemma DeletedStep(e: Edit, i: nat, l: nat)
    requires i < |e.deleted|
    ensures DeletedAt(Edit(e.deleted[..i + 1], []), l)
            == DeletedAt(Edit(e.deleted[..i], []), l) + (if l == e.deleted[i].0 then {e.deleted[i].1} else {})
  {
  }

  lemma AddedStep(e: Edit, i: nat, l: nat)
    requires i < |e.added|
    ensures AddedAt(Edit(e.deleted, e.added[..i + 1]), l)
            == AddedAt(Edit(e.deleted, e.added[..i]), l) + (if l == e.added[i].0 then {e.added[i].1} else {})
    ensures DeletedAt(Edit(e.deleted, e.added[..i + 1]), l) == DeletedAt(Edit(e.deleted, e.added[..i]), l)
    ensures Numbers(AddedAt(Edit(e.deleted, e.added[..i + 1]), l))
            == Numbers(AddedAt(Edit(e.deleted, e.added[..i]), l))
               + (if l == e.added[i].0 then {e.added[i].1.number} else {})
  {
  }

  /** One more added file in the meaning of an edit at a level. */
  lemma ApplyAtStep(was: LevelState, e: Edit, i: nat, l: nat)
    requires i < |e.added|
    ensures var before, (level, f) := ApplyAt(was, Edit(e.deleted, e.added[..i]), l), e.added[i];
              ApplyAt(was, Edit(e.deleted, e.added[..i + 1]), l) ==
              if l == level then LevelState(before.deleted - {f.number}, before.added + {f}) else before
  {
    AddedStep(e, i, l);
  }

  lemma AddedSoFar(e: Edit, i: nat, level: nat, f: File)
    requires i < |e.added| && e.added[i] == (level, f)
    ensures f in AddedAt(e, level) && f.number in Numbers(AddedAt(e, level))
    ensures AddedAt(Edit(e.deleted, e.added[..i]), level) <= AddedAt(e, level)
  {
  }

  /** Inserting adds the file, whether or not the same file was added before. */
  lemma AlreadyThere(fs: seq<File>, r: seq<File>, was: set<File>, e: Edit, i: nat, level: nat, f: File)
    requires i < |e.added| && e.added[i] == (level, f)
    requires FilesOf(fs) == was + AddedAt(Edit(e.deleted, e.added[..i]), level)
    requires AddsFresh(was, e, level)
    requires (forall g :: g in fs ==> !(Smallest(g) == Smallest(f) && g.number == f.number)) ==>
               FilesOf(r) == FilesOf(fs) + {f}
    requires (exists g :: g in fs && Smallest(g) == Smallest(f) && g.number == f.number) ==> r == fs
    ensures FilesOf(r) == FilesOf(fs) + {f}
    ensures forall g :: g in r ==> g == f || g in fs
  {
  }

  // ---- The version set and its manifest ----

  /** A manifest record: the file edit and what is saved with it. */
  datatype Record = Record(edit: Edit, comparator: Option<Bytes>, logNumber: Option<nat>, prevLogNumber: Option<nat>,
                           nextFile: Option<nat>, lastSequence: Option<nat>, pointers: seq<(nat, Bytes)>)

  ghost function Edits(m: seq<Record>): (es: seq<Edit>)
    ensures |es| == |m| && forall i :: 0 <= i < |m| ==> es[i] == m[i].edit
  {
    if m == [] then [] else Edits(m[..|m| - 1]) + [m[|m| - 1].edit]
  }

  /** The last value a field was given. */
  function LastSet(m: seq<Record>, field: Record -> Option<nat>): Option<nat> {
    if m == [] then None
    else if field(m[|m| - 1]).Some? then field(m[|m| - 1])
    else LastSet(m[..|m| - 1], field)
  }

  const LOG: Record -> Option<nat> := (r: Record) => r.logNumber
  const PREV: Record -> Option<nat> := (r: Record) => r.prevLogNumber
  const NEXT: Record -> Option<nat> := (r: Record) => r.nextFile
  const SEQ: Record -> Option<nat> := (r: Record) => r.lastSequence

  lemma LastSetAppend(m: seq<Record>, r: Record, field: Record -> Option<nat>)
    ensures LastSet(m + [r], field) == if field(r).Some? then field(r) else LastSet(m, field)
  {
  }

  /** All files the manifest ever put in the level. */
  ghost function Known(m: seq<Record>, l: nat): set<File> {
    ApplyAll(Fresh(), Edits(m), l).added
  }

  ghost function Replay(m: seq<Record>, l: nat): set<File> {
    Saved({}, ApplyAll(Fresh(), Edits(m), l))
  }

  lemma ApplyAllAppend(m: seq<Record>, r: Record, l: nat)
    ensures ApplyAll(Fresh(), Edits(m + [r]), l) == ApplyAt(ApplyAll(Fresh(), Edits(m), l), r.edit, l)
    ensures Known(m + [r], l) == Known(m, l) + AddedAt(r.edit, l)
  {
  }

  /** Each record only adds numbers new to their level. */
  ghost predicate Replayable(m: seq<Record>) {
    && (forall n :: 0 <= n < |m| ==> EditOk(m[n].edit, NUM_LEVELS))
    && (forall n, l :: 0 <= n < |m| && 0 <= l < NUM_LEVELS ==> AddsFresh(Known(m[..n], l), m[n].edit, l))
  }

  lemma ReplayableAppend(m: seq<Record>, r: Record)
    requires Replayable(m) && EditOk(r.edit, NUM_LEVELS)
    requires forall l :: 0 <= l < NUM_LEVELS ==> AddsFresh(Known(m, l), r.edit, l)
    ensures Replayable(m + [r])
  {
    var q := m + [r];
    forall n, l | 0 <= n < |q| && 0 <= l < NUM_LEVELS
      ensures AddsFresh(Known(q[..n], l), q[n].edit, l)
    {
      if n < |m| {
        assert q[..n] == m[..n];
      }
    }
  }

  /** A record that adds only fresh numbers replays as one edit on the replayed level. */
  lemma ReplayAppend(m: seq<Record>, r: Record, l: nat)
    requires AddsFresh(Known(m, l), r.edit, l)
    ensures Replay(m + [r], l) == Once(Replay(m, l), r.edit, l)
  {
  }

  ghost predicate DistinctNumbers(fs: seq<File>) {
    forall f, g :: f in fs && g in fs && f.number == g.number ==> f == g
  }

  // ---- Records as bytes ----

  /** How keys and sizes are written, and the table that a stored file entry stands for. */
  datatype Codec = Codec(keyBytes: InternalKey -> Bytes, sizeOf: File -> nat, fileOf: FileEntry -> File)

  function FileEntryOf(c: Codec, f: File): FileEntry {
    FileEntry(f.number, c.sizeOf(f), c.keyBytes(Smallest(f)), c.keyBytes(Largest(f)))
  }

  /** The number and size have 64 bits, and the entry stands for the file. */
  ghost predicate FileFits(c: Codec, f: File) {
    f.number < WORD64 && c.sizeOf(f) < WORD64 && c.fileOf(FileEntryOf(c, f)) == f
  }

  /** The stored form of a record: files by their entries. */
  function StoredEdit(c: Codec, r: Record): FullEdit {
    var added := r.edit.added;
    FullEdit(r.comparator, r.logNumber, r.prevLogNumber, r.nextFile, r.lastSequence, r.pointers, r.edit.deleted,
             seq(|added|, i requires 0 <= i < |added| => (added[i].0, FileEntryOf(c, added[i].1))))
  }

  /** The record a decoded edit stands for. */
  function RecordOf(c: Codec, e: FullEdit): Record {
    var added := seq(|e.added|, i requires 0 <= i < |e.added| => (e.added[i].0, c.fileOf(e.added[i].1)));
    Record(Edit(e.deleted, added), e.comparator, e.logNumber, e.prevLogNumber, e.nextFile, e.lastSequence, e.pointers)
  }

  predicate Fits64(o: Option<nat>) {
    o.Some? ==> o.value < WORD64
  }

  ghost predicate EditFits(c: Codec, e: Edit) {
    && EditOk(e, NUM_LEVELS)
    && (forall x :: x in e.deleted ==> x.1 < WORD64)
    && (forall i :: 0 <= i < |e.added| ==> FileFits(c, e.added[i].1))
  }

  ghost predicate PointersOk(ps: seq<(nat, Bytes)>) {
    forall i :: 0 <= i < |ps| ==> ps[i].0 < NUM_LEVELS
  }

  /** The numbers of a record have 64 bits, its levels exist, and its deletions form an ordered set. */
  ghost predicate RecordFits(c: Codec, r: Record) {
    && Ascending(r.edit.deleted) && EditFits(c, r.edit) && PointersOk(r.pointers)
    && Fits64(r.logNumber) && Fits64(r.prevLogNumber) && Fits64(r.nextFile) && Fits64(r.lastSequence)
  }

  lemma RecordChunksOk(c: Codec, r: Record)
    requires RecordFits(c, r)
    ensures ChunksOk(Chunks(StoredEdit(c, r)))
  {
    var e := StoredEdit(c, r);
    forall i | 0 <= i < |Additions(e)| ensures ChunkOk(Additions(e)[i]) {
      assert FileFits(c, r.edit.added[i].1);
    }
    forall i | 0 <= i < |Deletions(e)| ensures ChunkOk(Deletions(e)[i]) {
      assert e.deleted[i] in r.edit.deleted;
    }
    HeadOk(e);
    JoinedOk(Head(e), Pointers(e));
    JoinedOk(Head(e) + Pointers(e), Deletions(e));
    JoinedOk(Head(e) + Pointers(e) + Deletions(e), Additions(e));
  }

  lemma HeadOk(e: FullEdit)
    requires Fits64(e.logNumber) && Fits64(e.prevLogNumber) && Fits64(e.nextFile) && Fits64(e.lastSequence)
    ensures ChunksOk(Head(e))
  {
  }

  lemma JoinedOk(a: seq<Chunk>, b: seq<Chunk>)
    requires ChunksOk(a) && ChunksOk(b)
    ensures ChunksOk(a + b)
  {
    hide ChunkOk;
  }

  /** What is stored stands for the record again. */
  lemma StoredNamesRecord(c: Codec, r: Record)
    requires RecordFits(c, r)
    ensures RecordOf(c, StoredEdit(c, r)) == r
  {
    var e := StoredEdit(c, r);
    forall i | 0 <= i < |e.added| ensures c.fileOf(e.added[i].1) == r.edit.added[i].1 {
      assert FileFits(c, r.edit.added[i].1);
    }
    assert RecordOf(c, e).edit.added == r.edit.added;
  }

  ghost predicate StoredAs(c: Codec, b: Bytes, r: Record) {
    RecordFits(c, r) && b == Encoded(StoredEdit(c, r))
  }

  /** The bytes of a list of records. */
  ghost predicate Stored(c: Codec, m: seq<Bytes>, recs: seq<Record>) {
    |m| == |recs| && forall i :: 0 <= i < |m| ==> StoredAs(c, m[i], recs[i])
  }

  method EncodeRecord(c: Codec, r: Record) returns (b: Bytes)
    requires RecordFits(c, r)
    ensures StoredAs(c, b, r)
  {
    hide RecordFits;
    b := EncodeTo(StoredEdit(c, r), []);
  }

  /** A stored record decodes to itself. */
  method DecodeRecord(c: Codec, b: Bytes, ghost r: Record) returns (ok: bool, got: Record)
    ensures StoredAs(c, b, r) && |b| < WORD ==> ok && got == r
  {
    hide Encoded, Chunks;
    ghost var e := StoredEdit(c, r);
    if StoredAs(c, b, r) {
      RecordChunksOk(c, r);
      StoredNamesRecord(c, r);
    }
    var e';
    ok, e' := DecodeFrom(b, EMPTY, e);
    got := RecordOf(c, e');
  }

  /** Files of a replayable manifest have distinct numbers in a level, and fit. */
  lemma {:induction false} KnownFiles(c: Codec, m: seq<Record>, l: nat)
    requires Replayable(m) && l < NUM_LEVELS && forall i :: 0 <= i < |m| ==> RecordFits(c, m[i])
    ensures forall f, g :: f in Known(m, l) && g in Known(m, l) && f.number == g.number ==> f == g
    ensures forall f :: f in Known(m, l) ==> FileFits(c, f)
  {
    hide FileFits;
    if m == [] {
    } else {
      var n := |m| - 1;
      var before := m[..n];
      assert m == before + [m[n]];
      forall i | 0 <= i < n ensures before[..i] == m[..i] {}
      KnownFiles(c, before, l);
      ApplyAllAppend(before, m[n], l);
      assert AddsFresh(Known(before, l), m[n].edit, l);
    }
  }

  // ---- Compaction pointers ----

  function NoPointers(): (r: seq<Bytes>)
    ensures |r| == NUM_LEVELS && forall l :: 0 <= l < NUM_LEVELS ==> r[l] == []
  {
    [[], [], [], [], [], [], []]
  }

  function SetPointers(cp: seq<Bytes>, ps: seq<(nat, Bytes)>): (r: seq<Bytes>)
    ensures |r| == |cp|
  {
    if ps == [] then cp
    else
      var before, (l, key) := SetPointers(cp, ps[..|ps| - 1]), ps[|ps| - 1];
      if l < |cp| then before[l := key] else before
  }

  ghost function PointersOf(m: seq<Record>): (r: seq<Bytes>)
    ensures |r| == NUM_LEVELS
  {
    if m == [] then NoPointers() else SetPointers(PointersOf(m[..|m| - 1]), m[|m| - 1].pointers)
  }

  lemma PointersAppend(m: seq<Record>, r: Record)
    ensures PointersOf(m + [r]) == SetPointers(PointersOf(m), r.pointers)
  {
    assert (m + [r])[..|m|] == m;
  }

  /** Saving the pointers that are set and setting them again gives them back. */
  method SavePointers(cp: seq<Bytes>) returns (ps: seq<(nat, Bytes)>)
    requires |cp| == NUM_LEVELS
    ensures SetPointers(NoPointers(), ps) == cp
    ensures PointersOk(ps)
  {
    hide SetPointers;
    ps := [];
    NoneSet(NoPointers());
    for level := 0 to NUM_LEVELS
      invariant forall l :: 0 <= l < NUM_LEVELS ==> SetPointers(NoPointers(), ps)[l] == if l < level then cp[l] else []
      invariant PointersOk(ps)
    {
      if cp[level] != [] {
        OneMoreSet(NoPointers(), ps, level, cp[level]);
        ps := ps + [(level, cp[level])];
      }
    }
  }

  lemma NoneSet(cp: seq<Bytes>)
    ensures SetPointers(cp, []) == cp
  {
  }

  lemma OneMoreSet(cp: seq<Bytes>, ps: seq<(nat, Bytes)>, l: nat, key: Bytes)
    requires l < |cp|
    ensures SetPointers(cp, ps + [(l, key)]) == SetPointers(cp, ps)[l := key]
  {
    assert (ps + [(l, key)])[..|ps|] == ps;
  }

  ghost predicate NamesLevel(ps: seq<(nat, Bytes)>, l: nat) {
    exists i :: 0 <= i < |ps| && ps[i].0 == l
  }

  /** A level's pointer is the last one given for it, or else the one it had. */
  lemma {:induction false} SetPointersAt(a: seq<Bytes>, b: seq<Bytes>, ps: seq<(nat, Bytes)>, l: nat)
    requires |a| == |b| && l < |a|
    ensures NamesLevel(ps, l) ==> SetPointers(a, ps)[l] == SetPointers(b, ps)[l]
    ensures !NamesLevel(ps, l) ==> SetPointers(a, ps)[l] == a[l]
  {
    if ps == [] {
    } else {
      var before := ps[..|ps| - 1];
      SetPointersAt(a, b, before, l);
      assert forall i :: 0 <= i < |before| ==> before[i] == ps[i];
      assert NamesLevel(ps, l) <==> NamesLevel(before, l) || ps[|ps| - 1].0 == l;
    }
  }

  lemma SetAgain(cp: seq<Bytes>, ps: seq<(nat, Bytes)>)
    ensures SetPointers(SetPointers(cp, ps), ps) == SetPointers(cp, ps)
  {
    hide SetPointers;
    var once := SetPointers(cp, ps);
    forall l | 0 <= l < |cp| ensures SetPointers(once, ps)[l] == once[l] {
      SetPointersAt(once, cp, ps, l);
    }
  }

  // ---- Deleted files as an ordered set ----

  lemma {:induction false} InsertPairIs(s: seq<(nat, nat)>, x: (nat, nat))
    requires Ascending(s)
    ensures Ascending(InsertPair(s, x)) && forall y :: y in InsertPair(s, x) <==> y in s || y == x
  {
    if s == [] {
    } else {
      assert s == [s[0]] + s[1..];
      if PairLess(s[0], x) {
        InsertPairIs(s[1..], x);
        forall y | y in InsertPair(s[1..], x) ensures PairLess(s[0], y) {}
      }
    }
  }

  /** VersionEdit::DeleteFile of each pair. */
  method OrderDeleted(deleted: seq<(nat, nat)>) returns (r: seq<(nat, nat)>)
    ensures Ascending(r) && forall x :: x in r <==> x in deleted
  {
    r := [];
    for i := 0 to |deleted|
      invariant Ascending(r) && forall x :: x in r <==> x in deleted[..i]
    {
      InsertPairIs(r, deleted[i]);
      r := InsertPair(r, deleted[i]);
    }
    assert deleted[..|deleted|] == deleted;
  }

  /** The order of deletions does not matter. */
  lemma SameDeletions(e: Edit, ordered: seq<(nat, nat)>, l: nat)
    requires forall x :: x in ordered <==> x in e.deleted
    ensures DeletedAt(Edit(ordered, e.added), l) == DeletedAt(e, l)
              && AddedAt(Edit(ordered, e.added), l) == AddedAt(e, l)
  {
    forall n ensures n in DeletedAt(Edit(ordered, e.added), l) <==> n in DeletedAt(e, l) {
      if i :| 0 <= i < |ordered| && ordered[i].0 == l && ordered[i].1 == n {
        assert ordered[i] in e.deleted;
        var k :| 0 <= k < |e.deleted| && e.deleted[k] == ordered[i];
        assert e.deleted[k].0 == l && e.deleted[k].1 == n;
      }
      if k :| 0 <= k < |e.deleted| && e.deleted[k].0 == l && e.deleted[k].1 == n {
        assert e.deleted[k] in ordered;
        var i :| 0 <= i < |ordered| && ordered[i] == e.deleted[k];
        assert ordered[i].0 == l && ordered[i].1 == n;
      }
    }
  }

  // ---- The version set ----

  ghost predicate AllFit(c: Codec, fs: seq<File>) {
    forall f :: f in fs ==> FileFits(c, f)
  }

  ghost predicate ComparatorIs(name: Bytes, m: seq<Record>) {
    forall i :: 0 <= i < |m| ==> m[i].comparator == None || m[i].comparator == Some(name)
  }

  /** Levels in order, with distinct numbers that fit the stored form. */
  ghost predicate VersionOk(c: Codec, v: Levels) {
    && |v| == NUM_LEVELS && LevelsOrdered(v)
    && forall l :: 0 <= l < NUM_LEVELS ==> DistinctNumbers(v[l]) && AllFit(c, v[l])
  }

  ghost predicate NoFiles(v: Levels) {
    |v| == NUM_LEVELS && forall l :: 0 <= l < NUM_LEVELS ==> v[l] == []
  }

  lemma NoFilesOrdered(v: Levels)
    requires NoFiles(v)
    ensures LevelsOrdered(v) && |v| == NUM_LEVELS
  {
  }

  ghost predicate ReplaysTo(recs: seq<Record>, v: Levels) {
    |v| == NUM_LEVELS && forall l :: 0 <= l < NUM_LEVELS ==> FilesOf(v[l]) == Replay(recs, l)
  }

  /** The files whose numbers an edit must not bring back to a level. */
  ghost function KnownAt(recs: seq<Record>, v: Levels, l: nat): set<File>
    requires l < |v|
  {
    if recs == [] then FilesOf(v[l]) else Known(recs, l)
  }

  ghost predicate FreshFor(recs: seq<Record>, v: Levels, e: Edit) {
    |v| == NUM_LEVELS && forall l :: 0 <= l < NUM_LEVELS ==> AddsFresh(KnownAt(recs, v, l), e, l)
  }

  /** `v'` is `v` after the edit. */
  ghost predicate Edited(v: Levels, e: Edit, v': Levels) {
    && |v| == NUM_LEVELS && |v'| == NUM_LEVELS
    && forall l :: 0 <= l < NUM_LEVELS ==> FilesOf(v'[l]) == Once(FilesOf(v[l]), e, l)
  }

  ghost predicate AllNumbers(r: Record) {
    r.logNumber.Some? && r.prevLogNumber.Some? && r.nextFile.Some? && r.lastSequence.Some?
  }

  ghost predicate NoNumbers(r: Record) {
    r.logNumber == None && r.prevLogNumber == None && r.nextFile == None && r.lastSequence == None
  }

  /** A snapshot without numbers, then records with all of them. */
  ghost predicate SnapshotFirst(recs: seq<Record>) {
    && recs != [] && NoNumbers(recs[0])
    && forall i :: 1 <= i < |recs| ==> AllNumbers(recs[i])
  }

  /** The first records give the numbers as soon as one follows the snapshot. */
  lemma NumbersFromSecond(recs: seq<Record>, k: nat)
    requires SnapshotFirst(recs) && k <= |recs|
    ensures LastSet(recs[..k], NEXT).Some? && LastSet(recs[..k], LOG).Some? && LastSet(recs[..k], SEQ).Some? <==> k >= 2
  {
    if k >= 2 {
      assert AllNumbers(recs[k - 1]);
    }
  }

  /** Replaying the records gives the version and its log numbers. */
  ghost predicate Describes(name: Bytes, recs: seq<Record>, v: Levels, logNumber: nat, prevLogNumber: nat) {
    && Replayable(recs) && ComparatorIs(name, recs) && ReplaysTo(recs, v) && SnapshotFirst(recs)
    && LastSet(recs, LOG) == Some(logNumber) && LastSet(recs, PREV) == Some(prevLogNumber)
    && LastSet(recs, NEXT).Some? && LastSet(recs, SEQ).Some?
  }

  function Or(o: Option<nat>, n: nat): nat {
    if o.Some? then o.value else n
  }

  class VersionSet {
    const name: Bytes
    const codec: Codec
    var current: Levels
    var logNumber: nat
    var prevLogNumber: nat
    var nextFile: nat
    var lastSequence: nat
    var compactPointers: seq<Bytes>
    var manifest: seq<Bytes>
    ghost var records: seq<Record>

    ghost predicate Valid()
      reads this
    {
      && VersionOk(codec, current) && |compactPointers| == NUM_LEVELS
      && logNumber < WORD64 && prevLogNumber < WORD64 && nextFile < WORD64 && lastSequence < WORD64
      && Stored(codec, manifest, records)
      && (manifest != [] ==> Describes(name, records, current, logNumber, prevLogNumber))
    }

    /** No compaction pointer was set without being recorded. */
    ghost predicate PointersRecorded()
      reads this
    {
      manifest != [] ==> compactPointers == PointersOf(records)
    }

    /** The version set before recovery: no file in any level. */
    constructor (name: Bytes, codec: Codec)
      ensures Valid() && manifest == [] && this.name == name && this.codec == codec
      ensures NoFiles(current)
      ensures compactPointers == NoPointers()
    {
      this.name, this.codec := name, codec;
      current := seq(NUM_LEVELS, i => []);
      logNumber, prevLogNumber, nextFile, lastSequence := 0, 0, 2, 0;
      compactPointers := NoPointers();
      manifest, records := [], [];
    }

    /**
     * LogAndApply: appends the encoded edit to the manifest (after a snapshot
     * if it is new) and installs the version; if the write fails, only the
     * compaction pointers have changed.
     */
    method LogAndApply(edit: Edit, log: Option<nat>, prev: Option<nat>, pointers: seq<(nat, Bytes)>, written: bool)
      requires Valid() && EditFits(codec, edit) && Fits64(log) && Fits64(prev) && PointersOk(pointers)
      requires FreshFor(records, current, edit)
      modifies this
      ensures Valid() && nextFile == old(nextFile) && lastSequence == old(lastSequence)
      ensures compactPointers == SetPointers(old(compactPointers), pointers)
      ensures !written ==> current == old(current) && manifest == old(manifest) && records == old(records)
                           && logNumber == old(logNumber) && prevLogNumber == old(prevLogNumber)
      ensures written ==> Edited(old(current), edit, current) && old(manifest) < manifest
      ensures written ==> logNumber == Or(log, old(logNumber)) && prevLogNumber == Or(prev, old(prevLogNumber))
      ensures written ==> LastSet(records, NEXT) == Some(nextFile) && LastSet(records, SEQ) == Some(lastSequence)
      ensures written && old(PointersRecorded()) ==> PointersRecorded()
    {
      hide EditFits, FreshFor, Edited, SetPointers, LastSet, Describes, Stored, VersionOk;
      var ordered := OrderDeleted(edit.deleted);
      var rec := Record(Edit(ordered, edit.added), None, Some(Or(log, logNumber)), Some(Or(prev, prevLogNumber)),
                        Some(nextFile), Some(lastSequence), pointers);
      SameEdit(codec, records, current, edit, rec.edit);
      var v := BuildNext(rec.edit);
      EditedTheSame(current, edit, rec.edit, v);
      ghost var was := compactPointers;
      compactPointers := SetPointers(compactPointers, pointers);
      if written {
        WriteRecord(rec, v, was);
      }
    }

    /** Writes the record, after a snapshot if the manifest is new, and installs the version. */
    method WriteRecord(rec: Record, v: Levels, ghost was: seq<Bytes>)
      requires Valid() && RecordFits(codec, rec) && rec.comparator == None
      requires rec.logNumber.Some? && rec.prevLogNumber.Some?
      requires rec.nextFile == Some(nextFile) && rec.lastSequence == Some(lastSequence)
      requires FreshFor(records, current, rec.edit) && VersionOk(codec, v) && Edited(current, rec.edit, v)
      requires compactPointers == SetPointers(was, rec.pointers)
      modifies this`manifest, this`records, this`current, this`logNumber, this`prevLogNumber
      ensures Valid() && old(manifest) < manifest && current == v
      ensures logNumber == rec.logNumber.value && prevLogNumber == rec.prevLogNumber.value
      ensures LastSet(records, NEXT) == Some(nextFile) && LastSet(records, SEQ) == Some(lastSequence)
      ensures old(manifest == [] || was == PointersOf(records)) ==> compactPointers == PointersOf(records)
    {
      hide FreshFor, Edited, SetPointers, LastSet, Describes, VersionOk, PointersOf, FileFits;
      var m, recs := ManifestSoFar();
      var bytes := EncodeRecord(codec, rec);
      SetAgain(was, rec.pointers);
      AppendRecord(name, recs, rec, records, current, v);
      PointersAppend(recs, rec);
      manifest, records := m + [bytes], recs + [rec];
      current := v;
      logNumber := rec.logNumber.value;
      prevLogNumber := rec.prevLogNumber.value;
    }

    /** The version that applying the edit to the current one gives. */
    method BuildNext(edit: Edit) returns (v: Levels)
      requires Valid() && EditFits(codec, edit) && FreshFor(records, current, edit)
      ensures VersionOk(codec, v) && Edited(current, edit, v)
    {
      forall l | 0 <= l < NUM_LEVELS ensures AddsFresh(FilesOf(current[l]) + Fresh().added, edit, l) {
        assert AddsFresh(KnownAt(records, current, l), edit, l);
        CurrentIsKnown(l);
      }
      var builder := new VersionBuilder(current);
      builder.Apply(edit);
      v := builder.SaveTo();
      forall l | 0 <= l < NUM_LEVELS
        ensures FilesOf(v[l]) == Once(FilesOf(current[l]), edit, l) && DistinctNumbers(v[l]) && AllFit(codec, v[l])
      {
        OnceKeepsDistinct(current[l], v[l], edit, l);
        OnceFits(codec, current[l], v[l], edit, l);
      }
    }

    lemma CurrentIsKnown(l: nat)
      requires Valid() && l < NUM_LEVELS
      ensures forall f :: f in current[l] ==> f in KnownAt(records, current, l)
    {
      assert forall f :: f in current[l] <==> f in FilesOf(current[l]);
    }

    /** The manifest to append to: a snapshot of the current version if there is none yet. */
    method ManifestSoFar() returns (m: seq<Bytes>, ghost recs: seq<Record>)
      requires Valid()
      ensures manifest <= m && Stored(codec, m, recs) && Replayable(recs) && ComparatorIs(name, recs)
      ensures ReplaysTo(recs, current) && KnownFrom(recs, records, current) && SnapshotFirst(recs)
      ensures if manifest == [] then PointersOf(recs) == compactPointers else recs == records
    {
      hide VersionOk, StoredAs, Replayable, Replay, NoNumbers, AllNumbers, LastSet, PointersOf, Known, FilesOf;
      m, recs := manifest, records;
      if m == [] {
        m, recs := WriteSnapshot();
      }
    }

    /** WriteSnapshot: one record with the comparator, the pointers and every file of the current version. */
    method WriteSnapshot() returns (m: seq<Bytes>, ghost recs: seq<Record>)
      requires Valid()
      ensures Stored(codec, m, recs) && |m| == 1 && Replayable(recs)
      ensures recs[0].comparator == Some(name) && PointersOf(recs) == compactPointers
      ensures ReplaysTo(recs, current) && KnownFrom(recs, [], current) && SnapshotFirst(recs)
    {
      var pointers := SavePointers(compactPointers);
      var added := AllFiles();
      var rec := Record(Edit([], added), Some(name), None, None, None, None, pointers);
      var bytes := EncodeRecord(codec, rec);
      m, recs := [bytes], [rec];
      SnapshotReplays(codec, rec, current);
      PointersAppend([], rec);
      assert [] + [rec] == recs;
    }

    /** Every file of the current version with its level. */
    method AllFiles() returns (added: seq<(nat, File)>)
      requires Valid()
      ensures EditFits(codec, Edit([], added))
      ensures forall l :: 0 <= l < NUM_LEVELS ==> AddedAt(Edit([], added), l) == FilesOf(current[l])
    {
      hide FileFits;
      added := [];
      for level := 0 to NUM_LEVELS
        invariant EditFits(codec, Edit([], added))
        invariant forall l :: 0 <= l < NUM_LEVELS ==>
                    AddedAt(Edit([], added), l) == if l < level then FilesOf(current[l]) else {}
      {
        added := AddLevel(codec, added, level, current[level]);
      }
    }

    /**
     * Recover: one builder over the whole manifest.  It fails exactly when a
     * record names another comparator or one of three numbers is never given.
     */
    method Recover(m: seq<Bytes>, ghost recs: seq<Record>) returns (ok: bool)
      requires Valid() && manifest == [] && compactPointers == NoPointers()
      requires NoFiles(current) && Stored(codec, m, recs) && Replayable(recs)
      requires forall i :: 0 <= i < |m| ==> |m[i]| < WORD
      modifies this
      ensures Valid() && manifest == []
      ensures ok <==> Recoverable(name, recs)
      ensures ok ==> HoldsReplay(recs)
      ensures !ok ==> current == old(current)
    {
      hide VersionOk, Replayable, LastSet, PointersOf, SetPointers, ComparatorIs, Describes, ReplaysTo;
      NoFilesOrdered(current);
      var builder := new VersionBuilder(current);
      var s, fields := ReadManifest(builder, m, recs);
      ok := s && fields.next.Some? && fields.log.Some? && fields.last.Some?;
      if s {
        FieldsFit(codec, m, recs);
        hide Stored, NoFiles;
        MarkFileNumberUsed(Or(fields.prev, 0));
        MarkFileNumberUsed(Or(fields.log, 0));
      }
      if ok {
        var v := builder.SaveTo();
        RecoveredFits(codec, m, recs, builder, v);
        current := v;
        nextFile := (fields.next.value + 1) % WORD64;
        lastSequence, logNumber, prevLogNumber := fields.last.value, fields.log.value, Or(fields.prev, 0);
      }
    }

    /** The recovery loop. */
    method ReadManifest(builder: VersionBuilder, m: seq<Bytes>, ghost recs: seq<Record>)
      returns (s: bool, fields: Fields)
      requires builder.Valid() && NoFiles(builder.base) && builder.Collected([]) && compactPointers == NoPointers()
      requires Stored(codec, m, recs) && Replayable(recs) && forall i :: 0 <= i < |m| ==> |m[i]| < WORD
      modifies builder, this`compactPointers
      ensures builder.Valid() && |compactPointers| == NUM_LEVELS
      ensures s <==> ComparatorIs(name, recs)
      ensures s ==> builder.Collected(recs) && fields == FieldsOf(recs) && compactPointers == PointersOf(recs)
    {
      hide Replayable, LastSet, PointersOf, SetPointers, ComparatorIs, RecordFits, VersionBuilder.Collected;
      var i := 0;
      s, fields := true, Fields(None, None, None, None);
      StartRecovery(name);
      while i < |m| && s
        invariant 0 <= i <= |m| && builder.Valid() && |compactPointers| == NUM_LEVELS
        invariant s <==> ComparatorIs(name, recs[..i])
        invariant s ==>
                    && builder.Collected(recs[..i]) && fields == FieldsOf(recs[..i])
                    && compactPointers == PointersOf(recs[..i])
      {
        s, fields := RecoverOne(builder, m[i], fields, recs, i);
        i := i + 1;
      }
      Finished(name, recs, i);
    }

    /** One turn of the recovery loop. */
    method RecoverOne(builder: VersionBuilder, record: Bytes, before: Fields, ghost recs: seq<Record>, ghost i: nat)
      returns (s: bool, fields: Fields)
      requires builder.Valid() && NoFiles(builder.base)
      requires i < |recs| && Replayable(recs) && StoredAs(codec, record, recs[i]) && |record| < WORD
      requires ComparatorIs(name, recs[..i]) && builder.Collected(recs[..i])
      requires before == FieldsOf(recs[..i]) && compactPointers == PointersOf(recs[..i])
      modifies builder, this`compactPointers
      ensures builder.Valid() && |compactPointers| == NUM_LEVELS
      ensures s <==> ComparatorIs(name, recs[..i + 1])
      ensures s ==> builder.Collected(recs[..i + 1]) && fields == FieldsOf(recs[..i + 1])
                    && compactPointers == PointersOf(recs[..i + 1])
    {
      hide LastSet, PointersOf, SetPointers, AddsFresh, Replayable, EditOk, ComparatorIs, ApplyAll, ApplyAt, RecordFits;
      hide FilesOf, OrderedLevel;
      var got;
      s, got := DecodeRecord(codec, record, recs[i]);
      OneMoreRecord(name, recs, i);
      if s && got.comparator.Some? && got.comparator.value != name {
        s := false;
      }
      if s {
        FreshInBuilder(recs, i, builder);
        builder.Apply(got.edit);
        compactPointers := SetPointers(compactPointers, got.pointers);
      }
      fields := Fields(NewerField(before.log, got.logNumber), NewerField(before.prev, got.prevLogNumber),
                       NewerField(before.next, got.nextFile), NewerField(before.last, got.lastSequence));
    }

    method MarkFileNumberUsed(number: nat)
      requires Valid() && number < WORD64
      modifies this`nextFile
      ensures Valid()
      ensures nextFile == if old(nextFile) <= number then (number + 1) % WORD64 else old(nextFile)
    {
      if nextFile <= number {
        nextFile := (number + 1) % WORD64;
      }
    }

    /** What is installed is the replay of the records. */
    ghost predicate HoldsReplay(recs: seq<Record>)
      reads this
    {
      && ReplaysTo(recs, current)
      && LastSet(recs, LOG) == Some(logNumber) && LastSet(recs, SEQ) == Some(lastSequence)
      && prevLogNumber == Or(LastSet(recs, PREV), 0)
      && LastSet(recs, NEXT).Some? && nextFile == (LastSet(recs, NEXT).value + 1) % WORD64
      && compactPointers == PointersOf(recs)
    }
  }

  lemma FreshInBuilder(recs: seq<Record>, i: nat, builder: VersionBuilder)
    requires Replayable(recs) && i < |recs| && builder.Valid() && builder.Collected(recs[..i])
    requires NoFiles(builder.base)
    ensures EditOk(recs[i].edit, NUM_LEVELS)
    ensures forall l :: 0 <= l < NUM_LEVELS ==>
              AddsFresh(FilesOf(builder.base[l]) + builder.At(l).added, recs[i].edit, l)
  {
    forall l | 0 <= l < NUM_LEVELS
      ensures AddsFresh(FilesOf(builder.base[l]) + builder.At(l).added, recs[i].edit, l)
    {
      assert FilesOf(builder.base[l]) + builder.At(l).added == Known(recs[..i], l);
    }
  }

  lemma RecoveredFits(c: Codec, m: seq<Bytes>, recs: seq<Record>, builder: VersionBuilder, v: Levels)
    requires builder.Valid() && builder.Collected(recs)
    requires NoFiles(builder.base)
    requires Stored(c, m, recs) && Replayable(recs)
    requires |v| == NUM_LEVELS && LevelsOrdered(v)
    requires forall l :: 0 <= l < NUM_LEVELS ==> FilesOf(v[l]) == Saved(FilesOf(builder.base[l]), builder.At(l))
    ensures ReplaysTo(recs, v) && VersionOk(c, v)
  {
    hide FileFits;
    forall l | 0 <= l < NUM_LEVELS
      ensures FilesOf(v[l]) == Replay(recs, l) && DistinctNumbers(v[l]) && AllFit(c, v[l])
    {
      assert FilesOf(builder.base[l]) == {};
      assert forall i :: 0 <= i < |recs| ==> StoredAs(c, m[i], recs[i]);
      KnownFiles(c, recs, l);
      assert forall f :: f in v[l] <==> f in FilesOf(v[l]);
    }
  }

  lemma StartRecovery(name: Bytes)
    ensures ComparatorIs(name, []) && FieldsOf([]) == Fields(None, None, None, None) && PointersOf([]) == NoPointers()
    ensures forall l :: ApplyAll(Fresh(), Edits([]), l) == Fresh()
  {
  }

  /** A record that names another comparator stays one of the records. */
  lemma Finished(name: Bytes, recs: seq<Record>, i: nat)
    requires i <= |recs|
    ensures i == |recs| ==> recs[..i] == recs
    ensures !ComparatorIs(name, recs[..i]) ==> !ComparatorIs(name, recs)
  {
  }

  ghost predicate Recoverable(name: Bytes, recs: seq<Record>) {
    && ComparatorIs(name, recs)
    && LastSet(recs, NEXT).Some? && LastSet(recs, LOG).Some? && LastSet(recs, SEQ).Some?
  }

  /** The numbers gathered from the records read so far. */
  datatype Fields = Fields(log: Option<nat>, prev: Option<nat>, next: Option<nat>, last: Option<nat>)

  ghost function FieldsOf(recs: seq<Record>): Fields {
    Fields(LastSet(recs, LOG), LastSet(recs, PREV), LastSet(recs, NEXT), LastSet(recs, SEQ))
  }

  function NewerField(o: Option<nat>, n: Option<nat>): Option<nat> {
    if n.Some? then n else o
  }

  /** What the replay of one more record changes. */
  lemma OneMoreRecord(name: Bytes, recs: seq<Record>, i: nat)
    requires i < |recs|
    ensures var (before, now, r) := (recs[..i], recs[..i + 1], recs[i]);
              && (ComparatorIs(name, now) <==>
                  ComparatorIs(name, before) && (r.comparator.Some? ==> r.comparator.value == name))
              && LastSet(now, LOG) == NewerField(LastSet(before, LOG), r.logNumber)
              && LastSet(now, PREV) == NewerField(LastSet(before, PREV), r.prevLogNumber)
              && LastSet(now, NEXT) == NewerField(LastSet(before, NEXT), r.nextFile)
              && LastSet(now, SEQ) == NewerField(LastSet(before, SEQ), r.lastSequence)
              && PointersOf(now) == SetPointers(PointersOf(before), r.pointers)
              && (forall l ::
                    ApplyAll(Fresh(), Edits(now), l) == ApplyAt(ApplyAll(Fresh(), Edits(before), l), r.edit, l))
  {
    var before, r := recs[..i], recs[i];
    assert recs[..i + 1] == before + [r];
    LastSetAppend(before, r, LOG);
    LastSetAppend(before, r, PREV);
    LastSetAppend(before, r, NEXT);
    LastSetAppend(before, r, SEQ);
    PointersAppend(before, r);
    forall l
      ensures ApplyAll(Fresh(), Edits(before + [r]), l) == ApplyAt(ApplyAll(Fresh(), Edits(before), l), r.edit, l)
    {
      ApplyAllAppend(before, r, l);
    }
  }

  lemma FieldsFit(c: Codec, m: seq<Bytes>, recs: seq<Record>)
    requires Stored(c, m, recs)
    ensures var f := FieldsOf(recs); Fits64(f.log) && Fits64(f.prev) && Fits64(f.next) && Fits64(f.last)
  {
    assert forall i :: 0 <= i < |recs| ==> StoredAs(c, m[i], recs[i]);
    NumbersFit(c, recs, LOG);
    NumbersFit(c, recs, PREV);
    NumbersFit(c, recs, NEXT);
    NumbersFit(c, recs, SEQ);
  }

  lemma {:induction false} NumbersFit(c: Codec, recs: seq<Record>, field: Record -> Option<nat>)
    requires forall i :: 0 <= i < |recs| ==> RecordFits(c, recs[i])
    requires field == LOG || field == PREV || field == NEXT || field == SEQ
    ensures Fits64(LastSet(recs, field))
  {
    if recs == [] {
    } else {
      NumbersFit(c, recs[..|recs| - 1], field);
    }
  }

  /** The edit with its deletions in order is the same edit. */
  lemma SameEdit(c: Codec, recs: seq<Record>, v: Levels, edit: Edit, e: Edit)
    requires EditFits(c, edit) && e.added == edit.added && forall x :: x in e.deleted <==> x in edit.deleted
    requires FreshFor(recs, v, edit)
    ensures EditFits(c, e) && FreshFor(recs, v, e)
  {
    forall i | 0 <= i < |e.deleted| ensures e.deleted[i].0 < NUM_LEVELS {
      assert e.deleted[i] in edit.deleted;
    }
    forall l | 0 <= l < NUM_LEVELS ensures AddsFresh(KnownAt(recs, v, l), e, l) {
      SameDeletions(edit, e.deleted, l);
      assert AddsFresh(KnownAt(recs, v, l), edit, l);
    }
  }

  lemma EditedTheSame(v: Levels, edit: Edit, e: Edit, v': Levels)
    requires e.added == edit.added && forall x :: x in e.deleted <==> x in edit.deleted
    ensures Edited(v, edit, v') <==> Edited(v, e, v')
  {
    forall l ensures DeletedAt(e, l) == DeletedAt(edit, l) && AddedAt(e, l) == AddedAt(edit, l) {
      SameDeletions(edit, e.deleted, l);
    }
  }

  /** The records know of each level what the version set before them did. */
  ghost predicate KnownFrom(recs: seq<Record>, was: seq<Record>, v: Levels) {
    |v| == NUM_LEVELS && forall l :: 0 <= l < NUM_LEVELS ==> Known(recs, l) == KnownAt(was, v, l)
  }

  /** The manifest with the new record describes the new version. */
  lemma AppendRecord(name: Bytes, m: seq<Record>, rec: Record, was: seq<Record>, v: Levels, v': Levels)
    requires Replayable(m) && ComparatorIs(name, m) && ReplaysTo(m, v) && KnownFrom(m, was, v)
    requires EditOk(rec.edit, NUM_LEVELS) && FreshFor(was, v, rec.edit) && Edited(v, rec.edit, v')
               && rec.comparator == None
    requires SnapshotFirst(m) && AllNumbers(rec)
    ensures Describes(name, m + [rec], v', rec.logNumber.value, rec.prevLogNumber.value)
    ensures LastSet(m + [rec], NEXT) == rec.nextFile && LastSet(m + [rec], SEQ) == rec.lastSequence
  {
    hide AddsFresh, Known, Replay, LastSet, FilesOf, Once;
    forall l | 0 <= l < NUM_LEVELS ensures AddsFresh(Known(m, l), rec.edit, l) {
      assert AddsFresh(KnownAt(was, v, l), rec.edit, l);
    }
    ReplayableAppend(m, rec);
    forall l | 0 <= l < NUM_LEVELS ensures FilesOf(v'[l]) == Replay(m + [rec], l) {
      ReplayAppend(m, rec, l);
    }
    hide Replayable;
    LastSetAppend(m, rec, LOG);
    LastSetAppend(m, rec, PREV);
    LastSetAppend(m, rec, NEXT);
    LastSetAppend(m, rec, SEQ);
  }

  lemma SnapshotReplays(c: Codec, r: Record, v: Levels)
    requires VersionOk(c, v) && EditOk(r.edit, NUM_LEVELS) && r.edit.deleted == []
    requires forall l :: 0 <= l < NUM_LEVELS ==> AddedAt(r.edit, l) == FilesOf(v[l])
    ensures Replayable([r]) && ReplaysTo([r], v) && KnownFrom([r], [], v)
  {
    var empty: seq<Record> := [];
    assert empty + [r] == [r];
    forall l | 0 <= l < NUM_LEVELS
      ensures AddsFresh(Known(empty, l), r.edit, l)
      ensures Replay([r], l) == FilesOf(v[l]) && Known([r], l) == FilesOf(v[l])
    {
      assert DistinctNumbers(v[l]);
      ReplayAppend(empty, r, l);
      ApplyAllAppend(empty, r, l);
    }
    ReplayableAppend(empty, r);
  }

  method AddLevel(c: Codec, added: seq<(nat, File)>, level: nat, files: seq<File>) returns (r: seq<(nat, File)>)
    requires level < NUM_LEVELS && EditFits(c, Edit([], added)) && AllFit(c, files)
    ensures EditFits(c, Edit([], r))
    ensures forall l ::
              AddedAt(Edit([], r), l) == AddedAt(Edit([], added), l) + if l == level then FilesOf(files) else {}
  {
    hide FileFits;
    r := added;
    for i := 0 to |files|
      invariant EditFits(c, Edit([], r))
      invariant forall l ::
        AddedAt(Edit([], r), l) == AddedAt(Edit([], added), l) + if l == level then FilesOf(files[..i]) else {}
    {
      var q := r + [(level, files[i])];
      assert q[..|r|] == r && q[..|r| + 1] == q;
      forall l ensures AddedAt(Edit([], q), l) == AddedAt(Edit([], r), l) + if l == level then {files[i]} else {} {
        AddedStep(Edit([], q), |r|, l);
      }
      assert FilesOf(files[..i + 1]) == FilesOf(files[..i]) + {files[i]};
      r := q;
    }
    assert files[..|files|] == files;
  }

  lemma OnceKeepsDistinct(fs: seq<File>, r: seq<File>, e: Edit, l: nat)
    requires DistinctNumbers(fs) && AddsFresh(FilesOf(fs), e, l) && FilesOf(r) == Once(FilesOf(fs), e, l)
    ensures DistinctNumbers(r)
  {
    forall f, g | f in r && g in r && f.number == g.number ensures f == g {
      assert f in FilesOf(r) && g in FilesOf(r);
    }
  }

  lemma OnceFits(c: Codec, fs: seq<File>, r: seq<File>, e: Edit, l: nat)
    requires AllFit(c, fs) && EditFits(c, e) && FilesOf(r) == Once(FilesOf(fs), e, l)
    ensures AllFit(c, r)
  {
    hide FileFits;
    forall f | f in r ensures FileFits(c, f) {
      assert f in FilesOf(r);
    }
  }

  // ---- Opening again ----

  /** A version set opened from the manifest of another holds exactly what that one had installed. */
  method Reopen(vs: VersionSet) returns (again: VersionSet, ok: bool)
    requires vs.Valid() && vs.manifest != [] && forall i :: 0 <= i < |vs.manifest| ==> |vs.manifest[i]| < WORD
    ensures fresh(again) && again.Valid() && ok
    ensures again.current == vs.current && again.logNumber == vs.logNumber && again.prevLogNumber == vs.prevLogNumber
    ensures vs.PointersRecorded() ==> again.compactPointers == vs.compactPointers
  {
    again := new VersionSet(vs.name, vs.codec);
    ok := again.Recover(vs.manifest, vs.records);
    forall l | 0 <= l < NUM_LEVELS ensures again.current[l] == vs.current[l] {
      OrderedUnique(again.current[l], vs.current[l]);
    }
  }

  /** The first records of a manifest are a manifest. */
  lemma StoredPrefix(c: Codec, m: seq<Bytes>, recs: seq<Record>, k: nat)
    requires Stored(c, m, recs) && Replayable(recs) && k <= |m|
    ensures Stored(c, m[..k], recs[..k]) && Replayable(recs[..k])
  {
    var some := recs[..k];
    forall n | 0 <= n < k ensures some[..n] == recs[..n] && some[n] == recs[n] {}
  }

  /**
   * The manifest is a log file.  Whatever its first bytes are when the process
   * stops, the version set opened from them holds the replay of exactly the
   * records that lie wholly in those bytes; opening fails exactly when not even
   * one record after the snapshot does.
   */
  method ReopenTorn(vs: VersionSet, crc: Log.Checksum, contents: Bytes) returns (again: VersionSet, ok: bool)
    requires vs.Valid() && vs.manifest != [] && forall i :: 0 <= i < |vs.manifest| ==> |vs.manifest[i]| < WORD
    requires contents <= Log.Written(crc, 0, vs.manifest)
    ensures fresh(again) && again.Valid()
    ensures var k := Log.Whole(crc, 0, vs.manifest, |contents|);
              (ok <==> k >= 2) && (ok ==> again.HoldsReplay(vs.records[..k]))
  {
    hide Log.Written, Log.Whole;
    again := new VersionSet(vs.name, vs.codec);
    var found, corruptions := Log.ReadTorn(crc, contents, vs.manifest);
    StoredPrefix(vs.codec, vs.manifest, vs.records, |found|);
    NumbersFromSecond(vs.records, |found|);
    ok := again.Recover(found, vs.records[..|found|]);
  }
}
