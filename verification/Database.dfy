/**
 * DBImpl as an object: each operation runs the loops of the source and takes
 * exactly one step of the engine's state machine.
 */
module Database {
  import opened DbFormat
  import opened Version
  import opened Install
  import opened CompactionMerge
  import opened CompactionInputs
  import opened Builder
  import opened Manifest
  import opened Engine
  import opened EngineProofs
  import opened Store

  // ---- Sorted insertion, the memtable's contract ----

  lemma InsertedSorted(rows: seq<Entry>, e: Entry, i: nat)
    requires Sorted(rows) && i <= |rows|
    requires forall j :: 0 <= j < i ==> Before(rows[j].ikey, e.ikey)
    requires i < |rows| ==> Before(e.ikey, rows[i].ikey)
    ensures Sorted(rows[..i] + [e] + rows[i..])
    ensures RowSet(rows[..i] + [e] + rows[i..]) == RowSet(rows) + {e}
  {
  }

  /** Puts an entry with a new sequence number in its place. */
  method InsertEntry(rows: seq<Entry>, e: Entry) returns (r: seq<Entry>)
    requires Sorted(rows) && forall x :: x in rows ==> x.ikey.sequence != e.ikey.sequence
    ensures Sorted(r) && RowSet(r) == RowSet(rows) + {e}
  {
    var i := 0;
    while i < |rows| && Before(rows[i].ikey, e.ikey)
      invariant i <= |rows|
      invariant forall j :: 0 <= j < i ==> Before(rows[j].ikey, e.ikey)
    {
      i := i + 1;
    }
    InsertedSorted(rows, e, i);
    r := rows[..i] + [e] + rows[i..];
  }

  /** The merged input of a compaction: all rows of the files, in order. */
  method MergeInputs(fs: seq<File>) returns (input: seq<Entry>)
    requires Distinct(Rows(fs))
    requires forall i, j, e :: 0 <= i < j < |fs| && e in fs[i].rows ==> e !in fs[j].rows
    requires AllSorted(fs)
    ensures Sorted(input) && RowSet(input) == Rows(fs)
  {
    input := [];
    for i := 0 to |fs|
      invariant Sorted(input) && forall e :: e in input <==> Holds(fs[..i], e)
    {
      ghost var done := RowSet(input);
      for k := 0 to |fs[i].rows|
        invariant Sorted(input) && RowSet(input) == done + RowSet(fs[i].rows[..k])
      {
        var e := fs[i].rows[k];
        forall x | x in input ensures x.ikey.sequence != e.ikey.sequence {
          RowNotYetMerged(fs, i, k, input, done, x);
        }
        input := InsertEntry(input, e);
      }
      forall e ensures e in input <==> Holds(fs[..i + 1], e) {
        HoldsStep(fs, i, e);
        assert e in input <==> e in RowSet(input);
      }
    }
  }

  lemma HoldsStep(fs: seq<File>, i: nat, e: Entry)
    requires i < |fs|
    ensures Holds(fs[..i + 1], e) <==> Holds(fs[..i], e) || e in fs[i].rows
  {
  }

  lemma RowNotYetMerged(fs: seq<File>, i: nat, k: nat, input: seq<Entry>, done: set<Entry>, x: Entry)
    requires Distinct(Rows(fs)) && AllSorted(fs) && i < |fs| && k < |fs[i].rows|
    requires forall i, j, e :: 0 <= i < j < |fs| && e in fs[i].rows ==> e !in fs[j].rows
    requires forall e :: e in done <==> Holds(fs[..i], e)
    requires RowSet(input) == done + RowSet(fs[i].rows[..k]) && x in input
    ensures x.ikey.sequence != fs[i].rows[k].ikey.sequence
  {
    var e := fs[i].rows[k];
    assert x in RowSet(input);
    if x in done {
      var f :| f in fs[..i] && x in f.rows;
      var j :| 0 <= j < i && fs[j] == f;
    } else {
      var j :| 0 <= j < k && fs[i].rows[..k][j] == x;
    }
  }

  // ---- Where a flushed memtable goes ----

  ghost predicate OverlapIn(files: seq<File>, f: File) {
    exists g :: g in files && Overlaps(g, Some(Smallest(f).user), Some(Largest(f).user))
  }

  /** The file may not go deeper than `l`: it is 2, or `l` or the next level overlaps, or the one after is heavy. */
  ghost predicate StopsAt(v: Levels, f: File, heavy: nat -> bool, l: nat)
    requires |v| == NUM_LEVELS && l <= 2
  {
    l == 2 || (l == 0 && OverlapIn(v[0], f)) || OverlapIn(v[l + 1], f) || heavy(l + 2)
  }

  /**
   * PickLevelForMemTableOutput: the first level where the file must stop.
   * `heavy(l)` stands for too many overlapping bytes in level l.
   */
  method PickLevelForMemTableOutput(v: Levels, f: File, heavy: nat -> bool) returns (level: nat)
    requires LevelInvariant(v)
    requires forall l, g, e :: 0 <= l < |v| && g in v[l] && e in g.rows ==> e.ikey.sequence <= MAX_SEQUENCE
    ensures PlacedAt(v, level, f)
    ensures StopsFirst(v, f, heavy, level)
  {
    var lo, hi := Some(Smallest(f).user), Some(Largest(f).user);
    level := 0;
    var overlap := SomeFileOverlapsRange(false, v[0], lo, hi);
    if !overlap {
      while level < 2
        invariant level <= 2
        invariant forall l, g :: 0 <= l <= level && g in v[l] ==> !Overlaps(g, lo, hi)
        invariant forall l :: 0 <= l < level ==> !StopsAt(v, f, heavy, l)
      {
        overlap := SomeFileOverlapsRange(true, v[level + 1], lo, hi);
        if overlap {
          break;
        }
        if level + 2 < NUM_LEVELS && heavy(level + 2) {
          break;
        }
        level := level + 1;
      }
    }
  }

  ghost predicate StopsFirst(v: Levels, f: File, heavy: nat -> bool, level: nat) {
    |v| == NUM_LEVELS && level <= 2 && StopsAt(v, f, heavy, level) && forall l :: 0 <= l < level ==>
        !StopsAt(v, f, heavy, l)
  }

  // ---- Installing an edit ----

  function DeletionsOf(fs: seq<File>, l: nat): (r: seq<(nat, nat)>)
    ensures |r| == |fs| && forall i :: 0 <= i < |fs| ==> r[i] == (l, fs[i].number)
  {
    if fs == [] then [] else DeletionsOf(fs[..|fs| - 1], l) + [(l, fs[|fs| - 1].number)]
  }

  function AdditionsOf(fs: seq<File>, l: nat): (r: seq<(nat, File)>)
    ensures |r| == |fs| && forall i :: 0 <= i < |fs| ==> r[i] == (l, fs[i])
  {
    if fs == [] then [] else AdditionsOf(fs[..|fs| - 1], l) + [(l, fs[|fs| - 1])]
  }

  /** The edit of a flush, move or compaction: deletions in two adjacent levels, additions in one. */
  function EditOf(level: nat, in0: seq<File>, in1: seq<File>, m: nat, outputs: seq<File>): Edit {
    Edit(DeletionsOf(in0, level) + DeletionsOf(in1, level + 1), AdditionsOf(outputs, m))
  }

  lemma EditOfDeletes(level: nat, in0: seq<File>, in1: seq<File>, m: nat, outputs: seq<File>, l: nat, n: nat)
    ensures n in DeletedAt(EditOf(level, in0, in1, m, outputs), l) <==>
              || (l == level && exists f :: f in in0 && f.number == n)
              || (l == level + 1 && exists f :: f in in1 && f.number == n)
  {
    var d := EditOf(level, in0, in1, m, outputs).deleted;
    var a := DeletionsOf(in0, level);
    if l == level && exists f :: f in in0 && f.number == n {
      var f :| f in in0 && f.number == n;
      var i :| 0 <= i < |in0| && in0[i] == f;
      assert d[i] == (level, n) && d[i].0 == l && d[i].1 == n;
    }
    if l == level + 1 && exists f :: f in in1 && f.number == n {
      var f :| f in in1 && f.number == n;
      var i :| 0 <= i < |in1| && in1[i] == f;
      assert d[|a| + i] == (level + 1, n) && d[|a| + i].0 == l && d[|a| + i].1 == n;
    }
    if n in DeletedAt(EditOf(level, in0, in1, m, outputs), l) {
      var i :| 0 <= i < |d| && d[i].0 == l && d[i].1 == n;
      if i < |a| {
        assert in0[i] in in0;
      }
    }
  }

  lemma EditOfAdds(level: nat, in0: seq<File>, in1: seq<File>, m: nat, outputs: seq<File>, l: nat)
    ensures AddedAt(EditOf(level, in0, in1, m, outputs), l) == if l == m then FilesOf(outputs) else {}
  {
  }

  /** Deleting the inputs' numbers and adding the outputs replaces exactly those files. */
  lemma OnceIsReplaced(v: Levels, next: nat, level: nat, in0: seq<File>, in1: seq<File>, m: nat, outputs: seq<File>,
                       v': Levels)
    requires UniqueNumbers(v, next) && OneLevel(v) && level + 1 < |v| && m < |v| && |v'| == |v| && LevelsOrdered(v')
    requires Within(in0, v[level]) && Within(in1, v[level + 1])
    requires forall f :: f in outputs ==> f.number >= next || (f in in0 && m == level + 1)
    requires forall l :: 0 <= l < |v| ==> FilesOf(v'[l]) == Once(FilesOf(v[l]), EditOf(level, in0, in1, m, outputs), l)
    ensures Replaced(v, FileSet(in0 + in1), m, FileSet(outputs), v')
  {
    hide LevelsOrdered, EditOf, UniqueNumbers, OneLevel;
    forall l, f: File {:trigger f in v'[l]} {:trigger f in v[l]} | 0 <= l < |v|
      ensures f in v'[l] <==> (f in v[l] && f !in FileSet(in0 + in1)) || (l == m && f in FileSet(outputs))
    {
      assert f in v'[l] <==> f in FilesOf(v'[l]);
      EditOfAdds(level, in0, in1, m, outputs, l);
      EditOfDeletes(level, in0, in1, m, outputs, l, f.number);
      DeletedIffInput(v, next, level, in0, in1, l, f);
      OutputsFresh(v, next, level, in0, m, outputs, l);
    }
  }

  lemma DeletedIffInput(v: Levels, next: nat, level: nat, in0: seq<File>, in1: seq<File>, l: nat, f: File)
    requires UniqueNumbers(v, next) && OneLevel(v) && level + 1 < |v| && l < |v|
    requires Within(in0, v[level]) && Within(in1, v[level + 1])
    ensures f in v[l] ==>
              (f in FileSet(in0 + in1) <==>
                 || (l == level && exists g :: g in in0 && g.number == f.number)
                 || (l == level + 1 && exists g :: g in in1 && g.number == f.number))
  {
  }

  /** The version after an edit, by way of the builder. */
  method InstallEdit(v: Levels, next: nat, level: nat, in0: seq<File>, in1: seq<File>, m: nat, outputs: seq<File>)
    returns (v': Levels)
    requires LevelsOrdered(v) && UniqueNumbers(v, next) && OneLevel(v) && |v| == NUM_LEVELS && level + 1 < |v|
               && m < |v|
    requires Within(in0, v[level]) && Within(in1, v[level + 1])
    requires forall f :: f in outputs ==> f.number >= next || (f in in0 && m == level + 1)
    requires forall f, g :: f in outputs && g in outputs && f.number == g.number ==> f == g
    ensures Replaced(v, FileSet(in0 + in1), m, FileSet(outputs), v')
  {
    hide LevelsOrdered, UniqueNumbers, OneLevel, EditOf;
    var edit := EditOf(level, in0, in1, m, outputs);
    EditOfOk(level, in0, in1, m, outputs);
    var builder := new VersionBuilder(v);
    forall l | 0 <= l < |v| ensures AddsFresh(FilesOf(v[l]) + Fresh().added, edit, l) {
      EditOfAdds(level, in0, in1, m, outputs, l);
      OutputsFresh(v, next, level, in0, m, outputs, l);
    }
    builder.Apply(edit);
    v' := builder.SaveTo();
    OnceIsReplaced(v, next, level, in0, in1, m, outputs, v');
  }

  lemma EditOfOk(level: nat, in0: seq<File>, in1: seq<File>, m: nat, outputs: seq<File>)
    requires level + 1 < NUM_LEVELS && m < NUM_LEVELS
    ensures EditOk(EditOf(level, in0, in1, m, outputs), NUM_LEVELS)
  {
  }

  lemma OutputsFresh(v: Levels, next: nat, level: nat, in0: seq<File>, m: nat, outputs: seq<File>, l: nat)
    requires UniqueNumbers(v, next) && OneLevel(v) && level + 1 < |v| && l < |v| && Within(in0, v[level])
    requires forall f :: f in outputs ==> f.number >= next || (f in in0 && m == level + 1)
    ensures l == m ==> forall f :: f in FilesOf(v[l]) ==> f.number !in Numbers(FilesOf(outputs))
  {
  }

  // ---- The database object ----

  lemma BatchStep(batch: seq<Write>, first: nat, i: nat)
    requires i < |batch|
    ensures BatchEntries(batch[..i + 1], first) == BatchEntries(batch[..i], first) + {WriteEntry(batch[i], first + i)}
  {
  }

  /** WriteBatchInternal::InsertInto: the batch's entries, numbered from `first`, join the memtable. */
  method InsertBatch(mem: seq<Entry>, batch: seq<Write>, first: nat) returns (rows: seq<Entry>)
    requires Sorted(mem) && forall x :: x in RowSet(mem) ==> x.ikey.sequence < first
    ensures Sorted(rows) && RowSet(rows) == RowSet(mem) + BatchEntries(batch, first)
  {
    rows := mem;
    for i := 0 to |batch|
      invariant Sorted(rows) && RowSet(rows) == RowSet(mem) + BatchEntries(batch[..i], first)
      invariant forall x :: x in RowSet(rows) ==> x.ikey.sequence < first + i
    {
      BatchStep(batch, first, i);
      rows := InsertEntry(rows, WriteEntry(batch[i], first + i));
    }
    assert batch[..|batch|] == batch;
  }

  /** The history at each read point is the plain map that goes with it. */
  ghost predicate Stores(history: set<Entry>, last: nat, snapshots: seq<nat>, store: Map, stores: seq<Map>) {
    && Shows(history, last, store)
    && |stores| == |snapshots| && forall i :: 0 <= i < |snapshots| ==> Shows(history, snapshots[i], stores[i])
  }

  ghost predicate Untouched(batch: seq<Write>, k: UserKey) {
    forall i :: 0 <= i < |batch| ==> batch[i].key != k
  }

  /** A batch moves the current map on and leaves those of the snapshots. */
  lemma StoresWrite(s: State, store: Map, stores: seq<Map>, batch: seq<Write>)
    requires Inv(s) && Stores(s.history, s.lastSequence, s.snapshots, store, stores)
    ensures var history, last := s.history + BatchEntries(batch, s.lastSequence + 1), s.lastSequence + |batch|;
              && Stores(history, last, s.snapshots, ApplyBatch(store, batch), stores)
              && ReadsBatch(s.history, s.lastSequence, batch, history, last)
  {
    hide Inv, Shows, BatchEntries, ApplyBatch, ReadsBatch;
    HistoryUpTo(s);
    var es := BatchEntries(batch, s.lastSequence + 1);
    BatchShows(s.history, s.lastSequence, store, batch);
    BatchEntriesFresh(batch, s.lastSequence + 1);
    forall i | 0 <= i < |s.snapshots| ensures Shows(s.history + es, s.snapshots[i], stores[i]) {
      ShowsLater(s.history, es, s.snapshots[i], stores[i]);
    }
    BatchIsRead(s.history, s.lastSequence, store, batch, s.history + es, s.lastSequence + |batch|);
  }

  /** The last write of a batch to a key is read after it; other keys are read as before. */
  ghost predicate ReadsBatch(before: set<Entry>, last: nat, batch: seq<Write>, after: set<Entry>, last': nat) {
    && (forall i :: 0 <= i < |batch| && LastOfKey(batch, i) ==> Answers(after, batch[i].key, last', batch[i].value))
    && (forall k, r :: Untouched(batch, k) ==> (Answers(after, k, last', r) <==> Answers(before, k, last, r)))
  }

  lemma BatchIsRead(before: set<Entry>, last: nat, store: Map, batch: seq<Write>, after: set<Entry>, last': nat)
    requires Shows(before, last, store) && Shows(after, last', ApplyBatch(store, batch))
    ensures ReadsBatch(before, last, batch, after, last')
  {
    hide Answers, ApplyBatch, LastOfKey;
    forall i | 0 <= i < |batch| && LastOfKey(batch, i) ensures Answers(after, batch[i].key, last', batch[i].value) {
      LastWriteStays(store, batch, i);
    }
    forall k, r | Untouched(batch, k) ensures Answers(after, k, last', r) <==> Answers(before, k, last, r) {
      OthersStay(store, batch, k);
    }
  }

  lemma HistoryUpTo(s: State)
    requires Inv(s)
    ensures forall e :: e in s.history ==> e.ikey.sequence <= s.lastSequence
    ensures forall i :: 0 <= i < |s.snapshots| ==> s.snapshots[i] <= s.lastSequence
  {
    hide Shape, Ages, Faithful, JobOk;
  }

  lemma SequencesUpTo(s: State)
    requires Inv(s)
    ensures forall x :: x in s.mem ==> x.ikey.sequence <= s.lastSequence
  {
  }

  class DBImpl {
    var mem: seq<Entry>
    var imm: Option<seq<Entry>>
    var version: Levels
    var nextFile: nat
    var lastSequence: nat
    var snapshots: seq<nat>
    var job: Option<Job>
    ghost var history: set<Entry>
    /** The database as a plain map, now and at each snapshot. */
    ghost var store: Map
    ghost var stores: seq<Map>

    ghost function Abs(): State
      reads this
    {
      State(history, lastSequence, RowSet(mem), if imm.Some? then Some(RowSet(imm.value)) else None,
            version, nextFile, snapshots, job)
    }

    ghost predicate Valid()
      reads this
    {
      && Inv(Abs())
      && Sorted(mem)
      && (imm.Some? ==> Sorted(imm.value))
      && Stores(history, lastSequence, snapshots, store, stores)
    }

    constructor ()
      ensures Valid() && Abs() == Init() && store == map[]
    {
      mem, imm := [], None;
      version := [[], [], [], [], [], [], []];
      nextFile, lastSequence := 2, 0;
      snapshots, job := [], None;
      history, store, stores := {}, map[], [];
      new;
      EmptyShows(0);
      assert Abs() == Init();
      InitInv();
    }

    /** DBImpl::Write of one batch: each write takes the next sequence number. */
    method Write(batch: seq<Write>)
      requires Valid() && lastSequence + |batch| < MAX_SEQUENCE
      modifies this
      ensures Valid() && StepWrite(old(Abs()), batch, Abs())
      ensures store == ApplyBatch(old(store), batch) && stores == old(stores)
      ensures forall i :: 0 <= i < |batch| && LastOfKey(batch, i) ==>
                Answers(history, batch[i].key, lastSequence, batch[i].value)
      ensures forall k, r :: Untouched(batch, k) ==>
                (Answers(history, k, lastSequence, r) <==> Answers(old(history), k, old(lastSequence), r))
    {
      hide Inv, Sorted, BatchEntries, Stores, Answers, LastOfKey, Untouched;
      ghost var s := Abs();
      SequencesUpTo(s);
      StoresWrite(s, store, stores, batch);
      mem := InsertBatch(mem, batch, lastSequence + 1);
      history := history + BatchEntries(batch, lastSequence + 1);
      store := ApplyBatch(store, batch);
      lastSequence := lastSequence + |batch|;
      WriteKeepsInv(s, batch, Abs());
    }

    /** MakeRoomForWrite: the full memtable becomes the immutable one. */
    method SwitchMemTable()
      requires Valid() && imm.None?
      modifies this
      ensures Valid() && StepSwitch(old(Abs()), Abs()) && store == old(store) && stores == old(stores)
    {
      ghost var s := Abs();
      imm := Some(mem);
      mem := [];
      assert RowSet([]) == {};
      SwitchKeepsInv(s, Abs());
    }

    method GetSnapshot() returns (snapshot: nat)
      requires Valid()
      modifies this
      ensures Valid() && StepSnapshot(old(Abs()), Abs()) && snapshot == lastSequence
      ensures store == old(store) && stores == old(stores) + [store]
    {
      ghost var s := Abs();
      snapshot := lastSequence;
      snapshots, stores := snapshots + [snapshot], stores + [store];
      SnapshotKeepsInv(s, Abs());
    }

    method ReleaseSnapshot(i: nat)
      requires Valid() && i < |snapshots|
      modifies this
      ensures Valid() && StepRelease(old(Abs()), i, Abs())
      ensures store == old(store) && stores == old(stores)[..i] + old(stores)[i + 1..]
    {
      ghost var s := Abs();
      snapshots, stores := snapshots[..i] + snapshots[i + 1..], stores[..i] + stores[i + 1..];
      ReleaseKeepsInv(s, i, Abs());
    }

    /** DBImpl::Get: at a live snapshot or the last sequence, the answer of the write history. */
    method Get(k: UserKey, snapshot: nat) returns (r: Option<Bytes>)
      requires Valid() && ReadPoint(Abs(), snapshot)
      ensures Answers(history, k, snapshot, r)
      ensures snapshot == lastSequence ==> r == ValueIn(store, k)
      ensures forall i :: 0 <= i < |snapshots| && snapshots[i] == snapshot ==> r == ValueIn(stores[i], k)
    {
      r := Engine.Get(Abs(), mem, if imm.Some? then imm.value else [], version, k, snapshot);
    }

    /**
     * CompactMemTable, also inside a running compaction: writes the immutable
     * memtable to the level PickLevelForMemTableOutput chooses.
     */
    method CompactMemTable(heavy: nat -> bool) returns (ghost level: nat)
      requires Valid() && imm.Some?
      modifies this
      ensures Valid() && imm.None?
      ensures StepFlush(old(Abs()), level, old(imm).value, Abs())
      ensures old(imm).value != [] ==> StopsFirst(old(version), FileMetaData(old(nextFile), old(imm).value), heavy,
                level)
      ensures store == old(store) && stores == old(stores)
    {
      hide Inv, Stores, Sorted, LevelInvariant, LevelsOrdered, UniqueNumbers, OneLevel, PlacedAt, Replaced;
      ghost var s := Abs();
      ShapeFacts(s);
      var rows := imm.value;
      level := 0;
      if rows != [] {
        var f := FileMetaData(nextFile, rows);
        SequencesBounded(s);
        var chosen := PickLevelForMemTableOutput(version, f, heavy);
        level := chosen;
        NoFilesWithin(version);
        version := InstallEdit(version, nextFile, 0, [], [], chosen, [f]);
        assert FileSet([] + []) == {} && FileSet([f]) == {f};
      }
      imm := None;
      nextFile := nextFile + 1;
      FlushKeepsInv(s, level, rows, Abs());
    }

    /**
     * PickCompaction for a file the scores chose, then either a trivial move or
     * the start of a compaction.
     */
    method PickCompaction(level: nat, f: File, roomToGrow: bool, light: bool)
      returns (ghost picked: seq<File>, ghost in0: seq<File>, ghost in1: seq<File>)
      requires Valid() && job.None? && level + 1 < NUM_LEVELS && f in version[level]
      modifies this
      ensures FileChoice(old(version)[level], level == 0, f, picked)
      ensures Settled(old(version), level, picked, roomToGrow, in0, in1)
      ensures Valid() && f in in0 && store == old(store) && stores == old(stores)
      ensures if |in0| == 1 && in1 == [] && light then StepMove(old(Abs()), level, f, Abs())
              else StepStart(old(Abs()), level, in0, in1, false, Abs())
    {
      hide Inv, Stores, Sorted, LevelInvariant, UniqueNumbers, OneLevel, Replaced, Connected, InputsClosed, RestNewer,
          Distinct, Settled;
      ghost var s := Abs();
      ShapeFacts(s);
      VersionDistinct(s);
      OrderedDistinct(version[level]);
      OrderedDistinct(version[level + 1]);
      var choice := PickInputs(version, level, f);
      picked := choice;
      var a, b := SetupOtherInputs(version, level, choice, roomToGrow);
      in0, in1 := a, b;
      if |a| == 1 && b == [] && light {
        assert a == [f];
        version := InstallEdit(version, nextFile, level, a, b, level + 1, a);
        assert FileSet(a + b) == {f} && FileSet(a) == {f};
        MoveKeepsInv(s, level, f, Abs());
      } else {
        job := Some(Job(level, a, b, version, if snapshots == [] then lastSequence else snapshots[0], false));
        StartKeepsInv(s, level, in0, in1, false, Abs());
      }
    }

    /**
     * VersionSet::CompactRange: the start of a manual compaction of a key range.
     * `enough(i)` stands for the size limit reached with the first i files.
     */
    method CompactRange(level: nat, begin: Option<UserKey>, end: Option<UserKey>, enough: nat -> bool, roomToGrow: bool)
      returns (started: bool, ghost chosen: seq<File>, ghost in0: seq<File>, ghost in1: seq<File>)
      requires Valid() && job.None? && level + 1 < NUM_LEVELS
      modifies this
      ensures Valid() && store == old(store) && stores == old(stores)
      ensures started ==> StepStart(old(Abs()), level, in0, in1, true, Abs())
      ensures !started ==> Abs() == old(Abs())
      ensures !started ==> forall f :: f in version[level] ==> !Overlaps(f, begin, end)
      ensures started ==> chosen != [] && Within(chosen, in0)
      ensures RangeChoice(old(version)[level], level == 0, begin, end, enough, chosen)
      ensures started ==> Settled(old(version), level, chosen, roomToGrow, in0, in1)
    {
      hide Inv, Stores, Sorted, LevelInvariant, UniqueNumbers, OneLevel, Replaced, Connected, InputsClosed, RestNewer,
          Distinct, Picked, Settled;
      ghost var s := Abs();
      ShapeFacts(s);
      VersionDistinct(s);
      OrderedDistinct(version[level]);
      OrderedDistinct(version[level + 1]);
      in0, in1 := [], [];
      var picked := PickRange(version, level, begin, end, enough);
      chosen := picked;
      started := picked != [];
      if started {
        var a, b := SetupOtherInputs(version, level, picked, roomToGrow);
        in0, in1 := a, b;
        job := Some(Job(level, a, b, version, if snapshots == [] then lastSequence else snapshots[0], true));
        StartKeepsInv(s, level, in0, in1, true, Abs());
      }
    }

    /**
     * DoCompactionWork and InstallCompactionResults: merge, drop, install.  The
     * object stays valid where the end of the compaction is safe.
     */
    method FinishCompaction(stopBefore: nat -> bool, full: nat -> bool)
      requires Valid() && job.Some?
      modifies this
      ensures store == old(store) && stores == old(stores)
      ensures job.None? && exists input, outputs :: StepFinish(old(Abs()), input, outputs, Abs())
      ensures old(job.value.level + 1 < |version| && FinishSafe(Abs())) ==> Valid()
    {
      hide Inv, Stores, Sorted, LevelsSorted, LevelsDisjoint, LevelsOrdered, UniqueNumbers, OneLevel, Replaced,
          Distinct,
           KeptRows, Concat, Numbered, FinishSafe;
      ghost var s := Abs();
      ShapeFacts(s);
      var j := job.value;
      JobFacts(s, j);
      var input := MergeInputs(j.in0 + j.in1);
      var c := new Compaction(j.base, j.level);
      var outputs := DoCompactionWork(c, input, j.oldest, nextFile, stopBefore, full);
      NumbersOfOutputs(outputs, nextFile);
      version := InstallEdit(version, nextFile, j.level, j.in0, j.in1, j.level + 1, outputs);
      nextFile := nextFile + |outputs|;
      job := None;
      assert StepFinish(s, input, outputs, Abs());
      if FinishSafe(s) {
        SafeIsClean(s, input, outputs, Abs());
        FinishKeepsInv(s, input, outputs, Abs());
      }
    }
  }

  lemma ShapeFacts(s: State)
    requires Inv(s)
    ensures LevelInvariant(s.version) && LevelsOrdered(s.version) && OneLevel(s.version)
              && UniqueNumbers(s.version, s.nextFile)
    ensures |s.version| == NUM_LEVELS
  {
  }

  lemma NumbersOfOutputs(outputs: seq<File>, next: nat)
    requires Numbered(outputs, next)
    ensures forall f :: f in outputs ==> f.number >= next
    ensures forall f, g :: f in outputs && g in outputs && f.number == g.number ==> f == g
  {
  }

  /** What a running compaction's inputs satisfy. */
  lemma JobFacts(s: State, j: Job)
    requires Inv(s) && s.job == Some(j)
    ensures Distinct(Rows(j.in0 + j.in1)) && AllSorted(j.in0 + j.in1)
    ensures forall i, k, e :: 0 <= i < k < |j.in0 + j.in1| && e in (j.in0 + j.in1)[i].rows ==>
              e !in (j.in0 + j.in1)[k].rows
    ensures LevelsSorted(j.base) && LevelsDisjoint(j.base) && j.oldest < MAX_SEQUENCE
    ensures |s.version| == NUM_LEVELS && j.level + 1 < NUM_LEVELS
    ensures Within(j.in0, s.version[j.level]) && Within(j.in1, s.version[j.level + 1])
  {
    hide Distinct, Connected, RestNewer, DeeperUnchanged, SameAnswers, LevelsSorted, LevelsDisjoint,
         ShallowNewer, LevelZeroByNumber, LevelsOrdered, OneLevel, UniqueNumbers, NewerSet, NoDup, Sorted, AllSorted;
    InputsInVersion(s.version, j);
    InputsDistinct(s, Ins(j));
    InputsSorted(s.version, j);
    forall i, k, e | 0 <= i < k < |j.in0 + j.in1| && e in (j.in0 + j.in1)[i].rows
        ensures e !in (j.in0 + j.in1)[k].rows {
      InputRowsDisjoint(s.version, j, i, k, e);
    }
  }

  /** Input files hold disjoint rows. */
  lemma InputRowsDisjoint(v: Levels, j: Job, i: nat, k: nat, e: Entry)
    requires JobFits(v, j) && OneLevel(v) && i < k < |j.in0 + j.in1| && e in (j.in0 + j.in1)[i].rows
    ensures e !in (j.in0 + j.in1)[k].rows
  {
    hide LevelsSorted, LevelsDisjoint, ShallowNewer, LevelZeroByNumber, Connected, RestNewer, DeeperUnchanged;
    var fs, n := j.in0 + j.in1, |j.in0|;
    var l, m := if i < n then j.level else j.level + 1, if k < n then j.level else j.level + 1;
    assert fs[i] in v[l];
    assert fs[k] in v[m];
    FilesShareNoEntry(v, l, m, fs[i], fs[k], e);
  }

  lemma InputsSorted(v: Levels, j: Job)
    requires JobFits(v, j)
    ensures AllSorted(j.in0 + j.in1)
  {
  }

  lemma NoFilesWithin(v: Levels)
    requires |v| == NUM_LEVELS
    ensures Within([], v[0]) && Within([], v[1])
  {
  }

  lemma SequencesBounded(s: State)
    requires Inv(s)
    ensures forall l, g, e :: 0 <= l < |s.version| && g in s.version[l] && e in g.rows ==>
              e.ikey.sequence <= MAX_SEQUENCE
  {
  }

  lemma VersionDistinct(s: State)
    requires Inv(s)
    ensures Distinct(VersionRows(s.version))
  {
    hide Distinct, Shape, Ages, Faithful, SnapshotsOrdered, JobOk;
    DistinctSubset(VersionRows(s.version), s.history);
  }
}
