/**
 * Every step of the engine but the end of a compaction keeps the invariant, and
 * that one exactly when its outputs are clean; hence a run refines the write
 * history when all its compactions end clean.
 */
module EngineProofs {
  import opened DbFormat
  import opened Version
  import opened Install
  import opened CompactionMerge
  import opened CompactionInputs
  import opened Engine

  // ---- Writes, switches and snapshots ----

  lemma SameAnswersRefl(a: set<Entry>, floor: nat)
    ensures SameAnswers(a, a, floor)
  {
  }

  lemma EmptyLevels(v: Levels, next: nat)
    requires |v| == NUM_LEVELS && forall l :: 0 <= l < |v| ==> v[l] == []
    ensures LevelInvariant(v) && LevelsOrdered(v) && OneLevel(v) && UniqueNumbers(v, next) && VersionRows(v) == {}
  {
    hide Sorted, Newer, Before;
  }

  lemma InitInv()
    ensures Inv(Init())
  {
    hide LevelInvariant, LevelsOrdered, OneLevel, UniqueNumbers, SameAnswers;
    EmptyLevels(Init().version, Init().nextFile);
    assert Contents(Init()) == {};
    SameAnswersRefl({}, 0);
  }

  lemma BatchEntriesFresh(batch: seq<Write>, first: nat)
    ensures Distinct(BatchEntries(batch, first))
    ensures forall e :: e in BatchEntries(batch, first) ==> first <= e.ikey.sequence < first + |batch|
  {
  }

  /** Adding the same later entries to both sides keeps all answers equal. */
  lemma AddLaterKeepsAnswers(a: set<Entry>, b: set<Entry>, more: set<Entry>, last: nat, floor: nat)
    requires SameAnswers(a, b, floor)
    requires forall e :: e in a + b ==> e.ikey.sequence <= last
    requires forall e :: e in more ==> e.ikey.sequence > last
    ensures SameAnswers(a + more, b + more, floor)
  {
    forall k, snapshot, r | floor <= snapshot
      ensures Answers(a + more, k, snapshot, r) <==> Answers(b + more, k, snapshot, r)
    {
      if NoneVisible(more, k, snapshot) {
        InvisibleAddition(a, more, k, snapshot, r);
        InvisibleAddition(b, more, k, snapshot, r);
      } else {
        VisibleAddition(a, more, last, k, snapshot, r);
        VisibleAddition(b, more, last, k, snapshot, r);
      }
    }
  }

  lemma InvisibleAddition(a: set<Entry>, more: set<Entry>, k: UserKey, snapshot: nat, r: Option<Bytes>)
    requires NoneVisible(more, k, snapshot)
    ensures Answers(a + more, k, snapshot, r) <==> Answers(a, k, snapshot, r)
  {
  }

  lemma VisibleAddition(a: set<Entry>, more: set<Entry>, last: nat, k: UserKey, snapshot: nat, r: Option<Bytes>)
    requires !NoneVisible(more, k, snapshot)
    requires forall e :: e in a ==> e.ikey.sequence <= last
    requires forall e :: e in more ==> e.ikey.sequence > last
    ensures Answers(a + more, k, snapshot, r) <==> Answers(more, k, snapshot, r)
  {
  }

  /** Entries numbered after all others make the memtable newer still. */
  lemma WriteKeepsAges(s: State, es: set<Entry>, s': State)
    requires Ages(s) && s'.mem == s.mem + es && s'.imm == s.imm && s'.version == s.version
    requires forall e :: e in Contents(s) ==> e.ikey.sequence <= s.lastSequence
    requires forall e :: e in es ==> e.ikey.sequence > s.lastSequence
    ensures Ages(s')
  {
  }

  lemma WriteKeepsRecorded(s: State, batch: seq<Write>, s': State)
    requires Recorded(s) && StepWrite(s, batch, s')
    ensures Recorded(s')
    ensures Contents(s') == Contents(s) + BatchEntries(batch, s.lastSequence + 1)
  {
    hide BatchEntries;
    BatchEntriesFresh(batch, s.lastSequence + 1);
  }

  lemma WriteKeepsInv(s: State, batch: seq<Write>, s': State)
    requires Inv(s) && StepWrite(s, batch, s')
    ensures Inv(s')
  {
    hide LevelInvariant, LevelsOrdered, OneLevel, UniqueNumbers, JobFits, BatchEntries, SameAnswers, Distinct, NewerSet;
    var es := BatchEntries(batch, s.lastSequence + 1);
    BatchEntriesFresh(batch, s.lastSequence + 1);
    AddLaterKeepsAnswers(Contents(s), s.history, es, s.lastSequence, Floor(s));
    WriteKeepsRecorded(s, batch, s');
    WriteKeepsAges(s, es, s');
    RaiseFloor(Contents(s'), s'.history, Floor(s), Floor(s'));
  }

  lemma RaiseFloor(a: set<Entry>, b: set<Entry>, low: nat, floor: nat)
    requires SameAnswers(a, b, low) && low <= floor
    ensures SameAnswers(a, b, floor)
  {
  }

  lemma FailedWriteKeepsInv(s: State, n: nat, s': State)
    requires Inv(s) && StepFailedWrite(s, n, s')
    ensures Inv(s')
  {
    hide LevelInvariant, LevelsOrdered, OneLevel, UniqueNumbers, JobFits, SameAnswers, Distinct, NewerSet;
    RaiseFloor(Contents(s'), s'.history, Floor(s), Floor(s'));
  }

  lemma SwitchKeepsInv(s: State, s': State)
    requires Inv(s) && StepSwitch(s, s')
    ensures Inv(s')
  {
    hide LevelInvariant, LevelsOrdered, OneLevel, UniqueNumbers, JobFits;
    assert Contents(s') == Contents(s);
  }

  lemma SnapshotKeepsInv(s: State, s': State)
    requires Inv(s) && StepSnapshot(s, s')
    ensures Inv(s')
  {
    hide LevelInvariant, LevelsOrdered, OneLevel, UniqueNumbers, JobFits;
  }

  lemma ReleaseKeepsInv(s: State, i: nat, s': State)
    requires Inv(s) && StepRelease(s, i, s')
    ensures Inv(s')
  {
    hide LevelInvariant, LevelsOrdered, OneLevel, UniqueNumbers, JobFits, SameAnswers, Distinct, NewerSet;
    RaiseFloor(Contents(s'), s'.history, Floor(s), Floor(s'));
  }

  // ---- Flush ----

  lemma NoOverlapNoShared(f: File, g: File)
    requires Sorted(f.rows) && Sorted(g.rows) && !Overlaps(g, Some(Smallest(f).user), Some(Largest(f).user))
    ensures forall a, b :: a in f.rows && b in g.rows ==> a.ikey.user != b.ikey.user
    ensures Separate(f, g)
  {
  }

  lemma VersionHolds(v: Levels, l: nat, f: File, e: Entry)
    requires l < |v| && f in v[l] && e in f.rows
    ensures e in VersionRows(v)
  {
  }

  /** Entries newer than the whole version are newer than each of its files. */
  lemma NewerThanFile(rows: seq<Entry>, v: Levels, l: nat, g: File)
    requires NewerSet(RowSet(rows), VersionRows(v)) && l < |v| && g in v[l]
    ensures Newer(rows, g.rows)
  {
  }

  lemma FlushFits(v: Levels, imm: set<Entry>, next: nat, level: nat, f: File)
    requires |v| == NUM_LEVELS && LevelsSorted(v) && NumbersBelow(v, next) && NewerSet(imm, VersionRows(v))
    requires Sorted(f.rows) && RowSet(f.rows) == imm && f.number == next && PlacedAt(v, level, f)
    ensures Fits(v, {}, level, {f})
  {
    hide Newer, Separate, Sorted, Overlaps;
    forall l, g: File | 0 <= l < |v| && g in v[l] ensures Newer(f.rows, g.rows) {
      NewerThanFile(f.rows, v, l, g);
    }
    forall l, g: File | 0 <= l < level && g in v[l] ensures Newer(g.rows, f.rows) {
      NoOverlapIsNewer(f, g);
    }
    if level > 0 {
      forall g | g in v[level] ensures Separate(f, g) {
        NoOverlapNoShared(f, g);
      }
    }
  }

  lemma NoOverlapIsNewer(f: File, g: File)
    requires Sorted(f.rows) && Sorted(g.rows) && !Overlaps(g, Some(Smallest(f).user), Some(Largest(f).user))
    ensures Newer(g.rows, f.rows)
  {
  }

  lemma RowsOfOne(f: File)
    ensures RowsOf({f}) == RowSet(f.rows)
  {
  }

  lemma ReplacedOrdered(v: Levels, removed: set<File>, m: nat, added: set<File>, v': Levels)
    requires Replaced(v, removed, m, added, v')
    ensures LevelsOrdered(v') && |v'| == |v|
  {
  }

  lemma ReplacedMember(v: Levels, removed: set<File>, m: nat, added: set<File>, v': Levels, l: nat, f: File)
    requires Replaced(v, removed, m, added, v') && l < |v|
    ensures f in v'[l] <==> (f in v[l] && f !in removed) || (l == m && f in added)
  {
  }

  lemma FlushKeepsLevels(v: Levels, imm: set<Entry>, next: nat, level: nat, f: File, v': Levels)
    requires LevelInvariant(v) && UniqueNumbers(v, next) && NewerSet(imm, VersionRows(v))
    requires Sorted(f.rows) && RowSet(f.rows) == imm && f.number == next && PlacedAt(v, level, f)
    requires Replaced(v, {}, level, {f}, v')
    ensures LevelInvariant(v')
  {
    hide Sorted, Fits, LevelsDisjoint, ShallowNewer, LevelZeroByNumber, NewerSet, PlacedAt, LevelsSorted, Replaced,
        NumbersBelow;
    FlushFits(v, imm, next, level, f);
    InstallKeepsLevels(v, {}, level, {f}, v');
  }

  lemma FlushAddsRows(v: Levels, level: nat, f: File, v': Levels)
    requires LevelInvariant(v) && OneLevel(v) && Replaced(v, {}, level, {f}, v')
    ensures VersionRows(v') == VersionRows(v) + RowSet(f.rows)
  {
    hide LevelInvariant, OneLevel, Replaced;
    RowsAfterInstall(v, {}, level, {f}, v');
    RowsOfOne(f);
    assert RowsOf({}) == {};
  }

  lemma FlushKeepsShape(s: State, level: nat, f: File, v': Levels)
    requires Shape(s) && NewerSet(Imm(s), VersionRows(s.version)) && s.imm.Some?
    requires Sorted(f.rows) && RowSet(f.rows) == s.imm.value
    requires |s.version| == NUM_LEVELS && f.number == s.nextFile && PlacedAt(s.version, level, f)
    requires Replaced(s.version, {}, level, {f}, v')
    ensures LevelInvariant(v') && LevelsOrdered(v') && OneLevel(v') && UniqueNumbers(v', s.nextFile + 1)
    ensures VersionRows(v') == VersionRows(s.version) + s.imm.value
  {
    hide Sorted, LevelInvariant, LevelsOrdered, UniqueNumbers, OneLevel, NewerSet, PlacedAt, Replaced;
    ReplacedOrdered(s.version, {}, level, {f}, v');
    FlushKeepsLevels(s.version, s.imm.value, s.nextFile, level, f, v');
    FlushAddsRows(s.version, level, f, v');
    FreshFilesKeepNumbers(s.version, {}, level, {f}, v', s.nextFile, s.nextFile + 1);
  }

  /** A flushed file that lands at or below the compaction shares no user key with its inputs. */
  lemma FlushedBelowNoShared(v: Levels, level: nat, f: File, j: Job)
    requires JobFits(v, j) && PlacedAt(v, level, f) && Sorted(f.rows) && level >= j.level + 1
    ensures NoShared(f.rows, Ins(j))
  {
    hide Sorted, Overlaps, RestNewer, DeeperUnchanged;
    forall a, b | a in f.rows && b in Ins(j) ensures a.ikey.user != b.ikey.user {
      var h, l := InputFile(v, j, b);
      NoOverlapNoShared(f, h);
    }
  }

  lemma FlushKeepsJob(v: Levels, imm: set<Entry>, level: nat, f: File, v': Levels, j: Job)
    requires NewerSet(imm, VersionRows(v)) && Sorted(f.rows) && RowSet(f.rows) == imm
    requires |v| == NUM_LEVELS && PlacedAt(v, level, f) && Replaced(v, {}, level, {f}, v')
    requires JobFits(v, j) && LevelInvariant(v')
    ensures JobFits(v', j)
  {
    hide Connected, Newer, LevelsOrdered, NewerSet, Sorted, NoShared, LevelsSorted, LevelsDisjoint, ShallowNewer,
         LevelZeroByNumber, PlacedAt;
    forall h | h in j.in0 + j.in1 ensures Newer(f.rows, h.rows) {
      NewerThanFile(f.rows, v, if h in j.in0 then j.level else j.level + 1, h);
    }
    ReplacedOrdered(v, {}, level, {f}, v');
    if level >= j.level + 1 {
      FlushedBelowNoShared(v, level, f, j);
    }
    forall g, h | g in v'[j.level] && g !in j.in0 && h in j.in0 ensures Newer(g.rows, h.rows) {
      ReplacedMember(v, {}, level, {f}, v', j.level, g);
    }
    forall l, g: File | j.level + 2 <= l < |v'| && g in v'[l] ensures g in j.base[l] || NoShared(g.rows, Ins(j)) {
      ReplacedMember(v, {}, level, {f}, v', l, g);
    }
  }

  /** A step that only rearranges entries keeps every read. */
  lemma SameContentsSameReads(s: State, s': State)
    requires Recorded(s) && Faithful(s) && SnapshotsOrdered(s) && Contents(s') == Contents(s)
    requires s'.history == s.history && s'.lastSequence == s.lastSequence && s'.snapshots == s.snapshots
    ensures Recorded(s') && Faithful(s') && SnapshotsOrdered(s') && Floor(s') == Floor(s)
  {
  }

  lemma FlushKeepsInv(s: State, level: nat, rows: seq<Entry>, s': State)
    requires Inv(s) && StepFlush(s, level, rows, s')
    ensures Inv(s')
  {
    hide Sorted, Replaced, PlacedAt, LevelInvariant, LevelsOrdered, OneLevel, UniqueNumbers, JobFits,
         Recorded, Faithful, SnapshotsOrdered;
    if rows == [] {
      assert s.imm.value == {};
      SameContentsSameReads(s, s');
      MoreNumbers(s.version, s.nextFile, s.nextFile + 1);
    } else {
      var f := FileMetaData(s.nextFile, rows);
      ShapeLevels(s);
      FlushKeepsShape(s, level, f, s'.version);
      SameContentsSameReads(s, s');
      if s.job.Some? {
        JobLevels(s.version, s.job.value);
        FlushKeepsJob(s.version, s.imm.value, level, f, s'.version, s.job.value);
      }
    }
  }

  lemma ShapeLevels(s: State)
    requires Shape(s)
    ensures |s.version| == NUM_LEVELS
  {
  }

  lemma MoreNumbers(v: Levels, next: nat, next': nat)
    requires UniqueNumbers(v, next) && next <= next'
    ensures UniqueNumbers(v, next')
  {
  }

  lemma JobLevels(v: Levels, j: Job)
    requires JobFits(v, j)
    ensures |v| == NUM_LEVELS
  {
  }

  // ---- Trivial move ----

  lemma SingleRange(f: File)
    ensures IsRange([f], Smallest(f), Largest(f))
  {
  }

  /** A file that overlaps nothing in the next level is separate from all of it. */
  lemma MoveSeparate(v: Levels, level: nat, f: File, g: File)
    requires LevelsSorted(v) && level + 1 < |v| && InputsClosed(v, level, [f], []) && g in v[level + 1]
    ensures Separate(f, g)
  {
    hide Sorted, RestNewer, Separate;
    SingleRange(f);
    OverlappingMembers(v[level + 1], Some(Smallest(f).user), Some(Largest(f).user));
    NoOverlapNoShared(f, g);
  }

  lemma MoveFits(v: Levels, level: nat, f: File)
    requires LevelsSorted(v) && ShallowNewer(v) && level + 1 < |v| && InputsClosed(v, level, [f], [])
    ensures f in v[level] && Fits(v, {f}, level + 1, {f})
  {
    hide Newer, Separate, Sorted, IsRange;
    forall l, g: File | 0 <= l < level + 1 && g in v[l] && g != f ensures Newer(g.rows, f.rows) {}
    forall g | g in v[level + 1] ensures Separate(f, g) {
      MoveSeparate(v, level, f, g);
    }
  }

  lemma MoveKeepsLevels(v: Levels, level: nat, f: File, v': Levels)
    requires LevelInvariant(v) && level + 1 < |v| && InputsClosed(v, level, [f], [])
    requires Replaced(v, {f}, level + 1, {f}, v')
    ensures f in v[level] && LevelInvariant(v')
  {
    hide Fits, InputsClosed, Replaced, LevelsDisjoint, LevelZeroByNumber, Newer, Sorted;
    MoveFits(v, level, f);
    hide LevelInvariant;
    InstallKeepsLevels(v, {f}, level + 1, {f}, v');
  }

  lemma MoveKeepsRows(v: Levels, level: nat, f: File, v': Levels)
    requires LevelInvariant(v) && OneLevel(v) && level + 1 < |v| && f in v[level]
               && Replaced(v, {f}, level + 1, {f}, v')
    ensures VersionRows(v') == VersionRows(v)
  {
    hide LevelInvariant, OneLevel, Replaced;
    RowsAfterInstall(v, {f}, level + 1, {f}, v');
    forall e | e in RowsOf({f}) ensures e in VersionRows(v) {
      VersionHolds(v, level, f, e);
    }
  }

  lemma MoveKeepsShape(v: Levels, next: nat, level: nat, f: File, v': Levels)
    requires LevelInvariant(v) && OneLevel(v) && UniqueNumbers(v, next) && level + 1 < |v|
    requires InputsClosed(v, level, [f], []) && Replaced(v, {f}, level + 1, {f}, v')
    ensures LevelInvariant(v') && LevelsOrdered(v') && OneLevel(v') && UniqueNumbers(v', next)
    ensures VersionRows(v') == VersionRows(v)
  {
    hide LevelInvariant, OneLevel, UniqueNumbers, InputsClosed, Replaced, LevelsOrdered;
    MoveKeepsLevels(v, level, f, v');
    ReplacedOrdered(v, {f}, level + 1, {f}, v');
    MovedFileKeepsNumbers(v, f, level, level + 1, v', next);
    MoveKeepsRows(v, level, f, v');
  }

  lemma MoveKeepsInv(s: State, level: nat, f: File, s': State)
    requires Inv(s) && StepMove(s, level, f, s')
    ensures Inv(s')
  {
    hide InputsClosed, Recorded, Faithful, SnapshotsOrdered, LevelsOrdered, OneLevel, UniqueNumbers, NewerSet, Replaced,
         LevelsSorted, LevelsDisjoint, ShallowNewer, LevelZeroByNumber;
    MoveKeepsShape(s.version, s.nextFile, level, f, s'.version);
    SameContentsSameReads(s, s');
  }

  // ---- Start of a compaction ----

  lemma {:induction false} RangeExists(fs: seq<File>) returns (smallest: InternalKey, largest: InternalKey)
    requires fs != []
    ensures IsRange(fs, smallest, largest)
  {
    var n := |fs| - 1;
    var f := fs[n];
    if n == 0 {
      smallest, largest := Smallest(f), Largest(f);
    } else {
      var rest := fs[..n];
      smallest, largest := RangeExists(rest);
      var a :| a in rest && Smallest(a) == smallest;
      var b :| b in rest && Largest(b) == largest;
      forall g | g in rest ensures Before(Smallest(f), smallest) ==> !Before(Smallest(g), Smallest(f)) {
        BeforeTrans(Smallest(f), smallest, Smallest(g));
      }
      forall g | g in rest ensures Before(largest, Largest(f)) ==> !Before(Largest(f), Largest(g)) {
        BeforeTrans(Largest(g), largest, Largest(f));
      }
      if Before(Smallest(f), smallest) { smallest := Smallest(f); }
      if Before(largest, Largest(f)) { largest := Largest(f); }
    }
  }

  lemma StartFits(v: Levels, level: nat, in0: seq<File>, in1: seq<File>, oldest: nat, manual: bool)
    requires LevelInvariant(v) && level + 1 < |v| && InputsClosed(v, level, in0, in1)
    requires !manual ==> Connected(in0 + in1)
    ensures JobFits(v, Job(level, in0, in1, v, oldest, manual))
  {
    hide Connected, Newer, ShallowNewer, LevelsDisjoint, LevelZeroByNumber, LevelsSorted, IsRange;
    var smallest, largest := RangeExists(in0);
    OverlappingMembers(v[level + 1], Some(smallest.user), Some(largest.user));
  }

  lemma StartKeepsInv(s: State, level: nat, in0: seq<File>, in1: seq<File>, manual: bool, s': State)
    requires Inv(s) && StepStart(s, level, in0, in1, manual, s')
    ensures Inv(s')
  {
    hide LevelsSorted, LevelsDisjoint, ShallowNewer, LevelZeroByNumber, LevelsOrdered, OneLevel, UniqueNumbers,
         JobFits, Recorded, Faithful, SnapshotsOrdered, InputsClosed, RestNewer, NewerSet, Connected;
    SameContentsSameReads(s, s');
    StartFits(s.version, level, in0, in1, Floor(s), manual);
  }

  // ---- End of a compaction ----

  /** Cutting a sorted run into files gives sorted, disjoint files with the run's rows. */
  lemma {:induction false} ChunksDisjoint(fs: seq<File>)
    requires Sorted(Concat(fs))
    ensures Disjoint(fs) && AllSorted(fs)
    ensures forall e :: e in Concat(fs) <==> Holds(fs, e)
  {
    if fs == [] {
    } else {
      var n := |fs| - 1;
      var init, last := fs[..n], fs[n];
      var c := Concat(init);
      assert Sorted(c) by {
        forall i, j | 0 <= i < j < |c| ensures Before(c[i].ikey, c[j].ikey) {
          assert c[i] == Concat(fs)[i] && c[j] == Concat(fs)[j];
        }
      }
      assert Sorted(last.rows) by {
        forall i, j | 0 <= i < j < |last.rows| ensures Before(last.rows[i].ikey, last.rows[j].ikey) {
          assert last.rows[i] == Concat(fs)[|c| + i] && last.rows[j] == Concat(fs)[|c| + j];
        }
      }
      ChunksDisjoint(init);
      assert fs == init + [last];
      forall i | 0 <= i < n ensures Before(Largest(fs[i]), Smallest(last)) {
        var e := fs[i].rows[|fs[i].rows| - 1];
        assert fs[i] == init[i] && Holds(init, e);
        var k :| 0 <= k < |c| && c[k] == e;
        assert Concat(fs)[k] == e && Concat(fs)[|c|] == last.rows[0];
      }
      forall e ensures e in Concat(fs) <==> Holds(fs, e) {
        assert Holds(fs, e) <==> Holds(init, e) || e in last.rows by {
          if Holds(init, e) {
            var f :| f in init && e in f.rows;
            assert f in fs;
          }
        }
      }
    }
  }

  ghost function Dropped(j: Job): set<File> {
    FileSet(j.in0 + j.in1)
  }

  /** An input file's level, and which entries are inputs. */
  lemma InputFile(v: Levels, j: Job, e: Entry) returns (h: File, l: nat)
    requires JobFits(v, j) && e in Ins(j)
    ensures h in j.in0 + j.in1 && e in h.rows && j.level + 1 < |v| && (l == j.level || l == j.level + 1) && h in v[l]
    ensures l == j.level ==> h in j.in0
    ensures l == j.level + 1 ==> h in j.in1
  {
    hide Connected, LevelInvariant, RestNewer, DeeperUnchanged;
    h :| h in j.in0 + j.in1 && e in h.rows;
    l := if h in j.in0 then j.level else j.level + 1;
  }

  /** Files above the inputs, or left out at their own level, are newer than every input. */
  lemma LeftOverIsNewer(v: Levels, j: Job, l: nat, g: File, a: Entry, e: Entry)
    requires JobFits(v, j) && OneLevel(v) && l <= j.level && g in v[l] && g !in Dropped(j)
    requires a in g.rows && e in Ins(j) && a.ikey.user == e.ikey.user
    ensures a.ikey.sequence > e.ikey.sequence
  {
  }

  lemma DeeperIsOlder(v: Levels, j: Job, l: nat, g: File, a: Entry, e: Entry)
    requires JobFits(v, j) && j.level + 1 < l < |v| && g in v[l]
    requires a in g.rows && e in Ins(j) && a.ikey.user == e.ikey.user
    ensures e.ikey.sequence > a.ikey.sequence
  {
  }

  /** The outputs hold exactly the kept inputs, in disjoint sorted files. */
  lemma OutputRows(j: Job, input: seq<Entry>, outputs: seq<File>)
    requires Sorted(input) && RowSet(input) == Ins(j) && Distinct(Ins(j))
    requires Concat(outputs) == KeptRows(input, |input|, j.base, j.level, j.oldest)
    ensures Disjoint(outputs) && AllSorted(outputs)
    ensures RowsOf(FileSet(outputs)) == Kept(j)
  {
    KeptRowsAreKeptSet(input, |input|, j.base, j.level, j.oldest);
    ChunksDisjoint(outputs);
    forall e ensures e in RowsOf(FileSet(outputs)) <==> e in Kept(j) {
      assert e in RowsOf(FileSet(outputs)) <==> Holds(outputs, e) by {
        if Holds(outputs, e) {
          var f :| f in outputs && e in f.rows;
        }
      }
    }
  }

  lemma OutputIsInput(j: Job, outputs: seq<File>, o: File, b: Entry)
    requires RowsOf(FileSet(outputs)) == Kept(j)
    requires o in outputs && b in o.rows
    ensures b in Ins(j)
  {
    assert b in RowsOf(FileSet(outputs));
  }

  lemma OutputsOlder(v: Levels, j: Job, outputs: seq<File>, l: nat, g: File, o: File)
    requires JobFits(v, j) && OneLevel(v) && l < j.level + 1 && g in v[l] && g !in Dropped(j) && o in outputs
    requires RowsOf(FileSet(outputs)) == Kept(j)
    ensures Newer(g.rows, o.rows)
  {
    hide JobFits, OneLevel, Dropped, KeptSet;
    forall a, b | a in g.rows && b in o.rows && a.ikey.user == b.ikey.user ensures a.ikey.sequence > b.ikey.sequence {
      OutputIsInput(j, outputs, o, b);
      LeftOverIsNewer(v, j, l, g, a, b);
    }
  }

  lemma OutputsNewer(v: Levels, j: Job, outputs: seq<File>, l: nat, g: File, o: File)
    requires JobFits(v, j) && j.level + 1 < l < |v| && g in v[l] && o in outputs
    requires RowsOf(FileSet(outputs)) == Kept(j)
    ensures Newer(o.rows, g.rows)
  {
    hide JobFits, KeptSet;
    forall a, b | a in o.rows && b in g.rows && a.ikey.user == b.ikey.user ensures a.ikey.sequence > b.ikey.sequence {
      OutputIsInput(j, outputs, o, a);
      DeeperIsOlder(v, j, l, g, b, a);
    }
  }

  /** A file whose rows all lie to one side of another is separate from it. */
  lemma ApartIsSeparate(g: File, kept: set<Entry>, o: File)
    requires Apart(g, kept) && forall e :: e in o.rows ==> e in kept
    ensures Separate(o, g)
  {
    assert o.rows[0] in kept && o.rows[|o.rows| - 1] in kept;
  }

  /** With room for what is kept, every cut of it is clear. */
  lemma RoomIsClear(v: Levels, j: Job, outputs: seq<File>)
    requires j.level + 1 < |v| && RoomForOutputs(v, j) && RowsOf(FileSet(outputs)) == Kept(j)
    ensures OutputsClear(v, j, outputs)
  {
    hide Kept, Apart, Separate;
    forall g, o | g in v[j.level + 1] && g !in j.in1 && o in outputs ensures Separate(o, g) {
      ApartIsSeparate(g, Kept(j), o);
    }
  }

  lemma InputIsDropped(j: Job, g: File)
    requires g !in Dropped(j)
    ensures g !in j.in1
  {
  }

  lemma FinishFits(v: Levels, j: Job, outputs: seq<File>)
    requires JobFits(v, j) && OneLevel(v) && Disjoint(outputs) && AllSorted(outputs) && OutputsClear(v, j, outputs)
    requires RowsOf(FileSet(outputs)) == Kept(j)
    ensures Fits(v, Dropped(j), j.level + 1, FileSet(outputs))
  {
    hide Sorted, Newer, Separate, KeptSet, LevelInvariant, Connected, RestNewer, DeeperUnchanged, OneLevel,
         Disjoint, Dropped;
    var m := j.level + 1;
    forall l, g: File, o: File | 0 <= l < m && g in v[l] && g !in Dropped(j) && o in FileSet(outputs)
        ensures Newer(g.rows, o.rows) {
      OutputsOlder(v, j, outputs, l, g, o);
    }
    forall l, g: File, o: File | m < l < |v| && g in v[l] && g !in Dropped(j) && o in FileSet(outputs)
        ensures Newer(o.rows, g.rows) {
      OutputsNewer(v, j, outputs, l, g, o);
    }
    forall o, p | o in FileSet(outputs) && p in FileSet(outputs) && o != p ensures Separate(o, p) {
      DisjointIsSeparate(outputs, o, p);
    }
    forall o, g | o in FileSet(outputs) && g in v[m] && g !in Dropped(j) ensures Separate(o, g) {
      assert g !in j.in1 by { InputIsDropped(j, g); }
    }
  }

  /** The entries of the version before and after the outputs replace the inputs. */
  lemma VersionAfterFinish(v: Levels, j: Job, outputs: seq<File>, v': Levels)
    requires JobFits(v, j) && OneLevel(v) && Replaced(v, Dropped(j), j.level + 1, FileSet(outputs), v')
    ensures Ins(j) <= VersionRows(v)
    ensures VersionRows(v') == (VersionRows(v) - Ins(j)) + RowsOf(FileSet(outputs))
  {
    hide Replaced, OneLevel, RestNewer, DeeperUnchanged, LevelsSorted, LevelsDisjoint, ShallowNewer,
         LevelZeroByNumber;
    RowsOfDropped(j);
    InputsInVersion(v, j);
    forall f | f in Dropped(j) ensures exists l :: 0 <= l < |v| && f in v[l] {}
    RowsAfterInstall(v, Dropped(j), j.level + 1, FileSet(outputs), v');
  }

  lemma RowsOfDropped(j: Job)
    ensures RowsOf(Dropped(j)) == Ins(j)
  {
  }

  lemma InputsInVersion(v: Levels, j: Job)
    requires JobFits(v, j)
    ensures Ins(j) <= VersionRows(v)
  {
  }

  /** Whether ending the compaction changes a lookup at or above the floor. */
  lemma FinishInvisibleExactly(all: set<Entry>, j: Job, floor: nat)
    requires Distinct(all) && Ins(j) <= all && j.oldest <= floor
    ensures SameAnswers(all, (all - Ins(j)) + Kept(j), floor) <==> NothingUncovered(all, floor, j)
  {
    hide SameAnswers, KeptSet, Uncovers, Distinct;
    var rest := all - Ins(j);
    assert rest + Ins(j) == all;
    DropsInvisibleExactly(rest, Ins(j), j.base, j.level, j.oldest, floor);
  }

  lemma FinishKeepsShape(v: Levels, next: nat, j: Job, outputs: seq<File>, v': Levels)
    requires JobFits(v, j) && OneLevel(v) && UniqueNumbers(v, next) && OutputsClear(v, j, outputs)
    requires Disjoint(outputs) && AllSorted(outputs) && Numbered(outputs, next)
    requires RowsOf(FileSet(outputs)) == Kept(j)
    requires Replaced(v, Dropped(j), j.level + 1, FileSet(outputs), v')
    ensures LevelInvariant(v') && LevelsOrdered(v') && OneLevel(v') && UniqueNumbers(v', next + |outputs|)
  {
    hide Fits, Disjoint, AllSorted, KeptSet, OneLevel, RestNewer, DeeperUnchanged,
         LevelsSorted, LevelsDisjoint, ShallowNewer, LevelZeroByNumber, UniqueNumbers;
    FinishFits(v, j, outputs);
    ReplacedOrdered(v, Dropped(j), j.level + 1, FileSet(outputs), v');
    hide Replaced, LevelsOrdered;
    InstallKeepsLevels(v, Dropped(j), j.level + 1, FileSet(outputs), v');
    forall o | o in FileSet(outputs) ensures exists i :: 0 <= i < |outputs| && outputs[i] == o && o.number == next + i {
      var i :| 0 <= i < |outputs| && outputs[i] == o;
    }
    FreshFilesKeepNumbers(v, Dropped(j), j.level + 1, FileSet(outputs), v', next, next + |outputs|);
  }

  /** A version with fewer entries keeps the ages of the memtables. */
  lemma FewerRowsKeepAges(s: State, s': State)
    requires Ages(s) && s'.mem == s.mem && s'.imm == s.imm && VersionRows(s'.version) <= VersionRows(s.version)
    ensures Ages(s')
  {
  }

  lemma DistinctSubset(a: set<Entry>, b: set<Entry>)
    requires a <= b && Distinct(b)
    ensures Distinct(a)
  {
  }

  lemma InputsDistinct(s: State, ins: set<Entry>)
    requires Recorded(s) && ins <= VersionRows(s.version)
    ensures Distinct(ins)
  {
  }

  /** What ending a compaction does to the state apart from its version's levels. */
  ghost predicate Ended(s: State, outputs: seq<File>, s': State)
    requires s.job.Some?
  {
    && s'.history == s.history && s'.lastSequence == s.lastSequence && s'.snapshots == s.snapshots
    && s'.mem == s.mem && s'.imm == s.imm
    && Ins(s.job.value) <= VersionRows(s.version)
    && RowsOf(FileSet(outputs)) == Kept(s.job.value)
    && VersionRows(s'.version) == (VersionRows(s.version) - Ins(s.job.value)) + Kept(s.job.value)
  }

  lemma ContentsAfterFinish(s: State, outputs: seq<File>, s': State)
    requires Recorded(s) && Ages(s) && s.job.Some? && Ended(s, outputs, s')
    ensures Contents(s') == (Contents(s) - Ins(s.job.value)) + Kept(s.job.value)
    ensures Recorded(s') && Ages(s') && Ins(s.job.value) <= Contents(s) && Distinct(Contents(s))
  {
    hide NewerSet, Keeps;
    FewerRowsKeepAges(s, s');
    DistinctSubset(Contents(s), s.history);
    InputsAreOld(s);
  }

  /** The inputs are in neither memtable. */
  lemma InputsAreOld(s: State)
    requires Ages(s) && s.job.Some? && Ins(s.job.value) <= VersionRows(s.version)
    ensures s.mem !! Ins(s.job.value) && Imm(s) !! Ins(s.job.value)
  {
    forall e | e in Ins(s.job.value) ensures e !in s.mem && e !in Imm(s) {
      assert e in VersionRows(s.version);
    }
  }

  /** The reads after a compaction are right exactly when nothing was uncovered. */
  lemma FinishReadsExactly(s: State, outputs: seq<File>, s': State)
    requires Inv(s) && s.job.Some? && Ended(s, outputs, s')
    ensures Recorded(s') && SnapshotsOrdered(s') && Ages(s')
    ensures Faithful(s') <==> NothingUncovered(Contents(s), Floor(s), s.job.value)
  {
    hide SameAnswers, JobFits, Shape, Distinct, Contents, Ended, NothingUncovered, Kept, Ins, Ages, Recorded;
    var j := s.job.value;
    ContentsAfterFinish(s, outputs, s');
    FinishInvisibleExactly(Contents(s), j, Floor(s));
    SameAnswersVia(Contents(s), Contents(s'), s.history, Floor(s));
    EndedFacts(s, outputs, s');
  }

  lemma EndedFacts(s: State, outputs: seq<File>, s': State)
    requires s.job.Some? && Ended(s, outputs, s')
    ensures s'.history == s.history && Floor(s') == Floor(s) && s'.snapshots == s.snapshots
              && s'.lastSequence == s.lastSequence
  {
  }

  lemma SameAnswersVia(a: set<Entry>, b: set<Entry>, c: set<Entry>, floor: nat)
    requires SameAnswers(a, c, floor)
    ensures SameAnswers(a, b, floor) <==> SameAnswers(b, c, floor)
  {
  }

  /** The facts of a finish step that hold whether or not it is safe. */
  lemma FinishFacts(s: State, input: seq<Entry>, outputs: seq<File>, s': State)
    requires Inv(s) && StepFinish(s, input, outputs, s')
    ensures Ended(s, outputs, s') && Disjoint(outputs) && AllSorted(outputs)
  {
    hide Sorted, KeptSet, KeptRows, Concat, LevelInvariant, LevelsOrdered, OneLevel, UniqueNumbers, Replaced,
         JobFits, Numbered, Faithful, SnapshotsOrdered, Ages, Recorded, Distinct, Contents, Ins, FileSet;
    var j := s.job.value;
    VersionAfterFinish(s.version, j, outputs, s'.version);
    InputsDistinct(s, Ins(j));
    OutputRows(j, input, outputs);
  }

  lemma FinishKeepsInv(s: State, input: seq<Entry>, outputs: seq<File>, s': State)
    requires Inv(s) && StepFinish(s, input, outputs, s') && s.job.value.level + 1 < |s.version| && Clean(s, outputs)
    ensures Inv(s')
  {
    hide Sorted, Kept, KeptRows, Concat, LevelInvariant, LevelsOrdered, OneLevel, UniqueNumbers, Replaced,
         JobFits, Numbered, Faithful, SnapshotsOrdered, Ages, Recorded, Distinct, Contents, Ins, FileSet,
         NothingUncovered, OutputsClear;
    FinishFacts(s, input, outputs, s');
    FinishKeepsShape(s.version, s.nextFile, s.job.value, outputs, s'.version);
    FinishReadsExactly(s, outputs, s');
  }

  lemma SafeIsClean(s: State, input: seq<Entry>, outputs: seq<File>, s': State)
    requires Inv(s) && StepFinish(s, input, outputs, s') && s.job.value.level + 1 < |s.version| && FinishSafe(s)
    ensures Clean(s, outputs)
  {
    hide Inv, StepFinish, NothingUncovered, RoomForOutputs, OutputsClear, Kept;
    RunningJob(s, input, outputs, s');
    FinishFacts(s, input, outputs, s');
    RoomIsClear(s.version, s.job.value, outputs);
  }

  /** An output and a file left in its level stand side by side afterwards. */
  lemma LeftBeside(s: State, input: seq<Entry>, outputs: seq<File>, s': State, g: File, o: File)
    requires Inv(s) && StepFinish(s, input, outputs, s') && o in outputs
    requires s.job.value.level + 1 < |s.version| && g in s.version[s.job.value.level + 1] && g !in s.job.value.in1
    ensures var m := s.job.value.level + 1; m < |s'.version| && g in s'.version[m] && o in s'.version[m] && g != o
  {
    hide KeptSet, KeptRows, Concat, LevelsOrdered, Distinct, Recorded, Ages, SnapshotsOrdered, Faithful, Contents,
         RestNewer, DeeperUnchanged, Connected, LevelInvariant, Sorted;
    var j, m := s.job.value, s.job.value.level + 1;
    assert o in FileSet(outputs);
    assert g.number < s.nextFile;
  }

  /** A compaction that ends with these outputs keeps the invariant if and only if they are clean. */
  lemma FinishKeepsExactly(s: State, input: seq<Entry>, outputs: seq<File>, s': State)
    requires Inv(s) && StepFinish(s, input, outputs, s') && s.job.value.level + 1 < |s.version|
    ensures Inv(s') <==> Clean(s, outputs)
  {
    hide StepFinish, NothingUncovered, Separate, Disjoint, Shape;
    RunningJob(s, input, outputs, s');
    if Clean(s, outputs) {
      FinishKeepsInv(s, input, outputs, s');
    }
    if Inv(s') {
      FinishFacts(s, input, outputs, s');
      FinishReadsExactly(s, outputs, s');
      LevelsOfInv(s');
      forall g, o | g in s.version[s.job.value.level + 1] && g !in s.job.value.in1 && o in outputs
        ensures Separate(o, g)
      {
        LeftBeside(s, input, outputs, s', g, o);
        DisjointIsSeparate(s'.version[s.job.value.level + 1], o, g);
      }
    }
  }

  lemma LevelsOfInv(s: State)
    requires Inv(s)
    ensures forall l :: 1 <= l < |s.version| ==> Disjoint(s.version[l])
  {
    hide Disjoint;
  }

  lemma AbortKeepsInv(s: State, s': State)
    requires Inv(s) && StepAbort(s, s')
    ensures Inv(s')
  {
    hide LevelInvariant, LevelsOrdered, OneLevel, UniqueNumbers, NewerSet, Recorded, Faithful, SnapshotsOrdered,
        JobFits;
    SameContentsSameReads(s, s');
  }

  // ---- Runs ----

  /** A step ends a compaction only with clean outputs. */
  ghost predicate Safe(s: State, step: Step) {
    step.DoFinish? && s.job.Some? && s.job.value.level + 1 < |s.version| ==> Clean(s, step.outputs)
  }

  lemma NextKeepsInv(s: State, step: Step, s': State)
    requires Inv(s) && |s.version| == NUM_LEVELS && Next(s, step, s') && Safe(s, step)
    ensures Inv(s')
  {
    hide Inv, Clean, StepWrite, StepFailedWrite, StepSwitch, StepSnapshot, StepRelease, StepFlush, StepMove,
         StepStart, StepFinish, StepAbort;
    match step
    case DoWrite(batch) => WriteKeepsInv(s, batch, s');
    case DoFailedWrite(n) => FailedWriteKeepsInv(s, n, s');
    case DoSwitch => SwitchKeepsInv(s, s');
    case DoSnapshot => SnapshotKeepsInv(s, s');
    case DoRelease(i) => ReleaseKeepsInv(s, i, s');
    case DoFlush(level, rows) => FlushKeepsInv(s, level, rows, s');
    case DoMove(level, f) => MoveKeepsInv(s, level, f, s');
    case DoStart(level, in0, in1, manual) => StartKeepsInv(s, level, in0, in1, manual, s');
    case DoFinish(input, outputs) =>
      RunningJob(s, input, outputs, s');
      FinishKeepsInv(s, input, outputs, s');
    case DoAbort => AbortKeepsInv(s, s');
  }

  ghost predicate Run(states: seq<State>, steps: seq<Step>) {
    && |states| == |steps| + 1
    && states[0] == Init()
    && forall i :: 0 <= i < |steps| ==> |states[i].version| == NUM_LEVELS && Next(states[i], steps[i], states[i + 1])
  }

  lemma RunningJob(s: State, input: seq<Entry>, outputs: seq<File>, s': State)
    requires Inv(s) && StepFinish(s, input, outputs, s')
    ensures s.job.Some? && s.job.value.level + 1 < |s.version|
  {
  }

  /** Every compaction that ended in the run ended with clean outputs. */
  ghost predicate SafeRun(states: seq<State>, steps: seq<Step>)
    requires |states| == |steps| + 1
  {
    forall i :: 0 <= i < |steps| ==> Safe(states[i], steps[i])
  }

  /** The invariant holds after every run whose compactions end safely. */
  lemma {:induction false} RunKeepsInv(states: seq<State>, steps: seq<Step>, n: nat)
    requires Run(states, steps) && SafeRun(states, steps) && n < |states|
    ensures Inv(states[n])
  {
    hide Inv, Init, Next, Safe;
    if n == 0 {
      InitInv();
    } else {
      RunKeepsInv(states, steps, n - 1);
      NextKeepsInv(states[n - 1], steps[n - 1], states[n]);
    }
  }

  /**
   * The invariant holds in every state of a run if and only if every compaction
   * that ended in it ended with clean outputs.
   */
  lemma SafeRunExactly(states: seq<State>, steps: seq<Step>)
    requires Run(states, steps)
    ensures SafeRun(states, steps) <==> forall n :: 0 <= n < |states| ==> Inv(states[n])
  {
    hide Inv, Init, Next, Clean;
    if SafeRun(states, steps) {
      forall n | 0 <= n < |states| ensures Inv(states[n]) {
        RunKeepsInv(states, steps, n);
      }
    }
    if forall n :: 0 <= n < |states| ==> Inv(states[n]) {
      forall i | 0 <= i < |steps| ensures Safe(states[i], steps[i]) {
        assert Inv(states[i]) && Inv(states[i + 1]);
        KeptIsSafe(states[i], steps[i], states[i + 1]);
      }
    }
  }

  lemma KeptIsSafe(s: State, step: Step, s': State)
    requires Inv(s) && Inv(s') && |s.version| == NUM_LEVELS && Next(s, step, s')
    ensures Safe(s, step)
  {
    hide Inv, Clean, StepFinish;
    if step.DoFinish? && s.job.Some? && s.job.value.level + 1 < |s.version| {
      FinishKeepsExactly(s, step.input, step.outputs, s');
    }
  }

  /** In every state of such a run, every live read point sees exactly the write history. */
  lemma RunRefinesHistory(states: seq<State>, steps: seq<Step>, n: nat, k: UserKey, snapshot: nat, r: Option<Bytes>)
    requires Run(states, steps) && SafeRun(states, steps) && n < |states| && ReadPoint(states[n], snapshot)
    ensures Answers(Contents(states[n]), k, snapshot, r) <==> Answers(states[n].history, k, snapshot, r)
    ensures LevelInvariant(states[n].version)
  {
    hide Next, Init, SafeRun, Answers;
    RunKeepsInv(states, steps, n);
    assert Floor(states[n]) <= snapshot;
  }
}
