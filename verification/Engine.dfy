/**
 * The storage engine as a state machine (db/db_impl.cc over db/version_set.cc):
 * writes, memtable switches, snapshots, flushes, trivial moves and compactions
 * that run while the other steps go on.  Runs whose compactions end with clean
 * outputs refine the write history.
 */
module Engine {
  import opened DbFormat
  import opened Version
  import opened Install
  import opened CompactionMerge
  import opened CompactionInputs

  /** A compaction between DoCompactionWork's first and last lock. */
  datatype Job = Job(level: nat, in0: seq<File>, in1: seq<File>, base: Levels, oldest: nat, manual: bool)

  datatype State = State(
    history: set<Entry>,        // every entry ever written
    lastSequence: nat,
    mem: set<Entry>,
    imm: Option<set<Entry>>,
    version: Levels,
    nextFile: nat,
    snapshots: seq<nat>,        // oldest first
    job: Option<Job>)

  ghost function Imm(s: State): set<Entry> {
    if s.imm.Some? then s.imm.value else {}
  }

  ghost function Contents(s: State): set<Entry> {
    s.mem + Imm(s) + VersionRows(s.version)
  }

  /** The oldest sequence a reader may still ask about. */
  function Floor(s: State): nat {
    if s.snapshots == [] then s.lastSequence else s.snapshots[0]
  }

  ghost function Ins(j: Job): set<Entry> {
    Rows(j.in0 + j.in1)
  }

  // ---- Steps ----

  datatype Write = Write(key: UserKey, value: Option<Bytes>)

  function WriteEntry(w: Write, sequence: nat): Entry {
    if w.value.Some? then Entry(InternalKey(w.key, sequence, Value), w.value.value)
    else Entry(InternalKey(w.key, sequence, Deletion), [])
  }

  /** The entries a batch inserts, numbered consecutively from `first`. */
  ghost function BatchEntries(batch: seq<Write>, first: nat): set<Entry> {
    set i | 0 <= i < |batch| :: WriteEntry(batch[i], first + i)
  }

  ghost predicate StepWrite(s: State, batch: seq<Write>, s': State) {
    && s.lastSequence + |batch| < MAX_SEQUENCE
    && var es := BatchEntries(batch, s.lastSequence + 1);
       s' == s.(history := s.history + es, mem := s.mem + es, lastSequence := s.lastSequence + |batch|)
  }

  /** A batch whose log write failed still uses up its sequence numbers. */
  ghost predicate StepFailedWrite(s: State, n: nat, s': State) {
    s.lastSequence + n < MAX_SEQUENCE && s' == s.(lastSequence := s.lastSequence + n)
  }

  ghost predicate StepSwitch(s: State, s': State) {
    s.imm.None? && s' == s.(mem := {}, imm := Some(s.mem))
  }

  ghost predicate StepSnapshot(s: State, s': State) {
    s' == s.(snapshots := s.snapshots + [s.lastSequence])
  }

  ghost predicate StepRelease(s: State, i: nat, s': State) {
    i < |s.snapshots| && s' == s.(snapshots := s.snapshots[..i] + s.snapshots[i + 1..])
  }

  /** PickLevelForMemTableOutput: down to level 2 while nothing overlaps on the way. */
  ghost predicate PlacedAt(v: Levels, level: nat, f: File)
    requires |v| == NUM_LEVELS
  {
    && level <= 2
    && (level > 0 ==> forall l, g :: 0 <= l <= level && g in v[l] ==>
          !Overlaps(g, Some(Smallest(f).user), Some(Largest(f).user)))
  }

  /** Every input lies on one side of the file. */
  ghost predicate Apart(f: File, ins: set<Entry>) {
    (forall e :: e in ins ==> Before(Largest(f), e.ikey)) || (forall e :: e in ins ==> Before(e.ikey, Smallest(f)))
  }

  /** A flush; it may come while a compaction runs, and land in any level its file fits in. */
  ghost predicate StepFlush(s: State, level: nat, rows: seq<Entry>, s': State)
    requires |s.version| == NUM_LEVELS
  {
    && s.imm.Some?
    && Sorted(rows) && RowSet(rows) == s.imm.value
    && (rows == [] ==> s' == s.(imm := None, nextFile := s.nextFile + 1))
    && (rows != [] ==>
          var f := FileMetaData(s.nextFile, rows);
          && PlacedAt(s.version, level, f)
          && Replaced(s.version, {}, level, {f}, s'.version)
          && s' == s.(imm := None, nextFile := s.nextFile + 1, version := s'.version))
  }

  ghost predicate StepMove(s: State, level: nat, f: File, s': State)
    requires |s.version| == NUM_LEVELS
  {
    && s.job.None? && level + 1 < NUM_LEVELS
    && InputsClosed(s.version, level, [f], [])
    && Replaced(s.version, {f}, level + 1, {f}, s'.version)
    && s' == s.(version := s'.version)
  }

  /** A compaction starts, with inputs closed as SetupOtherInputs closes them. */
  ghost predicate StepStart(s: State, level: nat, in0: seq<File>, in1: seq<File>, manual: bool, s': State)
    requires |s.version| == NUM_LEVELS
  {
    && s.job.None? && level + 1 < NUM_LEVELS
    && InputsClosed(s.version, level, in0, in1)
    && (!manual ==> Connected(in0 + in1))
    && s' == s.(job := Some(Job(level, in0, in1, s.version, Floor(s), manual)))
  }

  ghost function FileSet(fs: seq<File>): set<File> {
    set f | f in fs
  }

  ghost predicate StepFinish(s: State, input: seq<Entry>, outputs: seq<File>, s': State) {
    && s.job.Some?
    && var j := s.job.value;
       && Sorted(input) && RowSet(input) == Ins(j)
       && Concat(outputs) == KeptRows(input, |input|, j.base, j.level, j.oldest)
       && Numbered(outputs, s.nextFile)
       && Replaced(s.version, FileSet(j.in0 + j.in1), j.level + 1, FileSet(outputs), s'.version)
       && s' == s.(version := s'.version, nextFile := s.nextFile + |outputs|, job := None)
  }

  ghost predicate StepAbort(s: State, s': State) {
    s.job.Some? && s' == s.(job := None)
  }

  datatype Step =
    | DoWrite(batch: seq<Write>)
    | DoFailedWrite(n: nat)
    | DoSwitch
    | DoSnapshot
    | DoRelease(i: nat)
    | DoFlush(level: nat, rows: seq<Entry>)
    | DoMove(fromLevel: nat, f: File)
    | DoStart(compactLevel: nat, in0: seq<File>, in1: seq<File>, manual: bool)
    | DoFinish(input: seq<Entry>, outputs: seq<File>)
    | DoAbort

  ghost predicate Next(s: State, step: Step, s': State)
    requires |s.version| == NUM_LEVELS
  {
    match step
    case DoWrite(batch) => StepWrite(s, batch, s')
    case DoFailedWrite(n) => StepFailedWrite(s, n, s')
    case DoSwitch => StepSwitch(s, s')
    case DoSnapshot => StepSnapshot(s, s')
    case DoRelease(i) => StepRelease(s, i, s')
    case DoFlush(level, rows) => StepFlush(s, level, rows, s')
    case DoMove(level, f) => StepMove(s, level, f, s')
    case DoStart(level, in0, in1, manual) => StepStart(s, level, in0, in1, manual, s')
    case DoFinish(input, outputs) => StepFinish(s, input, outputs, s')
    case DoAbort => StepAbort(s, s')
  }

  function Init(): State {
    State({}, 0, {}, None, [[], [], [], [], [], [], []], 2, [], None)
  }

  // ---- Invariant ----

  ghost predicate Shape(s: State) {
    && LevelInvariant(s.version)
    && LevelsOrdered(s.version)
    && OneLevel(s.version)
    && UniqueNumbers(s.version, s.nextFile)
  }

  ghost predicate NewerSet(a: set<Entry>, b: set<Entry>) {
    forall x, y :: x in a && y in b && x.ikey.user == y.ikey.user ==> x.ikey.sequence > y.ikey.sequence
  }

  /** The memtable is newer than the immutable one, which is newer than the tables. */
  ghost predicate Ages(s: State) {
    && NewerSet(s.mem, Imm(s))
    && NewerSet(s.mem, VersionRows(s.version))
    && NewerSet(Imm(s), VersionRows(s.version))
  }

  ghost predicate Recorded(s: State) {
    && Distinct(s.history)
    && (forall e :: e in s.history ==> e.ikey.sequence <= s.lastSequence)
    && Contents(s) <= s.history
    && s.lastSequence < MAX_SEQUENCE
  }

  /** Reads at or above the floor see the history. */
  ghost predicate Faithful(s: State) {
    SameAnswers(Contents(s), s.history, Floor(s))
  }

  ghost predicate SnapshotsOrdered(s: State) {
    && (forall i, j :: 0 <= i < j < |s.snapshots| ==> s.snapshots[i] <= s.snapshots[j])
    && (forall i :: 0 <= i < |s.snapshots| ==> s.snapshots[i] <= s.lastSequence)
  }

  ghost predicate NoShared(rows: seq<Entry>, ins: set<Entry>) {
    forall a, b :: a in rows && b in ins ==> a.ikey.user != b.ikey.user
  }

  ghost predicate DeeperUnchanged(v: Levels, j: Job)
    requires |j.base| == |v|
  {
    forall l, f :: j.level + 2 <= l < |v| && f in v[l] ==> f in j.base[l] || NoShared(f.rows, Ins(j))
  }

  /** What a running compaction may rely on, whatever other steps did meanwhile. */
  ghost predicate JobFits(v: Levels, j: Job) {
    && LevelInvariant(v) && LevelInvariant(j.base) && j.level + 1 < |v|
    && j.in0 != [] && NoDup(j.in0) && NoDup(j.in1) && Within(j.in0, v[j.level]) && Within(j.in1, v[j.level + 1])
    && RestNewer(v[j.level], j.in0)
    && DeeperUnchanged(v, j)
    && (!j.manual ==> Connected(j.in0 + j.in1))
  }

  ghost predicate JobOk(s: State) {
    s.job.Some? ==> JobFits(s.version, s.job.value) && s.job.value.oldest <= Floor(s)
  }

  ghost predicate Inv(s: State) {
    Shape(s) && Ages(s) && Recorded(s) && Faithful(s) && SnapshotsOrdered(s) && JobOk(s)
  }

  // ---- When the end of a compaction is safe ----

  /** What the merge loop keeps of a job's inputs. */
  ghost function Kept(j: Job): set<Entry> {
    KeptSet(Ins(j), j.base, j.level, j.oldest)
  }

  /** Every file left in the level the job writes to lies wholly to one side of what it writes. */
  ghost predicate RoomForOutputs(v: Levels, j: Job)
    requires j.level + 1 < |v|
  {
    forall g :: g in v[j.level + 1] && g !in j.in1 ==> Apart(g, Kept(j))
  }

  /** No deletion the loop drops covers a value left outside the inputs at a live read point. */
  ghost predicate NothingUncovered(contents: set<Entry>, floor: nat, j: Job) {
    forall e, x :: !Uncovers(contents - Ins(j), Ins(j), j.base, j.level, j.oldest, floor, e, x)
  }

  /** No output overlaps a file left in its level. */
  ghost predicate OutputsClear(v: Levels, j: Job, outputs: seq<File>)
    requires j.level + 1 < |v|
  {
    forall g, o :: g in v[j.level + 1] && g !in j.in1 && o in outputs ==> Separate(o, g)
  }

  /** What it takes to end the running compaction with these outputs. */
  ghost predicate Clean(s: State, outputs: seq<File>)
    requires s.job.Some? && s.job.value.level + 1 < |s.version|
  {
    OutputsClear(s.version, s.job.value, outputs) && NothingUncovered(Contents(s), Floor(s), s.job.value)
  }

  /** What it takes to end it however its outputs are cut; `FinishSafeExactly` shows that this is exact. */
  ghost predicate FinishSafe(s: State)
    requires s.job.Some? && s.job.value.level + 1 < |s.version|
  {
    RoomForOutputs(s.version, s.job.value) && NothingUncovered(Contents(s), Floor(s), s.job.value)
  }

  // ---- Reads ----

  /** MemTable::Get: the entry at the head of the user key's visible run. */
  method MemGet(m: seq<Entry>, k: UserKey, snapshot: nat) returns (r: Lookup)
    requires Sorted(m)
    ensures r.Here? ==> IsNewest(RowSet(m), k, snapshot, r.e)
    ensures r.NotHere? ==> NoneVisible(RowSet(m), k, snapshot)
  {
    if m == [] {
      r := NotHere;
    } else {
      r := TableGet(FileMetaData(0, m), k, snapshot);
    }
  }

  ghost predicate ReadPoint(s: State, snapshot: nat) {
    snapshot in s.snapshots || snapshot == s.lastSequence
  }

  /**
   * DBImpl::Get at a live snapshot, or at the last sequence: memtable, then
   * immutable memtable, then the levels.  The answer is that of the history.
   */
  method Get(ghost s: State, mem: seq<Entry>, imm: seq<Entry>, current: Levels, k: UserKey, snapshot: nat)
    returns (r: Option<Bytes>)
    requires Inv(s) && ReadPoint(s, snapshot) && current == s.version
    requires Sorted(mem) && RowSet(mem) == s.mem && Sorted(imm) && RowSet(imm) == Imm(s)
    ensures Answers(s.history, k, snapshot, r)
  {
    var hit := MemGet(mem, k, snapshot);
    if hit.NotHere? {
      hit := MemGet(imm, k, snapshot);
      if hit.NotHere? {
        OrderedDistinct(current[0]);
        hit := Version.Get(current, k, snapshot);
      }
    }
    r := if hit.Here? then Told(hit.e) else None;
    if hit.Here? {
      assert IsNewest(Contents(s), k, snapshot, hit.e);
    } else {
      assert NoneVisible(Contents(s), k, snapshot);
    }
    assert Answers(Contents(s), k, snapshot, r);
  }
}
