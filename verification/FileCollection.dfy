/**
 * When table files may be deleted (DeleteObsoleteFiles, WriteLevel0Table,
 * CompactMemTable and the output files of a compaction in db/db_impl.cc;
 * reference counts of versions in db/version_set.cc).  One background worker
 * flushes and compacts, with the mutex released in between, while readers take
 * and drop references to versions.
 */
module FileCollection {
  /** A version: the table files it names, and its references. */
  datatype Version = Version(files: set<nat>, refs: nat)

  /** A flush inside the worker. */
  datatype Flush =
    | NoFlush
    | Building(number: nat, base: nat, created: bool)   // pending; the table is being written
    | Built(tables: set<nat>)                           // no longer pending and not installed yet; none if empty
    | FlushInstalled

  /** A compaction inside the worker; `outputs` have been opened, `written` finished. */
  datatype Compaction =
    | NoCompaction
    | Running(input: nat, inputs: set<nat>, outputs: set<nat>, written: set<nat>)
    | Ended(input: nat, outputs: set<nat>)              // installed or failed
    | Cleaned(input: nat)
    | Released

  datatype State = State(
    disk: set<nat>,
    pending: set<nat>,
    versions: map<nat, Version>,
    current: nat,
    nextVersion: nat,
    nextFile: nat,
    readers: multiset<nat>,
    flush: Flush,
    compaction: Compaction,
    error: bool)

  predicate Init(s: State) {
    s == State({}, {}, map[0 := Version({}, 1)], 0, 1, 1, multiset{}, NoFlush, NoCompaction, false)
  }

  // ---- Version references ----

  function Ref(versions: map<nat, Version>, v: nat): map<nat, Version>
    requires v in versions
  {
    versions[v := versions[v].(refs := versions[v].refs + 1)]
  }

  /** Dropping the last reference deletes the version. */
  function Unref(versions: map<nat, Version>, v: nat): map<nat, Version>
    requires v in versions && versions[v].refs >= 1
  {
    if versions[v].refs == 1 then versions - {v} else versions[v := versions[v].(refs := versions[v].refs - 1)]
  }

  /** AppendVersion: a new current version; the old one loses its reference. */
  function Append(s: State, files: set<nat>): State
    requires s.current in s.versions && s.versions[s.current].refs >= 1
  {
    s.(versions := Unref(s.versions, s.current)[s.nextVersion := Version(files, 1)], current := s.nextVersion,
        nextVersion := s.nextVersion + 1)
  }

  // ---- Collection ----

  /** AddLiveFiles over all versions in the list. */
  ghost function VersionFiles(versions: map<nat, Version>): set<nat> {
    set v, f | v in versions && f in versions[v].files :: f
  }

  ghost function Live(s: State): set<nat> {
    s.pending + VersionFiles(s.versions)
  }

  ghost function Collect(s: State): State {
    if s.error then s else s.(disk := s.disk * Live(s))
  }

  // ---- Readers ----

  ghost predicate TakeReader(s: State, s': State) {
    && s.current in s.versions
    && s' == s.(versions := Ref(s.versions, s.current), readers := s.readers + multiset{s.current})
  }

  ghost predicate DropReader(s: State, s': State, v: nat) {
    && v in s.readers && v in s.versions && s.versions[v].refs >= 1
    && s' == s.(versions := Unref(s.versions, v), readers := s.readers - multiset{v})
  }

  // ---- Flush ----

  ghost predicate FlushStart(s: State, s': State) {
    && s.flush.NoFlush? && (s.compaction.NoCompaction? || s.compaction.Running?) && s.current in s.versions
    && s' == s.(nextFile := s.nextFile + 1, pending := s.pending + {s.nextFile}, versions := Ref(s.versions, s.current),
                flush := Building(s.nextFile, s.current, false))
  }

  ghost predicate FlushWrite(s: State, s': State) {
    && s.flush.Building?
    && s' == s.(disk := s.disk + {s.flush.number}, flush := Building(s.flush.number, s.flush.base, true))
  }

  /** The table is done: out of the pending set, though no version names it yet. */
  ghost predicate FlushBuilt(s: State, s': State) {
    && s.flush.Building? && s.flush.base in s.versions && s.versions[s.flush.base].refs >= 1
    && s' == s.(pending := s.pending - {s.flush.number}, versions := Unref(s.versions, s.flush.base),
                flush := Built(if s.flush.created then {s.flush.number} else {}))
  }

  /** The table could not be written. */
  ghost predicate FlushAbandon(s: State, s': State) {
    && s.flush.Building? && s.flush.base in s.versions && s.versions[s.flush.base].refs >= 1
    && s' == s.(pending := s.pending - {s.flush.number}, versions := Unref(s.versions, s.flush.base),
        flush := NoFlush, error := true)
  }

  ghost predicate FlushInstall(s: State, s': State) {
    && s.flush.Built? && s.current in s.versions && s.versions[s.current].refs >= 1
    && s' == Append(s, s.versions[s.current].files + s.flush.tables).(flush := FlushInstalled)
  }

  ghost predicate FlushFail(s: State, s': State) {
    s.flush.Built? && s' == s.(flush := NoFlush, error := true)
  }

  ghost predicate FlushCollect(s: State, s': State) {
    s.flush.FlushInstalled? && s' == Collect(s).(flush := NoFlush)
  }

  // ---- Compaction ----

  ghost predicate CompactStart(s: State, s': State, inputs: set<nat>) {
    && s.compaction.NoCompaction? && s.flush.NoFlush? && s.current in s.versions
        && inputs <= s.versions[s.current].files
    && s' == s.(versions := Ref(s.versions, s.current), compaction := Running(s.current, inputs, {}, {}))
  }

  ghost predicate CompactOpen(s: State, s': State) {
    && s.compaction.Running? && s.flush.NoFlush?
    && var c := s.compaction;
       s' == s.(nextFile := s.nextFile + 1, pending := s.pending + {s.nextFile},
                compaction := Running(c.input, c.inputs, c.outputs + {s.nextFile}, c.written))
  }

  ghost predicate CompactWrite(s: State, s': State, n: nat) {
    && s.compaction.Running? && s.flush.NoFlush? && n in s.compaction.outputs
    && var c := s.compaction;
       s' == s.(disk := s.disk + {n}, compaction := Running(c.input, c.inputs, c.outputs, c.written + {n}))
  }

  ghost predicate CompactInstall(s: State, s': State) {
    && s.compaction.Running? && s.flush.NoFlush? && s.compaction.written == s.compaction.outputs
    && s.current in s.versions && s.versions[s.current].refs >= 1
    && var c := s.compaction;
       s' == Append(s, s.versions[s.current].files - c.inputs + c.outputs).(compaction := Ended(c.input, c.outputs))
  }

  ghost predicate CompactFail(s: State, s': State) {
    && s.compaction.Running? && s.flush.NoFlush?
    && s' == s.(compaction := Ended(s.compaction.input, s.compaction.outputs), error := true)
  }

  /** CleanupCompaction, ReleaseInputs and DeleteObsoleteFiles follow each other. */
  ghost predicate CompactClean(s: State, s': State) {
    && s.compaction.Ended?
    && s' == s.(pending := s.pending - s.compaction.outputs, compaction := Cleaned(s.compaction.input))
  }

  ghost predicate CompactRelease(s: State, s': State) {
    && s.compaction.Cleaned? && s.compaction.input in s.versions && s.versions[s.compaction.input].refs >= 1
    && s' == s.(versions := Unref(s.versions, s.compaction.input), compaction := Released)
  }

  ghost predicate CompactCollect(s: State, s': State) {
    s.compaction.Released? && s.flush.NoFlush? && s' == Collect(s).(compaction := NoCompaction)
  }

  /** A trivial move names the same files in another level. */
  ghost predicate Move(s: State, s': State) {
    && s.compaction.NoCompaction? && s.flush.NoFlush? && s.current in s.versions && s.versions[s.current].refs >= 1
    && s' == Append(s, s.versions[s.current].files)
  }

  ghost predicate ReaderStep(s: State, s': State) {
    TakeReader(s, s') || exists v :: DropReader(s, s', v)
  }

  ghost predicate FlushStep(s: State, s': State) {
    || FlushStart(s, s') || FlushWrite(s, s') || FlushBuilt(s, s') || FlushAbandon(s, s')
    || FlushInstall(s, s') || FlushFail(s, s') || FlushCollect(s, s')
  }

  ghost predicate CompactStep(s: State, s': State) {
    || (exists inputs :: CompactStart(s, s', inputs)) || CompactOpen(s, s') || (exists n :: CompactWrite(s, s', n))
    || CompactInstall(s, s') || CompactFail(s, s') || CompactClean(s, s') || CompactRelease(s, s')
        || CompactCollect(s, s') || Move(s, s')
  }

  ghost predicate Next(s: State, s': State) {
    ReaderStep(s, s') || FlushStep(s, s') || CompactStep(s, s')
  }

  // ---- The invariant ----

  /** References the worker holds to a version. */
  function WorkerRefs(s: State, v: nat): nat {
    (if s.flush.Building? && s.flush.base == v then 1 else 0)
    + if (s.compaction.Running? || s.compaction.Ended? || s.compaction.Cleaned?)
        && s.compaction.input == v then 1 else 0
  }

  function Refs(s: State, v: nat): nat {
    (if s.current == v then 1 else 0) + s.readers[v] + WorkerRefs(s, v)
  }

  /** A version is in the list exactly as long as somebody refers to it. */
  ghost predicate Counted(s: State) {
    && (forall v :: v in s.versions <==> Refs(s, v) > 0)
    && (forall v :: v in s.versions ==> s.versions[v].refs == Refs(s, v) && v < s.nextVersion)
  }

  /** Every file a listed version names is on disk. */
  ghost predicate Present(s: State) {
    forall v :: v in s.versions ==> s.versions[v].files <= s.disk
  }

  /** What the worker is still to install is on disk, and protected while a collection may come. */
  ghost predicate InHand(s: State) {
    && (s.flush.Building? ==> s.flush.number in s.pending && (s.flush.created ==> s.flush.number in s.disk))
    && (s.flush.Built? ==> s.flush.tables <= s.disk)
    && (s.compaction.Running? ==>
        && s.compaction.written <= s.compaction.outputs <= s.pending
        && s.compaction.written <= s.disk)
    && (s.compaction.Running? && s.flush.Building? ==> s.flush.number !in s.compaction.outputs)
    && (!s.flush.NoFlush? ==> s.compaction.NoCompaction? || s.compaction.Running?)
  }

  ghost predicate Fresh(s: State) {
    && (forall f :: f in s.pending ==> f < s.nextFile)
    && (s.flush.Building? ==> s.flush.number < s.nextFile)
    && (s.compaction.Running? ==> forall f :: f in s.compaction.outputs ==> f < s.nextFile)
  }

  ghost predicate Inv(s: State) {
    Counted(s) && Present(s) && InHand(s) && Fresh(s)
  }

  lemma InitInv(s: State)
    requires Init(s)
    ensures Inv(s)
  {
  }

  // ---- Reference counts, step by step ----

  lemma RefCounted(s: State, s': State, v: nat)
    requires Counted(s) && Present(s) && Refs(s, v) > 0 && v in s.versions && s'.versions == Ref(s.versions, v)
               && s'.nextVersion == s.nextVersion
    requires s.disk <= s'.disk && forall u :: Refs(s', u) == Refs(s, u) + if u == v then 1 else 0
    ensures Counted(s') && Present(s')
  {
  }

  lemma UnrefCounted(s: State, s': State, v: nat)
    requires Counted(s) && Present(s) && v in s.versions && s.versions[v].refs >= 1
    requires s'.versions == Unref(s.versions, v) && s'.nextVersion == s.nextVersion
    requires s.disk <= s'.disk && forall u :: Refs(s', u) == Refs(s, u) - if u == v then 1 else 0
    ensures Counted(s') && Present(s')
  {
  }

  lemma SameCounted(s: State, s': State)
    requires Counted(s) && Present(s) && s'.versions == s.versions && s'.nextVersion == s.nextVersion
    requires s.disk <= s'.disk && forall u :: Refs(s', u) == Refs(s, u)
    ensures Counted(s') && Present(s')
  {
  }

  lemma AppendCounted(s: State, files: set<nat>)
    requires Counted(s) && Present(s) && files <= s.disk
    ensures s.current in s.versions && s.versions[s.current].refs >= 1 && Counted(Append(s, files))
              && Present(Append(s, files))
  {
    var t := Append(s, files);
    RefsMove(s, t);
    AppendCounts(s, t, files);
  }

  lemma RefsMove(s: State, t: State)
    requires t == s.(versions := t.versions, current := t.current, nextVersion := t.nextVersion)
    ensures forall v :: Refs(t, v) == Refs(s, v) + (if v == t.current then 1 else 0) - (if v == s.current then 1 else 0)
  {
  }

  lemma AppendCounts(s: State, t: State, files: set<nat>)
    requires Counted(s) && Present(s) && files <= s.disk && s.current in s.versions && s.versions[s.current].refs >= 1
    requires s.nextVersion !in s.versions && t == Append(s, files)
    requires forall v ::
               Refs(t, v) == Refs(s, v) + (if v == t.current then 1 else 0) - (if v == s.current then 1 else 0)
    ensures Counted(t) && Present(t)
  {
    hide Refs;
  }

  lemma CurrentListed(s: State)
    requires Counted(s)
    ensures s.current in s.versions && Refs(s, s.current) > 0
  {
  }

  // ---- Each step keeps the invariant ----

  lemma TakeReaderKeeps(s: State, s': State)
    requires Inv(s) && TakeReader(s, s')
    ensures Inv(s')
  {
    hide Counted, Present;
    CurrentListed(s);
    forall u ensures Refs(s', u) == Refs(s, u) + if u == s.current then 1 else 0 {}
    RefCounted(s, s', s.current);
  }

  lemma DropReaderKeeps(s: State, s': State, v: nat)
    requires Inv(s) && DropReader(s, s', v)
    ensures Inv(s')
  {
    hide Counted, Present;
    forall u ensures Refs(s', u) == Refs(s, u) - if u == v then 1 else 0 {}
    UnrefCounted(s, s', v);
  }

  lemma ReaderKeeps(s: State, s': State)
    requires Inv(s) && ReaderStep(s, s')
    ensures Inv(s')
  {
    hide Inv, TakeReader, DropReader;
    if TakeReader(s, s') {
      TakeReaderKeeps(s, s');
    } else {
      var v :| DropReader(s, s', v);
      DropReaderKeeps(s, s', v);
    }
  }

  lemma CollectKeeps(s: State)
    requires Inv(s) && !s.flush.Built?
    ensures Inv(Collect(s))
  {
  }

  lemma FlushStartKeeps(s: State, s': State)
    requires Inv(s) && (FlushStart(s, s') || FlushWrite(s, s'))
    ensures Inv(s')
  {
    hide Counted, Present;
    CurrentListed(s);
    if FlushStart(s, s') {
      RefCounted(s, s', s.current);
    } else {
      SameCounted(s, s');
    }
  }

  lemma FlushEndKeeps(s: State, s': State)
    requires Inv(s) && (FlushBuilt(s, s') || FlushAbandon(s, s'))
    ensures Inv(s')
  {
    hide Counted, Present;
    UnrefCounted(s, s', s.flush.base);
  }

  lemma FlushFailKeeps(s: State, s': State)
    requires Inv(s) && FlushFail(s, s')
    ensures Inv(s')
  {
  }

  lemma FlushInstallKeeps(s: State, s': State)
    requires Inv(s) && (FlushInstall(s, s') || FlushCollect(s, s'))
    ensures Inv(s')
  {
    if FlushInstall(s, s') {
      assert s.versions[s.current].files <= s.disk;
      hide Counted, Present;
      var files := s.versions[s.current].files + s.flush.tables;
      AppendCounted(s, files);
      SameCounted(Append(s, files), s');
    } else {
      hide Counted, Present;
      CollectKeeps(s);
      SameCounted(Collect(s), s');
    }
  }

  lemma FlushKeeps(s: State, s': State)
    requires Inv(s) && FlushStep(s, s')
    ensures Inv(s')
  {
    hide Inv, FlushStart, FlushWrite, FlushBuilt, FlushAbandon, FlushInstall, FlushFail, FlushCollect;
    if FlushStart(s, s') || FlushWrite(s, s') {
      FlushStartKeeps(s, s');
    } else if FlushInstall(s, s') || FlushCollect(s, s') {
      FlushInstallKeeps(s, s');
    } else if FlushFail(s, s') {
      FlushFailKeeps(s, s');
    } else {
      FlushEndKeeps(s, s');
    }
  }

  lemma CompactStartKeeps(s: State, s': State)
    requires Inv(s) && ((exists inputs :: CompactStart(s, s', inputs)) || CompactRelease(s, s'))
    ensures Inv(s')
  {
    hide Counted, Present;
    CurrentListed(s);
    if inputs :| CompactStart(s, s', inputs) {
      RefCounted(s, s', s.current);
    } else {
      UnrefCounted(s, s', s.compaction.input);
    }
  }

  lemma CompactWorkKeeps(s: State, s': State)
    requires Inv(s) && (CompactOpen(s, s') || (exists n :: CompactWrite(s, s', n)) || CompactFail(s, s')
               || CompactClean(s, s'))
    ensures Inv(s')
  {
    hide Counted, Present;
    SameCounted(s, s');
  }

  lemma CompactInstallKeeps(s: State, s': State)
    requires Inv(s) && CompactInstall(s, s')
    ensures Inv(s')
  {
    assert s.versions[s.current].files <= s.disk;
    hide Counted, Present;
    var files := s.versions[s.current].files - s.compaction.inputs + s.compaction.outputs;
    AppendCounted(s, files);
    SameCounted(Append(s, files), s');
  }

  lemma CompactCollectKeeps(s: State, s': State)
    requires Inv(s) && (CompactCollect(s, s') || Move(s, s'))
    ensures Inv(s')
  {
    if CompactCollect(s, s') {
      hide Counted, Present;
      CollectKeeps(s);
      SameCounted(Collect(s), s');
    } else {
      assert s.versions[s.current].files <= s.disk;
      hide Counted, Present;
      AppendCounted(s, s.versions[s.current].files);
    }
  }

  lemma CompactKeeps(s: State, s': State)
    requires Inv(s) && CompactStep(s, s')
    ensures Inv(s')
  {
    hide Inv, CompactStart, CompactOpen, CompactWrite, CompactInstall, CompactFail, CompactClean, CompactRelease,
        CompactCollect, Move;
    if CompactCollect(s, s') || Move(s, s') {
      CompactCollectKeeps(s, s');
    } else if CompactInstall(s, s') {
      CompactInstallKeeps(s, s');
    } else if CompactOpen(s, s') || CompactFail(s, s') || CompactClean(s, s') || exists n :: CompactWrite(s, s', n) {
      CompactWorkKeeps(s, s');
    } else {
      CompactStartKeeps(s, s');
    }
  }

  // ---- Whole runs ----

  ghost predicate Run(run: seq<State>) {
    run != [] && Init(run[0]) && Steps(run)
  }

  ghost predicate Steps(run: seq<State>) {
    forall i, j :: 0 <= i && j == i + 1 < |run| ==> Next(run[i], run[j])
  }

  lemma RunKeepsInv(run: seq<State>, i: nat)
    requires Run(run) && i < |run|
    ensures Inv(run[i])
  {
    hide Inv, Next, Init;
    InitInv(run[0]);
    StepsKeepInv(run, i);
  }

  lemma {:induction false} StepsKeepInv(run: seq<State>, i: nat)
    requires run != [] && Inv(run[0]) && Steps(run) && i < |run|
    ensures Inv(run[i])
  {
    hide Inv, ReaderStep, FlushStep, CompactStep;
    if i > 0 {
      StepsKeepInv(run, i - 1);
      if ReaderStep(run[i - 1], run[i]) {
        ReaderKeeps(run[i - 1], run[i]);
      } else if FlushStep(run[i - 1], run[i]) {
        FlushKeeps(run[i - 1], run[i]);
      } else {
        CompactKeeps(run[i - 1], run[i]);
      }
    }
  }

  /** Files a step takes from the disk. */
  ghost function Deleted(s: State, s': State): set<nat> {
    s.disk - s'.disk
  }

  /** No step deletes a pending file or one that a version somebody refers to names. */
  lemma StepDeletesNoLiveFile(s: State, s': State)
    requires Next(s, s')
    ensures Deleted(s, s') !! Live(s)
  {
    hide Live;
  }

  /**
   * In every run, no step deletes a table named by a version somebody refers to,
   * a pending output, or a flushed table that has left the pending set and waits
   * for its version; every version's tables are on disk.
   */
  lemma RunDeletesNothingNeeded(run: seq<State>, i: nat)
    requires Run(run) && i + 1 < |run|
    ensures Deleted(run[i], run[i + 1]) !! Live(run[i])
    ensures run[i].flush.Built? ==>
              && run[i].flush.tables <= run[i].disk
              && run[i].flush.tables !! Deleted(run[i], run[i + 1])
    ensures forall v :: v in run[i].versions ==> run[i].versions[v].files <= run[i].disk
  {
    hide Counted, Next, Live;
    RunKeepsInv(run, i);
    StepDeletesNoLiveFile(run[i], run[i + 1]);
    if run[i].flush.Built? { BuiltIsKept(run[i], run[i + 1]); }
  }

  lemma BuiltIsKept(s: State, s': State)
    requires InHand(s) && Next(s, s') && s.flush.Built?
    ensures Deleted(s, s') == {}
  {
  }

  /** A collection without error leaves of the disk exactly the pending files and those of the listed versions. */
  lemma CollectIsExact(s: State, s': State)
    requires Inv(s) && !s.error && (FlushCollect(s, s') || CompactCollect(s, s'))
    ensures forall f :: f in s'.disk <==>
              (f in s.disk && f in s.pending) || exists v :: v in s.versions && f in s.versions[v].files
  {
    hide Counted, InHand, Fresh;
    forall f | f in s'.disk && f !in s.pending ensures exists v :: v in s.versions && f in s.versions[v].files {
      assert f in VersionFiles(s.versions);
    }
    forall f | exists v :: v in s.versions && f in s.versions[v].files ensures f in s'.disk {
      assert f in VersionFiles(s.versions);
    }
  }

  /** With no reader and nothing pending, the collection after a compaction leaves the current version's files. */
  lemma IdleCollect(s: State, s': State)
    requires Inv(s) && !s.error && CompactCollect(s, s') && s.readers == multiset{} && s.pending == {}
    ensures s'.current in s'.versions && s'.disk == s'.versions[s'.current].files
  {
    CollectIsExact(s, s');
    forall v ensures v in s.versions <==> v == s.current {
      assert v in s.versions <==> Refs(s, v) > 0;
    }
  }

  // ---- Whole flushes and compactions ----

  /** An idle worker can flush: the current version then has the new table too, and it is on disk. */
  lemma FlushRun(s: State) returns (run: seq<State>)
    requires Inv(s) && s.flush.NoFlush? && s.compaction.NoCompaction? && !s.error
    ensures run != [] && run[0] == s && Steps(run)
    ensures var last := run[|run| - 1];
              && last.flush.NoFlush? && last.current in last.versions && s.current in s.versions
              && last.versions[last.current].files == s.versions[s.current].files + {s.nextFile}
              && s.nextFile in last.disk && last.pending == s.pending - {s.nextFile}
  {
    hide Counted, Present, InHand, Fresh, Live;
    CurrentHeld(s);
    var s1 := s.(nextFile := s.nextFile + 1, pending := s.pending + {s.nextFile},
        versions := Ref(s.versions, s.current),
                 flush := Building(s.nextFile, s.current, false));
    assert FlushStart(s, s1);
    var s2 := s1.(disk := s.disk + {s.nextFile}, flush := Building(s.nextFile, s.current, true));
    assert FlushWrite(s1, s2);
    var s3 := s2.(pending := s1.pending - {s.nextFile}, versions := Unref(s1.versions, s.current),
                  flush := Built({s.nextFile}));
    assert FlushBuilt(s2, s3);
    var s4 := Append(s3, s3.versions[s.current].files + {s.nextFile}).(flush := FlushInstalled);
    assert FlushInstall(s3, s4);
    var s5 := Collect(s4).(flush := NoFlush);
    assert FlushCollect(s4, s5);
    NamedIsLive(s4);
    run := [s, s1, s2, s3, s4, s5];
  }

  lemma CurrentHeld(s: State)
    requires Inv(s)
    ensures s.current in s.versions && s.versions[s.current].refs >= 1 && s.current < s.nextVersion
  {
    CurrentListed(s);
  }

  lemma NamedIsLive(s: State)
    requires s.current in s.versions
    ensures s.versions[s.current].files <= Live(s)
  {
  }

  /** An idle worker can compact: the current version has the output in the place of the inputs. */
  lemma CompactRun(s: State, inputs: set<nat>) returns (run: seq<State>)
    requires Inv(s) && s.flush.NoFlush? && s.compaction.NoCompaction? && !s.error
    requires s.current in s.versions && inputs <= s.versions[s.current].files
    ensures run != [] && run[0] == s && Steps(run)
    ensures var last := run[|run| - 1];
              && last.compaction.NoCompaction? && last.current in last.versions
              && last.versions[last.current].files == s.versions[s.current].files - inputs + {s.nextFile}
              && last.versions[last.current].files <= last.disk && last.pending == s.pending - {s.nextFile}
  {
    hide Counted, Present, InHand, Fresh, Live;
    var v, n := s.current, s.nextFile;
    CurrentHeld(s);
    var s1 := s.(versions := Ref(s.versions, v), compaction := Running(v, inputs, {}, {}));
    assert CompactStart(s, s1, inputs);
    var s2 := s1.(nextFile := n + 1, pending := s.pending + {n}, compaction := Running(v, inputs, {n}, {}));
    assert {} + {n} == {n} && CompactOpen(s1, s2);
    var s3 := s2.(disk := s.disk + {n}, compaction := Running(v, inputs, {n}, {n}));
    assert CompactWrite(s2, s3, n);
    var s4 := Append(s3, s3.versions[v].files - inputs + {n}).(compaction := Ended(v, {n}));
    assert CompactInstall(s3, s4);
    var s5 := s4.(pending := s4.pending - {n}, compaction := Cleaned(v));
    assert CompactClean(s4, s5);
    run := [s, s1, s2, s3, s4, s5];
    StepsKeepInv(run, 5);
    var rest := CompactEnds(s5);
    run := run + rest;
  }

  /** What follows a compaction once its outputs are no longer pending. */
  lemma CompactEnds(s: State) returns (run: seq<State>)
    requires Inv(s) && s.flush.NoFlush? && s.compaction.Cleaned? && s.compaction.input != s.current
    ensures |run| == 2 && CompactRelease(s, run[0]) && CompactCollect(run[0], run[1])
    ensures var last := run[1];
              && last.current == s.current && s.current in s.versions && s.current in last.versions
              && last.versions[s.current].files == s.versions[s.current].files <= last.disk
              && last.pending == s.pending && last.compaction.NoCompaction?
  {
    hide Present, InHand, Fresh, Live;
    CurrentListed(s);
    var v := s.compaction.input;
    assert Refs(s, v) > 0;
    var s1 := s.(versions := Unref(s.versions, v), compaction := Released);
    var s2 := Collect(s1).(compaction := NoCompaction);
    run := [s1, s2];
    assert CompactRelease(s, s1) && CompactCollect(s1, s2);
    StepsKeepInv([s, s1, s2], 2);
    NamedIsPresent(s2);
  }

  lemma NamedIsPresent(s: State)
    requires Inv(s) && s.current in s.versions
    ensures s.versions[s.current].files <= s.disk
  {
  }
}
