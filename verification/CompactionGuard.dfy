/**
 * When a compaction may end: the exact condition under which the step keeps the
 * engine's invariant, and the guards at its start and at flushes that ensure it.
 */
module CompactionGuard {
  import opened DbFormat
  import opened Version
  import opened Install
  import opened CompactionMerge
  import opened CompactionInputs
  import opened Engine
  import opened EngineProofs

  // ---- Every cut of the output ----

  /** A file holding a whole sorted run is separate from another only if the run lies to one side of it. */
  lemma WholeRunSeparate(kept: seq<Entry>, g: File, o: File)
    requires Sorted(kept) && o.rows == kept && Separate(o, g)
    ensures Apart(g, RowSet(kept))
  {
    forall e | e in RowSet(kept) ensures Before(Largest(o), Smallest(g)) ==> Before(e.ikey, Smallest(g)) {
      RowsWithinRange(o, e);
      BeforeTrans(e.ikey, Largest(o), Smallest(g));
    }
    forall e | e in RowSet(kept) ensures Before(Largest(g), Smallest(o)) ==> Before(Largest(g), e.ikey) {
      RowsWithinRange(o, e);
      BeforeTrans(Largest(g), Smallest(o), e.ikey);
    }
  }

  /** However the kept rows are cut into files, the files stay clear of `g`. */
  ghost predicate EveryCutSeparate(kept: seq<Entry>, g: File) {
    forall outputs: seq<File>, o :: Concat(outputs) == kept && o in outputs ==> Separate(o, g)
  }

  /** Every cut is separate from a file exactly when the kept rows lie to one side of it. */
  lemma CutsSeparateExactly(kept: seq<Entry>, g: File)
    requires Sorted(kept)
    ensures EveryCutSeparate(kept, g) <==> Apart(g, RowSet(kept))
  {
    hide Apart, Separate;
    if Apart(g, RowSet(kept)) {
      forall outputs: seq<File>, o | Concat(outputs) == kept && o in outputs ensures Separate(o, g) {
        ChunksDisjoint(outputs);
        forall e | e in o.rows ensures e in RowSet(kept) {
          assert Holds(outputs, e);
        }
        ApartIsSeparate(g, RowSet(kept), o);
      }
    }
    if EveryCutSeparate(kept, g) {
      if kept == [] {
        NothingIsApart(g);
      } else {
        var o := FileMetaData(0, kept);
        OneCut(o);
        WholeRunSeparate(kept, g, o);
      }
    }
  }

  lemma NothingIsApart(g: File)
    ensures Apart(g, RowSet([]))
  {
  }

  lemma OneCut(o: File)
    ensures Concat([o]) == o.rows && Concat([]) == [] && o in [o]
  {
    assert [o][..0] == [];
  }

  // ---- The finish step exists ----

  /** Distinctly numbered entries can be put in order. */
  lemma {:induction false} SortEntries(s: set<Entry>) returns (rows: seq<Entry>)
    requires Distinct(s)
    ensures Sorted(rows) && RowSet(rows) == s
    decreases s
  {
    if s == {} {
      rows := [];
    } else {
      var e :| e in s;
      var rest := SortEntries(s - {e});
      rows := Insert(rest, e);
    }
  }

  lemma {:induction false} Insert(rows: seq<Entry>, e: Entry) returns (r: seq<Entry>)
    requires Sorted(rows) && forall x :: x in rows ==> x.ikey.sequence != e.ikey.sequence
    ensures Sorted(r) && RowSet(r) == RowSet(rows) + {e}
  {
    if rows == [] || Before(e.ikey, rows[0].ikey) {
      r := [e] + rows;
      forall i | 0 <= i < |rows| ensures Before(e.ikey, rows[i].ikey) {
        if i > 0 { BeforeTrans(e.ikey, rows[0].ikey, rows[i].ikey); }
      }
    } else {
      var tail := Insert(rows[1..], e);
      r := [rows[0]] + tail;
      assert rows == [rows[0]] + rows[1..];
      forall x | x in tail ensures Before(rows[0].ikey, x.ikey) {
        assert x in RowSet(tail);
      }
    }
  }

  /** Distinctly numbered files can be put in a level's order. */
  lemma {:induction false} OrderFiles(fs: set<File>) returns (level: seq<File>)
    requires forall f, g :: f in fs && g in fs && f.number == g.number ==> f == g
    ensures OrderedLevel(level) && forall f :: f in level <==> f in fs
    decreases fs
  {
    if fs == {} {
      level := [];
    } else {
      var f :| f in fs;
      var rest := OrderFiles(fs - {f});
      level := InsertInOrder(rest, f);
    }
  }

  lemma {:induction false} InsertInOrder(level: seq<File>, f: File) returns (r: seq<File>)
    requires OrderedLevel(level) && forall g :: g in level ==> g.number != f.number
    ensures OrderedLevel(r) && forall g :: g in r <==> g in level || g == f
  {
    if level == [] || BySmallestKey(f, level[0]) {
      r := [f] + level;
      forall i | 0 <= i < |level| ensures BySmallestKey(f, level[i]) {
        if i > 0 { BeforeTrans(Smallest(f), Smallest(level[0]), Smallest(level[i])); }
      }
    } else {
      var tail := InsertInOrder(level[1..], f);
      r := [level[0]] + tail;
      assert level == [level[0]] + level[1..];
      forall g | g in tail ensures BySmallestKey(level[0], g) {}
    }
  }

  /** The files of level `l` after an edit. */
  ghost function FilesAfter(v: Levels, removed: set<File>, m: nat, added: set<File>, l: nat): set<File>
    requires l < |v|
  {
    (set f | f in v[l] && f !in removed) + if l == m then added else {}
  }

  /** The version after an edit exists. */
  lemma {:induction false} VersionAfter(v: Levels, next: nat, removed: set<File>, m: nat, added: set<File>, n: nat)
    returns (w: Levels)
    requires n <= |v| && UniqueNumbers(v, next)
    requires forall a :: a in added ==> a.number >= next
    requires forall a, b :: a in added && b in added && a.number == b.number ==> a == b
    ensures |w| == n
    ensures forall l :: 0 <= l < n ==> OrderedLevel(w[l]) && forall f :: f in w[l] <==>
              f in FilesAfter(v, removed, m, added, l)
  {
    if n == 0 {
      w := [];
    } else {
      var init := VersionAfter(v, next, removed, m, added, n - 1);
      var last := OrderFiles(FilesAfter(v, removed, m, added, n - 1));
      w := init + [last];
    }
  }

  lemma ReplacedExists(v: Levels, next: nat, removed: set<File>, m: nat, added: set<File>) returns (v': Levels)
    requires m < |v| && UniqueNumbers(v, next)
    requires forall a :: a in added ==> a.number >= next
    requires forall a, b :: a in added && b in added && a.number == b.number ==> a == b
    ensures Replaced(v, removed, m, added, v')
  {
    hide UniqueNumbers, OrderedLevel;
    v' := VersionAfter(v, next, removed, m, added, |v|);
    forall l, f: File {:trigger f in v'[l]} {:trigger f in v[l]} | 0 <= l < |v|
      ensures f in v'[l] <==> (f in v[l] && f !in removed) || (l == m && f in added)
    {
      assert f in v'[l] <==> f in FilesAfter(v, removed, m, added, l);
    }
  }

  /** A running compaction can end with all it keeps in one file. */
  lemma OneFileFinish(s: State) returns (input: seq<Entry>, outputs: seq<File>, s': State)
    requires Inv(s) && s.job.Some?
    ensures StepFinish(s, input, outputs, s')
    ensures |outputs| <= 1 && Concat(outputs)
              == KeptRows(input, |input|, s.job.value.base, s.job.value.level, s.job.value.oldest)
  {
    hide KeptRows, Sorted, Distinct, Replaced, UniqueNumbers, JobFits, Recorded, Faithful, Ages, LevelInvariant,
        LevelsOrdered, OneLevel;
    var j := s.job.value;
    JobFitsFacts(s.version, j);
    InputsDistinct(s, Ins(j));
    input := SortEntries(Ins(j));
    var kept := KeptRows(input, |input|, j.base, j.level, j.oldest);
    outputs := [];
    if kept == [] {
      assert Concat([]) == [];
    } else {
      var o := FileMetaData(s.nextFile, kept);
      outputs := [o];
      OneCut(o);
    }
    var v' := ReplacedExists(s.version, s.nextFile, FileSet(j.in0 + j.in1), j.level + 1, FileSet(outputs));
    s' := s.(version := v', nextFile := s.nextFile + |outputs|, job := None);
  }

  lemma JobFitsFacts(v: Levels, j: Job)
    requires JobFits(v, j)
    ensures j.level + 1 < |v| && Ins(j) <= VersionRows(v)
  {
    hide Connected, RestNewer, DeeperUnchanged;
    InputsInVersion(v, j);
  }

  /** The invariant after a finish step gives back the condition. */
  lemma KeptInvIsSafe(s: State, input: seq<Entry>, outputs: seq<File>, s': State)
    requires Inv(s) && StepFinish(s, input, outputs, s') && |outputs| <= 1 && Inv(s')
    ensures s.job.value.level + 1 < |s.version| && FinishSafe(s)
  {
    hide Sorted, KeptSet, KeptRows, Concat, LevelsOrdered, OneLevel, Distinct, NothingUncovered, Apart,
         Recorded, Ages, SnapshotsOrdered, JobFits, Contents, Faithful;
    FinishFacts(s, input, outputs, s');
    FinishReadsExactly(s, outputs, s');
    JobFitsFacts(s.version, s.job.value);
    forall g | g in s.version[s.job.value.level + 1] && g !in s.job.value.in1 ensures Apart(g, Kept(s.job.value)) {
      OutputClear(s, input, outputs, s', g);
    }
  }

  lemma OutputClear(s: State, input: seq<Entry>, outputs: seq<File>, s': State, g: File)
    requires Inv(s) && StepFinish(s, input, outputs, s') && |outputs| <= 1 && LevelInvariant(s'.version)
    requires s.job.value.level + 1 < |s.version| && g in s.version[s.job.value.level + 1] && g !in s.job.value.in1
    ensures Apart(g, Kept(s.job.value))
  {
    hide Inv, StepFinish, Ended, Kept, Apart, Separate, Sorted, Disjoint;
    RunningJob(s, input, outputs, s');
    FinishFacts(s, input, outputs, s');
    KeptRowsOf(s, outputs, s');
    if outputs == [] {
      NothingIsApart(g);
    } else {
      var o := outputs[0];
      assert outputs == [o];
      LeftBeside(s, input, outputs, s', g, o);
      DisjointIsSeparate(s'.version[s.job.value.level + 1], o, g);
      RowsOfOne(o);
      WholeRunSeparate(o.rows, g, o);
    }
  }

  lemma KeptRowsOf(s: State, outputs: seq<File>, s': State)
    requires s.job.Some? && Ended(s, outputs, s')
    ensures outputs == [] ==> Kept(s.job.value) == RowSet([])
    ensures forall o :: outputs == [o] ==> Kept(s.job.value) == RowsOf({o})
  {
    hide Kept;
    if |outputs| == 1 { assert FileSet(outputs) == {outputs[0]}; }
  }

  /**
   * Ending a running compaction keeps the invariant, however its output is cut
   * into files, if and only if the kept rows lie to one side of every file left
   * in their level and no dropped deletion covers a value left outside.
   */
  lemma FinishSafeExactly(s: State)
    requires Inv(s) && s.job.Some?
    ensures s.job.value.level + 1 < |s.version|
    ensures FinishSafe(s) <==> forall input, outputs, s' :: StepFinish(s, input, outputs, s') ==> Inv(s')
  {
    hide Inv, StepFinish, FinishSafe;
    JobOfInv(s);
    if FinishSafe(s) {
      forall input, outputs, s' | StepFinish(s, input, outputs, s') ensures Inv(s') {
        SafeIsClean(s, input, outputs, s');
        FinishKeepsInv(s, input, outputs, s');
      }
    } else {
      var input, outputs, s' := OneFileFinish(s);
      if Inv(s') {
        KeptInvIsSafe(s, input, outputs, s');
      }
    }
  }

  lemma JobOfInv(s: State)
    requires Inv(s) && s.job.Some?
    ensures s.job.value.level + 1 < |s.version|
  {
  }

  // ---- Guards that make every end safe ----

  /** The files left in the target level lie to one side of the inputs and are newer. */
  ghost predicate RestOfNextLevel(v: Levels, j: Job)
    requires j.level + 1 < |v|
  {
    forall g :: g in v[j.level + 1] && g !in j.in1 ==>
      Apart(g, Ins(j)) && forall h :: h in j.in0 + j.in1 ==> Newer(g.rows, h.rows)
  }

  /** A file that meets no file of a connected choice lies to one side of all of it. */
  lemma ConnectedIsApart(v: Levels, f: File, j: Job)
    requires JobFits(v, j) && !j.manual && Sorted(f.rows) && PlacedAt(v, j.level + 1, f)
    ensures Apart(f, Ins(j))
  {
    hide LevelsDisjoint, ShallowNewer, LevelZeroByNumber, RestNewer, DeeperUnchanged, Sorted, Before;
    var fs, p := j.in0 + j.in1, Smallest(f).user;
    forall h | h in fs ensures Sorted(h.rows) && !Overlaps(h, Some(p), Some(Largest(f).user)) {}
    RowsWithinRange(f, f.rows[0]);
    if g :| g in fs && Largest(g).user < p {
      forall h | h in fs ensures Largest(h).user < p {
        RowsWithinRange(g, g.rows[0]);
        assert Largest(h).user >= p ==> Spanned(fs, p);
      }
      forall e | e in Ins(j) ensures Before(e.ikey, Smallest(f)) {
        var h :| h in fs && e in h.rows;
        SideOf(f, h, e);
      }
    } else {
      forall e | e in Ins(j) ensures Before(Largest(f), e.ikey) {
        var h :| h in fs && e in h.rows;
        SideOf(f, h, e);
      }
    }
  }

  lemma SideOf(f: File, h: File, e: Entry)
    requires Sorted(h.rows) && e in h.rows
    ensures Largest(h).user < Smallest(f).user ==> Before(e.ikey, Smallest(f))
    ensures Largest(f).user < Smallest(h).user ==> Before(Largest(f), e.ikey)
  {
  }

  /** A file of the next level outside the inputs' user range lies wholly to one side of them. */
  lemma LeftOutIsApart(v: Levels, level: nat, in0: seq<File>, in1: seq<File>, g: File)
    requires LevelInvariant(v) && level + 1 < |v| && InputsClosed(v, level, in0, in1)
    requires g in v[level + 1] && g !in in1
    ensures Apart(g, Rows(in0 + in1))
    ensures NoShared(g.rows, Rows(in0))
  {
    var smallest, largest := RangeExists(in0);
    var lo, hi := Some(smallest.user), Some(largest.user);
    OverlappingMembers(v[level + 1], lo, hi);
    RowsWithinRange(g, g.rows[0]);
    if Largest(g).user < smallest.user {
      forall e | e in Rows(in0 + in1) ensures Before(Largest(g), e.ikey) {
        AfterLeftOut(v, level, in0, in1, g, smallest, largest, e);
      }
      forall a, b | a in g.rows && b in Rows(in0) ensures a.ikey.user != b.ikey.user {
        RowsWithinRange(g, a);
        InRange(v[level], in0, smallest, largest, b);
      }
    } else {
      assert largest.user < Smallest(g).user;
      forall e | e in Rows(in0 + in1) ensures Before(e.ikey, Smallest(g)) {
        BeforeLeftOut(v, level, in0, in1, g, smallest, largest, e);
      }
      forall a, b | a in g.rows && b in Rows(in0) ensures a.ikey.user != b.ikey.user {
        RowsWithinRange(g, a);
        InRange(v[level], in0, smallest, largest, b);
      }
    }
  }

  lemma InRange(level: seq<File>, in0: seq<File>, smallest: InternalKey, largest: InternalKey, e: Entry)
    requires AllSorted(level) && Within(in0, level) && IsRange(in0, smallest, largest) && e in Rows(in0)
    ensures smallest.user <= e.ikey.user <= largest.user
  {
  }

  lemma AfterLeftOut(v: Levels, level: nat, in0: seq<File>, in1: seq<File>, g: File,
                     smallest: InternalKey, largest: InternalKey, e: Entry)
    requires LevelInvariant(v) && level + 1 < |v| && Within(in0, v[level]) && IsRange(in0, smallest, largest)
    requires in1 == Overlapping(v[level + 1], Some(smallest.user), Some(largest.user))
    requires g in v[level + 1] && g !in in1 && Largest(g).user < smallest.user && e in Rows(in0 + in1)
    ensures Before(Largest(g), e.ikey)
  {
    hide Sorted, ShallowNewer, LevelZeroByNumber, Disjoint;
    var h :| h in in0 + in1 && e in h.rows;
    OverlappingMembers(v[level + 1], Some(smallest.user), Some(largest.user));
    if h in in0 {
      RowsWithinRange(h, e);
    } else {
      DisjointIsSeparate(v[level + 1], g, h);
      RowsWithinRange(h, e);
      RowsWithinRange(g, g.rows[0]);
      BeforeTrans(Largest(g), Smallest(h), e.ikey);
    }
  }

  lemma BeforeLeftOut(v: Levels, level: nat, in0: seq<File>, in1: seq<File>, g: File,
                      smallest: InternalKey, largest: InternalKey, e: Entry)
    requires LevelInvariant(v) && level + 1 < |v| && Within(in0, v[level]) && IsRange(in0, smallest, largest)
    requires in1 == Overlapping(v[level + 1], Some(smallest.user), Some(largest.user))
    requires g in v[level + 1] && g !in in1 && largest.user < Smallest(g).user && e in Rows(in0 + in1)
    ensures Before(e.ikey, Smallest(g))
  {
    hide Sorted, ShallowNewer, LevelZeroByNumber, Disjoint;
    var h :| h in in0 + in1 && e in h.rows;
    OverlappingMembers(v[level + 1], Some(smallest.user), Some(largest.user));
    if h in in0 {
      RowsWithinRange(h, e);
    } else {
      DisjointIsSeparate(v[level + 1], g, h);
      RowsWithinRange(h, e);
      RowsWithinRange(g, g.rows[|g.rows| - 1]);
      BeforeTrans(e.ikey, Largest(h), Smallest(g));
    }
  }

  /** Nothing left outside the inputs is older than a deletion the loop may drop. */
  lemma LeftOutsideIsNewer(v: Levels, above: set<Entry>, j: Job, e: Entry, x: Entry)
    requires JobFits(v, j) && RestOfNextLevel(v, j) && OneLevel(v) && NewerSet(above, VersionRows(v))
    requires e in Ins(j) && BaseLevel(j.base, j.level, e.ikey.user)
    requires x in above + VersionRows(v) && x !in Ins(j) && x.ikey.user == e.ikey.user
    ensures x.ikey.sequence > e.ikey.sequence
  {
    hide BaseLevel, OneLevel, JobFits, RestOfNextLevel;
    var h, m := InputFile(v, j, e);
    VersionHolds(v, m, h, e);
    if x !in above {
      var l :| 0 <= l < |v| && Holds(v[l], x);
      var g: File :| g in v[l] && x in g.rows;
      NotDropped(j, g, x);
      if l <= j.level {
        LeftOverIsNewer(v, j, l, g, x, e);
      } else if l == j.level + 1 {
        NextLevelIsNewer(v, j, g, x, e);
      } else {
        NotUnderBase(v, j, l, g, x, e);
      }
    }
  }

  lemma NextLevelIsNewer(v: Levels, j: Job, g: File, x: Entry, e: Entry)
    requires j.level + 1 < |v| && RestOfNextLevel(v, j) && g in v[j.level + 1] && g !in Dropped(j)
    requires x in g.rows && e in Ins(j) && x.ikey.user == e.ikey.user
    ensures x.ikey.sequence > e.ikey.sequence
  {
  }

  lemma NotDropped(j: Job, g: File, x: Entry)
    requires x in g.rows && x !in Ins(j)
    ensures g !in Dropped(j)
  {
  }

  lemma NotUnderBase(v: Levels, j: Job, l: nat, g: File, x: Entry, e: Entry)
    requires JobFits(v, j) && j.level + 2 <= l < |v| && g in v[l] && x in g.rows
    requires e in Ins(j) && BaseLevel(j.base, j.level, e.ikey.user)
    ensures x.ikey.user != e.ikey.user
  {
    if g in j.base[l] {
      RowsWithinRange(g, x);
    }
  }

  /** With such neighbours the compaction may end. */
  lemma GuardedIsSafe(s: State)
    requires Inv(s) && s.job.Some? && s.job.value.level + 1 < |s.version| && RestOfNextLevel(s.version, s.job.value)
    ensures FinishSafe(s)
  {
    hide OneLevel, NewerSet, BaseLevel, JobFits, LevelInvariant, LevelsOrdered, UniqueNumbers, Distinct, SameAnswers,
         RestOfNextLevel, Keeps;
    var j, above := s.job.value, s.mem + Imm(s);
    KeptStaysApart(s.version, j);
    NewerBoth(s.mem, Imm(s), VersionRows(s.version));
    forall e, x ensures !Uncovers(Contents(s) - Ins(j), Ins(j), j.base, j.level, j.oldest, Floor(s), e, x) {
      if e in Ins(j) && Obsolete(e, j.base, j.level, j.oldest) && x in Contents(s) - Ins(j)
          && x.ikey.user == e.ikey.user {
        LeftOutsideIsNewer(s.version, above, j, e, x);
      }
    }
  }

  lemma NewerBoth(a: set<Entry>, b: set<Entry>, c: set<Entry>)
    requires NewerSet(a, c) && NewerSet(b, c)
    ensures NewerSet(a + b, c)
  {
  }

  lemma KeptStaysApart(v: Levels, j: Job)
    requires j.level + 1 < |v| && RestOfNextLevel(v, j)
    ensures RoomForOutputs(v, j)
  {
  }

  /**
   * The guard of a step: a compaction leaves no boundary file of the next level
   * behind, and no flush lands between the inputs of a manual one.
   */
  ghost predicate Guard(s: State, step: Step)
    requires |s.version| == NUM_LEVELS
  {
    match step
    case DoStart(level, in0, in1, manual) => level + 1 < NUM_LEVELS ==> NoBoundaryLeft(s.version[level + 1], in1)
    case DoFlush(level, rows) =>
      s.job.Some? && s.job.value.manual && level == s.job.value.level + 1 && rows != [] ==>
        Apart(FileMetaData(s.nextFile, rows), Ins(s.job.value))
    case _ => true
  }

  ghost predicate Guarded(s: State) {
    s.job.Some? ==> s.job.value.level + 1 < |s.version| && RestOfNextLevel(s.version, s.job.value)
  }

  /** In a sorted level, a gapless choice leaves only newer files behind exactly when it leaves no boundary file. */
  lemma RestNewerExactly(level: seq<File>, fs: seq<File>)
    requires AllSorted(level) && Disjoint(level) && Within(fs, level) && Distinct(Rows(level)) && Convex(level, fs)
    ensures RestNewer(level, fs) <==> NoBoundaryLeft(level, fs)
  {
    hide Distinct, Convex, Disjoint;
    if NoBoundaryLeft(level, fs) {
      ConvexRestNewer(level, fs);
    }
    if RestNewer(level, fs) {
      forall largest, f | IsLargest(fs, largest) && f in level ensures !IsBoundary(f, largest) {
        var h :| h in fs && Largest(h) == largest;
        RowsWithinRange(f, f.rows[0]);
        assert f.rows[0] in f.rows && h.rows[|h.rows| - 1] in h.rows;
      }
    }
  }

  lemma StartGuarded(s: State, level: nat, in0: seq<File>, in1: seq<File>, manual: bool, s': State)
    requires Inv(s) && StepStart(s, level, in0, in1, manual, s') && NoBoundaryLeft(s.version[level + 1], in1)
    ensures Guarded(s')
  {
    hide Distinct, Connected, Newer, Apart, NoBoundaryLeft, Faithful, Ages, SnapshotsOrdered, OneLevel, UniqueNumbers;
    var v := s.version;
    DistinctSubset(Rows(v[level + 1]), s.history);
    var smallest, largest := RangeExists(in0);
    var lo, hi := Some(smallest.user), Some(largest.user);
    OverlappingMembers(v[level + 1], lo, hi);
    OverlappingConvex(v[level + 1], lo, hi);
    RestNewerExactly(v[level + 1], in1);
    NeighboursGuarded(v, level, in0, in1, s'.job.value);
  }

  lemma NeighboursGuarded(v: Levels, level: nat, in0: seq<File>, in1: seq<File>, j: Job)
    requires LevelInvariant(v) && level + 1 < |v| && InputsClosed(v, level, in0, in1) && RestNewer(v[level + 1], in1)
    requires j.level == level && j.in0 == in0 && j.in1 == in1
    ensures RestOfNextLevel(v, j)
  {
    hide LevelInvariant, InputsClosed, Newer, Apart;
    forall g | g in v[level + 1] && g !in in1
      ensures Apart(g, Ins(j)) && forall h :: h in in0 + in1 ==> Newer(g.rows, h.rows)
    {
      LeftOutIsApart(v, level, in0, in1, g);
      forall h | h in in0 ensures Newer(g.rows, h.rows) {
        NoSharedIsNewer(g, in0, h);
      }
    }
  }

  lemma NoSharedIsNewer(g: File, in0: seq<File>, h: File)
    requires NoShared(g.rows, Rows(in0)) && h in in0
    ensures Newer(g.rows, h.rows)
  {
  }

  lemma FlushGuarded(s: State, level: nat, rows: seq<Entry>, s': State)
    requires Inv(s) && Guarded(s) && StepFlush(s, level, rows, s') && Guard(s, DoFlush(level, rows))
    ensures Guarded(s')
  {
    hide Faithful, Recorded, SnapshotsOrdered, NewerSet, JobFits, OneLevel, UniqueNumbers, LevelsOrdered, Apart,
        Newer, Sorted,
         LevelsSorted, LevelsDisjoint, ShallowNewer, LevelZeroByNumber, PlacedAt;
    if s.job.Some? && rows != [] {
      var f, j := FileMetaData(s.nextFile, rows), s.job.value;
      if level == j.level + 1 && !j.manual {
        ConnectedIsApart(s.version, f, j);
      }
      forall h | h in j.in0 + j.in1 ensures Newer(f.rows, h.rows) {
        InputBelow(s.version, j, h);
        NewerThanFile(f.rows, s.version, if h in j.in0 then j.level else j.level + 1, h);
      }
      forall g | g in s'.version[j.level + 1] && g !in j.in1
        ensures Apart(g, Ins(j)) && forall h :: h in j.in0 + j.in1 ==> Newer(g.rows, h.rows)
      {
        ReplacedMember(s.version, {}, level, {f}, s'.version, j.level + 1, g);
      }
    }
  }

  lemma InputBelow(v: Levels, j: Job, h: File)
    requires JobFits(v, j) && h in j.in0 + j.in1
    ensures j.level + 1 < |v| && (h in j.in0 ==> h in v[j.level]) && (h !in j.in0 ==> h in v[j.level + 1])
  {
  }

  lemma GuardKept(s: State, step: Step, s': State)
    requires Inv(s) && |s.version| == NUM_LEVELS && Next(s, step, s') && Guarded(s) && Guard(s, step)
    ensures Guarded(s')
  {
    hide Inv, StepFlush, StepStart, RestOfNextLevel;
    match step
    case DoFlush(level, rows) => FlushGuarded(s, level, rows, s');
    case DoStart(level, in0, in1, manual) =>
      StartLevels(s, level, in0, in1, manual, s');
      StartGuarded(s, level, in0, in1, manual, s');
    case _ =>
  }

  lemma StartLevels(s: State, level: nat, in0: seq<File>, in1: seq<File>, manual: bool, s': State)
    requires |s.version| == NUM_LEVELS && StepStart(s, level, in0, in1, manual, s')
    ensures level + 1 < |s.version|
  {
  }

  /** A run in which every step meets its guard ends every compaction safely. */
  lemma {:induction false} GuardedRunIsSafe(states: seq<State>, steps: seq<Step>, n: nat)
    requires Run(states, steps) && n < |states|
    requires forall i :: 0 <= i < n ==> Guard(states[i], steps[i])
    ensures Inv(states[n]) && Guarded(states[n])
    ensures n < |steps| ==> Safe(states[n], steps[n])
  {
    hide Inv, Init, Next, Guard, RestOfNextLevel, FinishSafe, Clean;
    if n == 0 {
      InitInv();
      NoJobAtFirst();
    } else {
      GuardedRunIsSafe(states, steps, n - 1);
      NextKeepsInv(states[n - 1], steps[n - 1], states[n]);
      GuardKept(states[n - 1], steps[n - 1], states[n]);
    }
    if states[n].job.Some? {
      GuardedIsSafe(states[n]);
      if n < |steps| {
        SafeStep(states[n], steps[n], states[n + 1]);
      }
    }
  }

  lemma SafeStep(s: State, step: Step, s': State)
    requires Inv(s) && |s.version| == NUM_LEVELS && Next(s, step, s')
    requires s.job.Some? && s.job.value.level + 1 < |s.version| && FinishSafe(s)
    ensures Safe(s, step)
  {
    hide Inv, FinishSafe, Clean, StepFinish;
    if step.DoFinish? {
      SafeIsClean(s, step.input, step.outputs, s');
    }
  }

  lemma NoJobAtFirst()
    ensures Init().job.None?
  {
  }
}
