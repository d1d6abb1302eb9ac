/**
 * Two runs of the engine that end a compaction where that is not safe.  Each
 * starts from the empty database and takes only steps the code takes.
 */
module Limits {
  import opened DbFormat
  import opened Version
  import opened Install
  import opened CompactionMerge
  import opened CompactionInputs
  import opened Engine
  import opened EngineProofs
  import opened CompactionGuard

  /** A version with files in levels 1 and 2 only. */
  function Two(one: seq<File>, two: seq<File>): Levels {
    [[], one, two, [], [], [], []]
  }

  lemma TwoReplaced(a: seq<File>, b: seq<File>, removed: set<File>, m: nat, added: set<File>, a': seq<File>,
                    b': seq<File>)
    requires (m == 1 || m == 2) && OrderedLevel(a') && OrderedLevel(b')
    requires forall f :: f in a' <==> (f in a && f !in removed) || (m == 1 && f in added)
    requires forall f :: f in b' <==> (f in b && f !in removed) || (m == 2 && f in added)
    ensures Replaced(Two(a, b), removed, m, added, Two(a', b'))
  {
    hide OrderedLevel;
    NothingOrdered();
  }

  lemma NothingOrdered()
    ensures OrderedLevel([])
  {
  }

  /** A run that reaches `s`. */
  ghost predicate Reaches(states: seq<State>, steps: seq<Step>, s: State) {
    Run(states, steps) && states[|steps|] == s
  }

  lemma RunStarts() returns (states: seq<State>, steps: seq<Step>)
    ensures Reaches(states, steps, Init())
  {
    states, steps := [Init()], [];
  }

  /** One more step of a run. */
  lemma Go(states: seq<State>, steps: seq<Step>, s: State, step: Step, s': State)
    returns (more: seq<State>, next: seq<Step>)
    requires Reaches(states, steps, s) && |s.version| == NUM_LEVELS && Next(s, step, s')
    ensures Reaches(more, next, s')
  {
    hide Next;
    more, next := states + [s'], steps + [step];
    forall i | 0 <= i < |next| ensures |more[i].version| == NUM_LEVELS && Next(more[i], next[i], more[i + 1]) {
      if i < |steps| {
        assert more[i] == states[i] && more[i + 1] == states[i + 1] && next[i] == steps[i];
      }
    }
  }

  // ---- A flush between the inputs of a manual compaction ----

  const E1 := Entry(InternalKey(1.0, 1, Value), [])
  const E5 := Entry(InternalKey(5.0, 2, Value), [])
  const E3 := Entry(InternalKey(3.0, 3, Value), [])

  const LEFT: File := FileMetaData(2, [E1])
  const RIGHT: File := FileMetaData(3, [E5])
  const MIDDLE: File := FileMetaData(4, [E3])
  const MERGED: File := FileMetaData(5, [E1, E5])

  const GAP_JOB := Job(1, [LEFT, RIGHT], [], Two([LEFT, RIGHT], []), 2, true)

  const P1 := State({E1}, 1, {E1}, None, Two([], []), 2, [], None)
  const P2 := State({E1}, 1, {}, Some({E1}), Two([], []), 2, [], None)
  const P3 := State({E1}, 1, {}, None, Two([LEFT], []), 3, [], None)
  const P4 := State({E1, E5}, 2, {E5}, None, Two([LEFT], []), 3, [], None)
  const P5 := State({E1, E5}, 2, {}, Some({E5}), Two([LEFT], []), 3, [], None)
  const P6 := State({E1, E5}, 2, {}, None, Two([LEFT, RIGHT], []), 4, [], None)
  const P7 := State({E1, E5}, 2, {}, None, Two([LEFT, RIGHT], []), 4, [], Some(GAP_JOB))
  const P8 := State({E1, E5, E3}, 3, {E3}, None, Two([LEFT, RIGHT], []), 4, [], Some(GAP_JOB))
  const P9 := State({E1, E5, E3}, 3, {}, Some({E3}), Two([LEFT, RIGHT], []), 4, [], Some(GAP_JOB))
  const P10 := State({E1, E5, E3}, 3, {}, None, Two([LEFT, RIGHT], [MIDDLE]), 5, [], Some(GAP_JOB))
  const P11 := State({E1, E5, E3}, 3, {}, None, Two([], [MERGED, MIDDLE]), 6, [], None)

  function Put(k: UserKey, v: Bytes): Write {
    Write(k, Some(v))
  }

  lemma OneWrite(w: Write, first: nat)
    ensures BatchEntries([w], first) == {WriteEntry(w, first)}
  {
    assert [w][0] == w;
  }

  lemma GapWrites()
    ensures StepWrite(Init(), [Put(1.0, [])], P1) && StepWrite(P3, [Put(5.0, [])], P4)
              && StepWrite(P7, [Put(3.0, [])], P8)
    ensures StepSwitch(P1, P2) && StepSwitch(P4, P5) && StepSwitch(P8, P9)
  {
    hide BatchEntries;
    OneWrite(Put(1.0, []), 1);
    OneWrite(Put(5.0, []), 2);
    OneWrite(Put(3.0, []), 3);
  }

  lemma GapFlushes()
    ensures StepFlush(P2, 1, [E1], P3) && StepFlush(P5, 1, [E5], P6) && StepFlush(P9, 2, [E3], P10)
  {
    TwoReplaced([], [], {}, 1, {LEFT}, [LEFT], []);
    TwoReplaced([LEFT], [], {}, 1, {RIGHT}, [LEFT, RIGHT], []);
    TwoReplaced([LEFT, RIGHT], [], {}, 2, {MIDDLE}, [LEFT, RIGHT], [MIDDLE]);
    hide Replaced;
  }

  lemma GapStarts()
    ensures StepStart(P6, 1, [LEFT, RIGHT], [], true, P7)
  {
  }

  lemma GapFinishes()
    ensures StepFinish(P10, [E1, E5], [MERGED], P11)
  {
    OneCut(MERGED);
    GapKeeps();
    GapRows();
    GapReplaced();
    hide Replaced, KeptRows, Concat;
  }

  lemma GapReplaced()
    ensures Replaced(P10.version, FileSet([LEFT, RIGHT] + []), 2, FileSet([MERGED]), P11.version)
  {
    hide Replaced;
    assert FileSet([LEFT, RIGHT] + []) == {LEFT, RIGHT} && FileSet([MERGED]) == {MERGED};
    TwoReplaced([LEFT, RIGHT], [MIDDLE], {LEFT, RIGHT}, 2, {MERGED}, [], [MERGED, MIDDLE]);
  }

  lemma GapRows()
    ensures RowSet([E1, E5]) == Rows([LEFT, RIGHT] + [])
  {
    assert LEFT in [LEFT, RIGHT] + [] && RIGHT in [LEFT, RIGHT] + [];
  }

  lemma GapKeeps()
    ensures KeptRows([E1, E5], 2, GAP_JOB.base, 1, 2) == [E1, E5]
  {
    var input, base := [E1, E5], GAP_JOB.base;
    assert KeptRows(input, 0, base, 1, 2) == [];
    assert KeptRows(input, 1, base, 1, 2) == [E1];
  }

  /**
   * A manual compaction of two files with a gap between them, a flush into the
   * gap while it runs, and its end: two files of level 2 overlap.
   */
  lemma FlushIntoGap() returns (states: seq<State>, steps: seq<Step>)
    ensures Reaches(states, steps, P11)
    ensures !Disjoint(P11.version[2])
    ensures !FinishSafe(P10) && !Guard(P9, DoFlush(2, [E3]))
  {
    hide Reaches, StepWrite, StepSwitch, StepFlush, StepStart, StepFinish;
    GapWrites();
    GapFlushes();
    GapStarts();
    GapFinishes();
    states, steps := RunStarts();
    states, steps := Go(states, steps, Init(), DoWrite([Put(1.0, [])]), P1);
    states, steps := Go(states, steps, P1, DoSwitch, P2);
    states, steps := Go(states, steps, P2, DoFlush(1, [E1]), P3);
    states, steps := Go(states, steps, P3, DoWrite([Put(5.0, [])]), P4);
    states, steps := Go(states, steps, P4, DoSwitch, P5);
    states, steps := Go(states, steps, P5, DoFlush(1, [E5]), P6);
    states, steps := Go(states, steps, P6, DoStart(1, [LEFT, RIGHT], [], true), P7);
    states, steps := Go(states, steps, P7, DoWrite([Put(3.0, [])]), P8);
    states, steps := Go(states, steps, P8, DoSwitch, P9);
    states, steps := Go(states, steps, P9, DoFlush(2, [E3]), P10);
    states, steps := Go(states, steps, P10, DoFinish([E1, E5], [MERGED]), P11);
    LevelsOverlap();
    GapUnsafe();
  }

  lemma LevelsOverlap()
    ensures !Disjoint(P11.version[2])
  {
    var fs := P11.version[2];
    assert fs[0] == MERGED && fs[1] == MIDDLE && !Before(Largest(MERGED), Smallest(MIDDLE));
  }

  lemma GapUnsafe()
    ensures !FinishSafe(P10) && !Guard(P9, DoFlush(2, [E3]))
  {
    GapRows();
    assert E1 in Ins(GAP_JOB) && E5 in Ins(GAP_JOB);
    assert Keeps(Ins(GAP_JOB), E1, GAP_JOB.base, 1, 2) && Keeps(Ins(GAP_JOB), E5, GAP_JOB.base, 1, 2);
    assert MIDDLE in P10.version[2];
    assert !Apart(MIDDLE, Kept(GAP_JOB));
  }

  // ---- A boundary file left in the next level ----

  const G := Entry(InternalKey(3.0, 1, Value), [7])
  const T := Entry(InternalKey(3.0, 2, Deletion), [])
  const O := Entry(InternalKey(1.0, 3, Value), [])
  const A := Entry(InternalKey(1.0, 4, Value), [1])

  const FIRST: File := FileMetaData(2, [O, T, G])
  const UPPER: File := FileMetaData(3, [O, T])
  const LOWER: File := FileMetaData(4, [G])
  const LATER: File := FileMetaData(5, [A])
  const LAST: File := FileMetaData(6, [A])

  const SPLIT_JOB := Job(1, [FIRST], [], Two([FIRST], []), 1, false)
  const DROP_JOB := Job(1, [LATER], [UPPER], Two([LATER], [UPPER, LOWER]), 4, false)
  const ALL: set<Entry> := {G, T, O, A}

  const Q1 := State({G}, 1, {G}, None, Two([], []), 2, [], None)
  const Q2 := State({G}, 1, {G}, None, Two([], []), 2, [1], None)
  const Q3 := State({G, T, O}, 3, {G, T, O}, None, Two([], []), 2, [1], None)
  const Q4 := State({G, T, O}, 3, {}, Some({G, T, O}), Two([], []), 2, [1], None)
  const Q5 := State({G, T, O}, 3, {}, None, Two([FIRST], []), 3, [1], None)
  const Q6 := State({G, T, O}, 3, {}, None, Two([FIRST], []), 3, [1], Some(SPLIT_JOB))
  const Q7 := State({G, T, O}, 3, {}, None, Two([], [UPPER, LOWER]), 5, [1], None)
  const Q8 := State({G, T, O}, 3, {}, None, Two([], [UPPER, LOWER]), 5, [], None)
  const Q9 := State(ALL, 4, {A}, None, Two([], [UPPER, LOWER]), 5, [], None)
  const Q10 := State(ALL, 4, {}, Some({A}), Two([], [UPPER, LOWER]), 5, [], None)
  const Q11 := State(ALL, 4, {}, None, Two([LATER], [UPPER, LOWER]), 6, [], None)
  const Q12 := State(ALL, 4, {}, None, Two([LATER], [UPPER, LOWER]), 6, [], Some(DROP_JOB))
  const Q13 := State(ALL, 4, {}, None, Two([], [LAST, LOWER]), 7, [], None)

  const REMOVE_PUT: seq<Write> := [Write(3.0, None), Put(1.0, [])]

  lemma TwoWrites(a: Write, b: Write, first: nat)
    ensures BatchEntries([a, b], first) == {WriteEntry(a, first), WriteEntry(b, first + 1)}
  {
    var batch := [a, b];
    assert batch[0] == a && batch[1] == b;
  }

  lemma BoundaryWrites()
    ensures StepWrite(Init(), [Put(3.0, [7])], Q1) && StepWrite(Q2, REMOVE_PUT, Q3)
              && StepWrite(Q8, [Put(1.0, [1])], Q9)
    ensures StepSnapshot(Q1, Q2) && StepSwitch(Q3, Q4) && StepSwitch(Q9, Q10) && StepRelease(Q7, 0, Q8)
  {
    hide BatchEntries;
    OneWrite(Put(3.0, [7]), 1);
    TwoWrites(Write(3.0, None), Put(1.0, []), 2);
    OneWrite(Put(1.0, [1]), 4);
  }

  lemma BoundaryFlushes()
    ensures StepFlush(Q4, 1, [O, T, G], Q5) && StepFlush(Q10, 1, [A], Q11)
  {
    TwoReplaced([], [], {}, 1, {FIRST}, [FIRST], []);
    TwoReplaced([], [UPPER, LOWER], {}, 1, {LATER}, [LATER], [UPPER, LOWER]);
    hide Replaced;
  }

  lemma SplitStarts()
    ensures StepStart(Q5, 1, [FIRST], [], false, Q6)
  {
    assert Connected([FIRST] + []) by { assert forall f :: f in [FIRST] + [] ==> f == FIRST; }
  }

  /** The snapshot keeps both versions of 3.0, and the output is cut between them. */
  lemma SplitFinishes()
    ensures StepFinish(Q6, [O, T, G], [UPPER, LOWER], Q7)
  {
    SplitKeeps();
    assert RowSet([O, T, G]) == Rows([FIRST] + []) by { assert FIRST in [FIRST] + []; }
    assert FileSet([FIRST] + []) == {FIRST} && FileSet([UPPER, LOWER]) == {UPPER, LOWER};
    TwoReplaced([FIRST], [], {FIRST}, 2, {UPPER, LOWER}, [], [UPPER, LOWER]);
    hide Replaced, KeptRows, Concat;
  }

  lemma SplitKeeps()
    ensures KeptRows([O, T, G], 3, SPLIT_JOB.base, 1, 1) == [O, T, G] == Concat([UPPER, LOWER])
  {
    var input, base := [O, T, G], SPLIT_JOB.base;
    assert KeptRows(input, 0, base, 1, 1) == [];
    assert KeptRows(input, 1, base, 1, 1) == [O];
    assert KeptRows(input, 2, base, 1, 1) == [O, T];
    OneCut(UPPER);
    assert [UPPER, LOWER][..1] == [UPPER];
  }

  /** Only the upper of the two files overlaps the later write. */
  lemma DropStarts()
    ensures StepStart(Q11, 1, [LATER], [UPPER], false, Q12)
    ensures !Guard(Q11, DoStart(1, [LATER], [UPPER], false))
  {
    hide Newer;
    assert InputsClosed(Q11.version, 1, [LATER], [UPPER]) by { DropInputs(); }
    assert Connected([LATER] + [UPPER]) by {
      assert LATER in [LATER] + [UPPER] && UPPER in [LATER] + [UPPER];
    }
    assert IsLargest([UPPER], Largest(UPPER)) && IsBoundary(LOWER, Largest(UPPER)) && LOWER in Q11.version[2];
  }

  lemma DropInputs()
    ensures InputsClosed(Q11.version, 1, [LATER], [UPPER])
  {
    var lo, hi := Some(1.0), Some(1.0);
    assert [UPPER, LOWER][..1] == [UPPER] && [UPPER][..0] == [];
    assert Overlapping([UPPER], lo, hi) == Overlapping([], lo, hi) + [UPPER];
    assert Overlapping([UPPER, LOWER], lo, hi) == [UPPER];
    hide Overlapping;
    forall s, l | IsRange([LATER], s, l) ensures s.user == 1.0 && l.user == 1.0 {}
  }

  lemma DropFinishes()
    ensures StepFinish(Q12, [A, O, T], [LAST], Q13)
  {
    DropKeeps();
    OneCut(LAST);
    assert RowSet([A, O, T]) == Rows([LATER] + [UPPER]) by {
      assert LATER in [LATER] + [UPPER] && UPPER in [LATER] + [UPPER];
    }
    assert FileSet([LATER] + [UPPER]) == {LATER, UPPER} && FileSet([LAST]) == {LAST};
    TwoReplaced([LATER], [UPPER, LOWER], {LATER, UPPER}, 2, {LAST}, [], [LAST, LOWER]);
    hide Replaced, KeptRows, Concat;
  }

  lemma DropKeeps()
    ensures KeptRows([A, O, T], 3, DROP_JOB.base, 1, 4) == [A]
  {
    var input, base := [A, O, T], DROP_JOB.base;
    assert KeptRows(input, 0, base, 1, 4) == [];
    assert KeptRows(input, 1, base, 1, 4) == [A];
    assert KeptRows(input, 2, base, 1, 4) == [A];
    assert Obsolete(T, base, 1, 4);
  }

  lemma ValueIsBack()
    ensures Answers(Q13.history, 3.0, 4, None) && Answers(Contents(Q13), 3.0, 4, Some([7]))
  {
    assert IsNewest(Q13.history, 3.0, 4, T) && Told(T) == None;
    assert LOWER in Q13.version[2] && G in LOWER.rows;
    assert Holds(Q13.version[2], G);
    forall x | x in Contents(Q13) ensures x == A || x == G {
      assert x in VersionRows(Q13.version);
    }
    assert IsNewest(Contents(Q13), 3.0, 4, G) && Told(G) == Some([7]);
  }

  /**
   * A snapshot splits two versions of a key over two files of level 2; a later
   * compaction takes the file with the deletion and not the boundary file with
   * the value: the deletion is dropped and the value is read again.
   */
  lemma BoundaryGapResurrects() returns (states: seq<State>, steps: seq<Step>)
    ensures Reaches(states, steps, Q13)
    ensures Answers(Q13.history, 3.0, 4, None) && Answers(Contents(Q13), 3.0, 4, Some([7]))
    ensures !Guard(Q11, DoStart(1, [LATER], [UPPER], false))
  {
    hide Reaches, StepWrite, StepSwitch, StepFlush, StepStart, StepFinish, StepSnapshot, StepRelease, Answers;
    BoundaryWrites();
    BoundaryFlushes();
    SplitStarts();
    SplitFinishes();
    DropStarts();
    DropFinishes();
    states, steps := RunStarts();
    states, steps := Go(states, steps, Init(), DoWrite([Put(3.0, [7])]), Q1);
    states, steps := Go(states, steps, Q1, DoSnapshot, Q2);
    states, steps := Go(states, steps, Q2, DoWrite(REMOVE_PUT), Q3);
    states, steps := Go(states, steps, Q3, DoSwitch, Q4);
    states, steps := Go(states, steps, Q4, DoFlush(1, [O, T, G]), Q5);
    states, steps := Go(states, steps, Q5, DoStart(1, [FIRST], [], false), Q6);
    states, steps := Go(states, steps, Q6, DoFinish([O, T, G], [UPPER, LOWER]), Q7);
    states, steps := Go(states, steps, Q7, DoRelease(0), Q8);
    states, steps := Go(states, steps, Q8, DoWrite([Put(1.0, [1])]), Q9);
    states, steps := Go(states, steps, Q9, DoSwitch, Q10);
    states, steps := Go(states, steps, Q10, DoFlush(1, [A]), Q11);
    states, steps := Go(states, steps, Q11, DoStart(1, [LATER], [UPPER], false), Q12);
    states, steps := Go(states, steps, Q12, DoFinish([A, O, T], [LAST]), Q13);
    ValueIsBack();
  }
}
