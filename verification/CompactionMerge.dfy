/**
 * The merge loop of DBImpl::DoCompactionWork and its drop rules, with the
 * pointer-chasing base-level test of Compaction::IsBaseLevelForKey.
 */
module CompactionMerge {
  import opened DbFormat
  import opened Version

  /** No file below level + 1 has a range containing `k`. */
  ghost predicate BaseLevel(v: Levels, level: nat, k: UserKey) {
    forall l, f :: level + 2 <= l < |v| && f in v[l] ==> !(Smallest(f).user <= k <= Largest(f).user)
  }

  /** The cursor state of a running compaction. */
  class Compaction {
    const inputVersion: Levels
    const level: nat
    var levelPtrs: seq<nat>
    /** The largest user key asked about so far. */
    ghost var asked: Option<UserKey>

    ghost predicate Valid()
      reads this
    {
      && |inputVersion| == |levelPtrs|
      && LevelsSorted(inputVersion)
      && LevelsDisjoint(inputVersion)
      && (forall l :: 0 <= l < |levelPtrs| ==> levelPtrs[l] <= |inputVersion[l]|)
      && (forall l, i :: 0 <= l < |levelPtrs| && 0 <= i < levelPtrs[l] ==>
            asked.Some? && Largest(inputVersion[l][i]).user < asked.value)
    }

    constructor (v: Levels, level: nat)
      requires LevelsSorted(v) && LevelsDisjoint(v)
      ensures Valid() && inputVersion == v && this.level == level && asked == None
    {
      inputVersion := v;
      this.level := level;
      levelPtrs := seq(|v|, i => 0);
      asked := None;
    }

    /** On nondecreasing keys the moving pointers give the stateless answer. */
    method IsBaseLevelForKey(k: UserKey) returns (r: bool)
      requires Valid() && (asked.Some? ==> asked.value <= k)
      modifies this
      ensures Valid() && asked == Some(k)
      ensures r <==> BaseLevel(inputVersion, level, k)
    {
      asked := Some(k);
      var lvl := level + 2;
      while lvl < |inputVersion|
        invariant level + 2 <= lvl
        invariant Valid() && asked == Some(k)
        invariant forall l, f :: level + 2 <= l < lvl && l < |inputVersion| && f in inputVersion[l] ==>
                    !(Smallest(f).user <= k <= Largest(f).user)
      {
        var hit := AdvancePointer(lvl, k);
        if hit {
          return false;
        }
        lvl := lvl + 1;
      }
      return true;
    }

    /** Moves one level's pointer past files that end before `k`; reports a file containing `k`. */
    method AdvancePointer(lvl: nat, k: UserKey) returns (hit: bool)
      requires Valid() && asked == Some(k) && 1 <= lvl < |inputVersion|
      modifies this`levelPtrs
      ensures Valid()
      ensures hit ==> levelPtrs[lvl] < |inputVersion[lvl]|
                      && var f := inputVersion[lvl][levelPtrs[lvl]]; Smallest(f).user <= k <= Largest(f).user
      ensures !hit ==> forall f :: f in inputVersion[lvl] ==> !(Smallest(f).user <= k <= Largest(f).user)
    {
      var files := inputVersion[lvl];
      while levelPtrs[lvl] < |files|
        invariant Valid()
        decreases |files| - levelPtrs[lvl]
      {
        var p := levelPtrs[lvl];
        var f := files[p];
        if k <= Largest(f).user {
          if k >= Smallest(f).user {
            return true;
          }
          forall g | g in files ensures !(Smallest(g).user <= k <= Largest(g).user) {
            var j :| 0 <= j < |files| && files[j] == g;
            if p < j {
              LargestIncreases(files, p, j);
            }
          }
          return false;
        }
        levelPtrs := levelPtrs[lvl := p + 1];
      }
      return false;
    }
  }

  // ---- The drop rules ----

  /** Rule (A): an entry with the same user key was just seen at or below the oldest snapshot. */
  predicate Hidden(input: seq<Entry>, i: nat, oldest: nat)
    requires i < |input|
  {
    i > 0 && input[i - 1].ikey.user == input[i].ikey.user && input[i - 1].ikey.sequence <= oldest
  }

  /** Rule (B): a deletion no snapshot needs, with nothing deeper to hide. */
  ghost predicate Obsolete(e: Entry, v: Levels, level: nat, oldest: nat) {
    e.ikey.kind.Deletion? && e.ikey.sequence <= oldest && BaseLevel(v, level, e.ikey.user)
  }

  /** What the loop has kept of the first `n` merged entries. */
  ghost function KeptRows(input: seq<Entry>, n: nat, v: Levels, level: nat, oldest: nat): seq<Entry>
    requires n <= |input|
  {
    if n == 0 then []
    else
      var r := KeptRows(input, n - 1, v, level, oldest);
      if Hidden(input, n - 1, oldest) || Obsolete(input[n - 1], v, level, oldest) then r else r + [input[n - 1]]
  }

  ghost function Concat(fs: seq<File>): seq<Entry> {
    if fs == [] then [] else Concat(fs[..|fs| - 1]) + fs[|fs| - 1].rows
  }

  /** Output files carry fresh consecutive numbers. */
  ghost predicate Numbered(fs: seq<File>, first: nat) {
    forall i :: 0 <= i < |fs| ==> fs[i].number == first + i
  }

  lemma ConcatAppend(fs: seq<File>, f: File)
    ensures Concat(fs + [f]) == Concat(fs) + f.rows
  {
  }

  /** Everything written so far, with the rows still in the open builder. */
  ghost function Written(outputs: seq<File>, builder: seq<Entry>): seq<Entry> {
    Concat(outputs) + builder
  }

  // ---- Where outputs are cut ----

  ghost predicate KeptAt(input: seq<Entry>, i: nat, v: Levels, level: nat, oldest: nat)
    requires i < |input|
  {
    !Hidden(input, i, oldest) && !Obsolete(input[i], v, level, oldest)
  }

  /** The entry is the last row of an output file. */
  ghost predicate EndsFile(outputs: seq<File>, e: Entry) {
    exists o :: 0 <= o < |outputs| && outputs[o].rows[|outputs[o].rows| - 1] == e
  }

  /** Among the first `n` entries one before which the loop must stop follows the i-th with nothing kept in between. */
  ghost predicate StopFollows(kept: nat -> bool, stopBefore: nat -> bool, i: nat, n: nat) {
    exists j :: i < j < n && stopBefore(j) && forall h :: i < h < j ==> !kept(h)
  }

  /**
   * Of the first `n` entries a kept one ends an output file exactly if the output
   * was full with it or the loop had to stop, before entry `m` at the latest and
   * before the next kept one; `open` are the rows of the file being written.
   */
  ghost predicate CutsOk(input: seq<Entry>, n: nat, m: nat, kept: nat -> bool, stopBefore: nat -> bool,
                         full: nat -> bool, outputs: seq<File>, open: seq<Entry>)
    requires n <= |input|
  {
    && (forall i: nat :: i < n && kept(i) ==>
          (EndsFile(outputs, input[i]) <==> full(i) || StopFollows(kept, stopBefore, i, m)))
    && (forall e :: EndsFile(outputs, e) ==> e in input[..n])
    && (forall i: nat :: LastKept(n, kept, i) ==>
          if open == [] then EndsFile(outputs, input[i])
          else open[|open| - 1] == input[i] && !EndsFile(outputs, input[i]))
    && (open != [] ==> exists i: nat :: LastKept(n, kept, i))
  }

  ghost predicate LastKept(n: nat, kept: nat -> bool, i: nat) {
    i < n && kept(i) && forall h :: i < h < n ==> !kept(h)
  }

  lemma NoCuts(input: seq<Entry>, kept: nat -> bool, stopBefore: nat -> bool, full: nat -> bool)
    ensures CutsOk(input, 0, 0, kept, stopBefore, full, [], [])
  {
  }

  lemma StopFollowsMore(kept: nat -> bool, stopBefore: nat -> bool, i: nat, n: nat)
    requires i < n && kept(i)
    ensures StopFollows(kept, stopBefore, i, n + 1) <==>
              StopFollows(kept, stopBefore, i, n) || (stopBefore(n) && LastKept(n, kept, i))
  {
  }

  /** The test before an entry: the open file, if there is one, is closed. */
  lemma StopStep(input: seq<Entry>, n: nat, kept: nat -> bool, stopBefore: nat -> bool, full: nat -> bool,
                 outputs: seq<File>, open: seq<Entry>, outputs': seq<File>, open': seq<Entry>, f: File)
    requires Sorted(input) && n < |input| && CutsOk(input, n, n, kept, stopBefore, full, outputs, open)
    requires if stopBefore(n) && open != [] then f.rows == open && outputs' == outputs + [f] && open' == []
             else outputs' == outputs && open' == open
    ensures CutsOk(input, n, n + 1, kept, stopBefore, full, outputs', open')
  {
    hide EndsFile, StopFollows;
    if stopBefore(n) && open != [] {
      forall e ensures EndsFile(outputs', e) <==> EndsFile(outputs, e) || open[|open| - 1] == e {
        EndsMore(outputs, f, e);
      }
    }
    forall i: nat | i < n && kept(i)
      ensures EndsFile(outputs', input[i]) <==> full(i) || StopFollows(kept, stopBefore, i, n + 1)
    {
      StopFollowsMore(kept, stopBefore, i, n);
      if stopBefore(n) && open != [] {
        var k: nat :| LastKept(n, kept, k);
        OneIndex(input, i, k);
      }
    }
  }

  lemma OneIndex(input: seq<Entry>, i: nat, k: nat)
    requires Sorted(input) && i < |input| && k < |input|
    ensures input[i] == input[k] <==> i == k
  {
    if i < k {
      assert Before(input[i].ikey, input[k].ikey);
    } else if k < i {
      assert Before(input[k].ikey, input[i].ikey);
    }
  }

  lemma NotYet(input: seq<Entry>, n: nat)
    requires Sorted(input) && n < |input|
    ensures input[n] !in input[..n]
  {
    forall i | 0 <= i < n ensures input[i] != input[n] {
      OneIndex(input, i, n);
    }
  }

  /** A kept entry joins the open file, which is closed if it is full. */
  lemma KeepStep(input: seq<Entry>, n: nat, kept: nat -> bool, stopBefore: nat -> bool, full: nat -> bool,
                 outputs: seq<File>, open: seq<Entry>, outputs': seq<File>, open': seq<Entry>, f: File)
    requires Sorted(input) && n < |input| && CutsOk(input, n, n + 1, kept, stopBefore, full, outputs, open)
    requires if !kept(n) then outputs' == outputs && open' == open
             else if full(n) then f.rows == open + [input[n]] && outputs' == outputs + [f] && open' == []
             else outputs' == outputs && open' == open + [input[n]]
    ensures CutsOk(input, n + 1, n + 1, kept, stopBefore, full, outputs', open')
  {
    hide EndsFile;
    NotYet(input, n);
    assert input[..n + 1] == input[..n] + [input[n]];
    assert !StopFollows(kept, stopBefore, n, n + 1);
    hide StopFollows;
    if kept(n) && full(n) {
      forall e ensures EndsFile(outputs', e) <==> EndsFile(outputs, e) || input[n] == e {
        EndsMore(outputs, f, e);
      }
      forall i: nat | i < n ensures input[i] != input[n] { OneIndex(input, i, n); }
    }
    if kept(n) {
      assert LastKept(n + 1, kept, n);
    } else {
      forall i: nat ensures LastKept(n + 1, kept, i) <==> LastKept(n, kept, i) {}
    }
  }

  /**
   * All outputs: a kept entry ends a file exactly if the output was full with it,
   * the loop had to stop before the next kept one, or it is the last kept.
   */
  ghost predicate CutExactly(input: seq<Entry>, kept: nat -> bool, stopBefore: nat -> bool, full: nat -> bool,
                             outputs: seq<File>) {
    forall i: nat :: i < |input| && kept(i) ==>
      (EndsFile(outputs, input[i]) <==>
       full(i) || StopFollows(kept, stopBefore, i, |input|) || LastKept(|input|, kept, i))
  }

  lemma LastCut(input: seq<Entry>, kept: nat -> bool, stopBefore: nat -> bool, full: nat -> bool,
                outputs: seq<File>, open: seq<Entry>, outputs': seq<File>, f: File)
    requires Sorted(input) && CutsOk(input, |input|, |input|, kept, stopBefore, full, outputs, open)
    requires if open == [] then outputs' == outputs else f.rows == open && outputs' == outputs + [f]
    ensures CutExactly(input, kept, stopBefore, full, outputs')
  {
    hide EndsFile, StopFollows, Sorted;
    forall i: nat | i < |input| && kept(i)
      ensures EndsFile(outputs', input[i]) <==>
                full(i) || StopFollows(kept, stopBefore, i, |input|) || LastKept(|input|, kept, i)
    {
      LastCutAt(input, kept, stopBefore, full, outputs, open, i);
      if open != [] { EndsMore(outputs, f, input[i]); }
    }
  }

  lemma LastCutAt(input: seq<Entry>, kept: nat -> bool, stopBefore: nat -> bool, full: nat -> bool,
                  outputs: seq<File>, open: seq<Entry>, i: nat)
    requires Sorted(input) && CutsOk(input, |input|, |input|, kept, stopBefore, full, outputs, open)
    requires i < |input| && kept(i)
    ensures EndsFile(outputs, input[i]) <==> full(i) || StopFollows(kept, stopBefore, i, |input|)
    ensures open == [] && LastKept(|input|, kept, i) ==> EndsFile(outputs, input[i])
    ensures open != [] ==> (open[|open| - 1] == input[i] <==> LastKept(|input|, kept, i))
  {
    hide EndsFile, StopFollows, Sorted;
    if open != [] {
      var k: nat :| LastKept(|input|, kept, k);
      OneIndex(input, i, k);
    }
  }

  /** Closing the open file. */
  lemma EndsMore(outputs: seq<File>, f: File, e: Entry)
    ensures EndsFile(outputs + [f], e) <==> EndsFile(outputs, e) || f.rows[|f.rows| - 1] == e
  {
    var more := outputs + [f];
    assert more[|outputs|] == f;
    forall o | 0 <= o < |outputs| ensures more[o] == outputs[o] {}
  }

  /**
   * The merge loop.  `stopBefore` and `full` stand for ShouldStopBefore and the
   * output size limit, which only choose where output files are cut.
   */
  method DoCompactionWork(c: Compaction, input: seq<Entry>, oldest: nat, firstNumber: nat,
                          stopBefore: nat -> bool, full: nat -> bool)
    returns (outputs: seq<File>)
    requires c.Valid() && c.asked == None
    requires Sorted(input) && oldest < MAX_SEQUENCE
    modifies c
    ensures Concat(outputs) == KeptRows(input, |input|, c.inputVersion, c.level, oldest)
    ensures Numbered(outputs, firstNumber)
    ensures CutExactly(input, KeepsRow(input, c.inputVersion, c.level, oldest), stopBefore, full, outputs)
  {
    hide BaseLevel, LevelsSorted, LevelsDisjoint, Numbered, CutsOk, CutExactly, Going, KeptRows, Concat, KeepsRow;
    outputs := [];
    var builder: seq<Entry> := [];
    ghost var v, level := c.inputVersion, c.level;
    StartCut(input, v, level, oldest, stopBefore, full, firstNumber);
    var currentUserKey: Option<UserKey> := None;
    var lastSequenceForKey := MAX_SEQUENCE;
    var i := 0;
    while i < |input|
      invariant i <= |input| && c.Valid()
      invariant c.asked.Some? ==> i > 0 && c.asked.value <= input[i - 1].ikey.user
      invariant i == 0 ==> currentUserKey == None
      invariant i > 0 ==>
                  && currentUserKey == Some(input[i - 1].ikey.user)
                  && lastSequenceForKey == input[i - 1].ikey.sequence
      invariant Going(input, i, i, v, level, oldest, stopBefore, full, firstNumber, outputs, builder)
    {
      var e := input[i];
      assert i > 0 ==> Before(input[i - 1].ikey, e.ikey);
      outputs, builder := StopBefore(input, i, v, level, oldest, stopBefore, full, firstNumber, outputs, builder);
      if currentUserKey == None || e.ikey.user != currentUserKey.value {
        currentUserKey := Some(e.ikey.user);
        lastSequenceForKey := MAX_SEQUENCE;
      }
      var drop := ShouldDrop(c, e, lastSequenceForKey, oldest);
      lastSequenceForKey := e.ikey.sequence;
      assert drop <==> !KeptAt(input, i, v, level, oldest);
      outputs, builder := Take(input, i, v, level, oldest, stopBefore, full, firstNumber, outputs, builder, drop);
      i := i + 1;
    }
    outputs := FinishLast(input, v, level, oldest, stopBefore, full, firstNumber, outputs, builder);
  }

  /** The outputs and the open builder after the first `n` entries, with the test before entry `m` - 1 done. */
  ghost predicate Going(input: seq<Entry>, n: nat, m: nat, v: Levels, level: nat, oldest: nat, stopBefore: nat -> bool,
                        full: nat -> bool, first: nat, outputs: seq<File>, builder: seq<Entry>)
    requires n <= |input|
  {
    && Numbered(outputs, first) && Written(outputs, builder) == KeptRows(input, n, v, level, oldest)
    && CutsOk(input, n, m, KeepsRow(input, v, level, oldest), stopBefore, full, outputs, builder)
  }

  lemma StartCut(input: seq<Entry>, v: Levels, level: nat, oldest: nat, stopBefore: nat -> bool, full: nat -> bool,
                 first: nat)
    ensures Going(input, 0, 0, v, level, oldest, stopBefore, full, first, [], [])
  {
    NoCuts(input, KeepsRow(input, v, level, oldest), stopBefore, full);
  }

  /** ShouldStopBefore: closes the open output. */
  method StopBefore(ghost input: seq<Entry>, i: nat, ghost v: Levels, ghost level: nat, ghost oldest: nat,
                    stopBefore: nat -> bool, ghost full: nat -> bool, first: nat, outputs: seq<File>,
                        builder: seq<Entry>)
    returns (outputs': seq<File>, builder': seq<Entry>)
    requires Sorted(input) && i < |input|
    requires Going(input, i, i, v, level, oldest, stopBefore, full, first, outputs, builder)
    ensures Going(input, i, i + 1, v, level, oldest, stopBefore, full, first, outputs', builder')
  {
    hide Numbered, CutsOk, KeptRows, KeepsRow, Sorted;
    outputs', builder' := outputs, builder;
    if stopBefore(i) && builder != [] {
      outputs', builder' := FinishOutput(outputs, builder, first);
    }
    StopStep(input, i, KeepsRow(input, v, level, oldest), stopBefore, full, outputs, builder, outputs', builder',
             LastOr(outputs'));
  }

  /** Adds an entry that is not dropped; closes the output if it is full. */
  method Take(input: seq<Entry>, i: nat, ghost v: Levels, ghost level: nat, ghost oldest: nat,
              ghost stopBefore: nat -> bool, full: nat -> bool, first: nat, outputs: seq<File>, builder: seq<Entry>,
              drop: bool)
    returns (outputs': seq<File>, builder': seq<Entry>)
    requires Sorted(input) && i < |input| && (drop <==> !KeptAt(input, i, v, level, oldest))
    requires Going(input, i, i + 1, v, level, oldest, stopBefore, full, first, outputs, builder)
    ensures Going(input, i + 1, i + 1, v, level, oldest, stopBefore, full, first, outputs', builder')
  {
    hide Numbered, CutsOk, Sorted, Obsolete, Concat;
    outputs', builder' := outputs, builder;
    if !drop {
      builder' := builder + [input[i]];
      if full(i) {
        outputs', builder' := FinishOutput(outputs, builder', first);
      }
    }
    KeepStep(input, i, KeepsRow(input, v, level, oldest), stopBefore, full, outputs, builder, outputs', builder',
             LastOr(outputs'));
  }

  method FinishLast(ghost input: seq<Entry>, ghost v: Levels, ghost level: nat, ghost oldest: nat,
                    ghost stopBefore: nat -> bool, ghost full: nat -> bool, first: nat, outputs: seq<File>,
                    builder: seq<Entry>)
    returns (outputs': seq<File>)
    requires Sorted(input) && Going(input, |input|, |input|, v, level, oldest, stopBefore, full, first, outputs,
               builder)
    ensures Concat(outputs') == KeptRows(input, |input|, v, level, oldest) && Numbered(outputs', first)
    ensures CutExactly(input, KeepsRow(input, v, level, oldest), stopBefore, full, outputs')
  {
    hide Numbered, CutsOk, CutExactly, KeptRows, KeepsRow, Sorted, Concat;
    outputs' := outputs;
    if builder != [] {
      var empty;
      outputs', empty := FinishOutput(outputs, builder, first);
    }
    LastCut(input, KeepsRow(input, v, level, oldest), stopBefore, full, outputs, builder, outputs', LastOr(outputs'));
  }

  ghost function KeepsRow(input: seq<Entry>, v: Levels, level: nat, oldest: nat): nat -> bool {
    (i: nat) => i < |input| && KeptAt(input, i, v, level, oldest)
  }

  /** The last output, or any file. */
  ghost function LastOr(outputs: seq<File>): File {
    if outputs == [] then FileMetaData(0, [Entry(InternalKey(0.0, 0, Value), [])]) else outputs[|outputs| - 1]
  }

  /** The two drop rules for the next entry. */
  method ShouldDrop(c: Compaction, e: Entry, lastSequenceForKey: nat, oldest: nat) returns (drop: bool)
    requires c.Valid() && (c.asked.Some? ==> c.asked.value <= e.ikey.user)
    modifies c
    ensures c.Valid() && (c.asked.Some? ==> c.asked.value <= e.ikey.user)
    ensures drop <==> lastSequenceForKey <= oldest || Obsolete(e, c.inputVersion, c.level, oldest)
  {
    hide BaseLevel;
    drop := false;
    if lastSequenceForKey <= oldest {
      drop := true;
    } else if e.ikey.kind.Deletion? && e.ikey.sequence <= oldest {
      drop := c.IsBaseLevelForKey(e.ikey.user);
    }
  }

  method FinishOutput(outputs: seq<File>, builder: seq<Entry>, firstNumber: nat)
    returns (more: seq<File>, empty: seq<Entry>)
    requires builder != [] && Numbered(outputs, firstNumber)
    ensures Written(more, empty) == Written(outputs, builder) && empty == []
    ensures more == outputs + [FileMetaData(firstNumber + |outputs|, builder)]
    ensures Numbered(more, firstNumber)
  {
    var f := FileMetaData(firstNumber + |outputs|, builder);
    more := outputs + [f];
    empty := [];
    ConcatAppend(outputs, f);
  }

  // ---- What the drop rules keep, key by key ----

  /** No merged entry for the same user key is newer than `e` yet at or below the oldest snapshot. */
  ghost predicate NewestBelow(ins: set<Entry>, e: Entry, oldest: nat) {
    forall x :: x in ins && x.ikey.user == e.ikey.user && x.ikey.sequence <= oldest ==>
        x.ikey.sequence <= e.ikey.sequence
  }

  ghost predicate Keeps(ins: set<Entry>, e: Entry, v: Levels, level: nat, oldest: nat) {
    && e in ins
    && (e.ikey.sequence > oldest || (NewestBelow(ins, e, oldest) && !Obsolete(e, v, level, oldest)))
  }

  ghost function KeptSet(ins: set<Entry>, v: Levels, level: nat, oldest: nat): set<Entry> {
    set e | e in ins && Keeps(ins, e, v, level, oldest)
  }

  /** What is kept is thin: of each key one entry that the oldest snapshot sees, and no deletion it could do without. */
  lemma KeptIsThin(ins: set<Entry>, v: Levels, level: nat, oldest: nat, e: Entry, x: Entry)
    requires Distinct(ins) && e in KeptSet(ins, v, level, oldest) && e.ikey.sequence <= oldest
    ensures x in KeptSet(ins, v, level, oldest) && x.ikey.user == e.ikey.user && x.ikey.sequence <= oldest ==> x == e
    ensures e.ikey.kind.Deletion? ==> !BaseLevel(v, level, e.ikey.user)
  {
    hide BaseLevel;
    if x in KeptSet(ins, v, level, oldest) && x.ikey.user == e.ikey.user && x.ikey.sequence <= oldest {
      assert NewestBelow(ins, e, oldest) && NewestBelow(ins, x, oldest);
    }
  }

  lemma KeptRowsStep(input: seq<Entry>, i: nat, v: Levels, level: nat, oldest: nat)
    requires Sorted(input) && i < |input| && Distinct(RowSet(input))
    ensures Keeps(RowSet(input), input[i], v, level, oldest)
            <==> !(Hidden(input, i, oldest) || Obsolete(input[i], v, level, oldest))
  {
  }

  /** The loop's output is exactly the kept entries, still in order. */
  lemma {:induction false} KeptRowsAreKeptSet(input: seq<Entry>, n: nat, v: Levels, level: nat, oldest: nat)
    requires Sorted(input) && n <= |input| && Distinct(RowSet(input))
    ensures forall e :: e in KeptRows(input, n, v, level, oldest)
              <==> e in input[..n] && Keeps(RowSet(input), e, v, level, oldest)
    ensures Sorted(KeptRows(input, n, v, level, oldest))
  {
    if n == 0 {
    } else {
      KeptRowsAreKeptSet(input, n - 1, v, level, oldest);
      KeptRowsStep(input, n - 1, v, level, oldest);
      var r := KeptRows(input, n - 1, v, level, oldest);
      forall i | 0 <= i < |r| ensures Before(r[i].ikey, input[n - 1].ikey) {
        assert r[i] in input[..n - 1];
      }
    }
  }

  // ---- Dropping is invisible, exactly when nothing is resurrected ----

  /**
   * A droppable deletion `e` that the snapshot `floor` reads, with the value `x`
   * underneath it left out of the compaction.
   */
  ghost predicate Uncovers(rest: set<Entry>, ins: set<Entry>, v: Levels, level: nat, oldest: nat, floor: nat,
                           e: Entry, x: Entry) {
    && e in ins && Obsolete(e, v, level, oldest)
    && (forall y :: y in rest + ins && y.ikey.user == e.ikey.user && y.ikey.sequence <= floor
          ==> y.ikey.sequence <= e.ikey.sequence)
    && x in rest && x.ikey.kind.Value? && x.ikey.user == e.ikey.user && x.ikey.sequence < e.ikey.sequence
    && (forall y :: y in rest && y.ikey.user == e.ikey.user && y.ikey.sequence < e.ikey.sequence
          ==> y.ikey.sequence <= x.ikey.sequence)
  }

  /** What stays newest after the drop is what was newest, or the newest was an obsolete deletion. */
  lemma NewestAfterDrop(rest: set<Entry>, ins: set<Entry>, v: Levels, level: nat, oldest: nat,
                        k: UserKey, snapshot: nat, e: Entry)
    requires Distinct(rest + ins) && oldest <= snapshot
    requires IsNewest(rest + ins, k, snapshot, e)
    ensures e in rest + KeptSet(ins, v, level, oldest) ==>
              IsNewest(rest + KeptSet(ins, v, level, oldest), k, snapshot, e)
    ensures e !in rest + KeptSet(ins, v, level, oldest) ==>
              && e in ins && Obsolete(e, v, level, oldest)
              && (forall y :: y in KeptSet(ins, v, level, oldest) ==> !Visible(y, k, snapshot))
  {
  }

  /** The answer after the drop, when the newest entry was an obsolete deletion. */
  lemma AnswerAfterObsolete(rest: set<Entry>, ins: set<Entry>, v: Levels, level: nat, oldest: nat, floor: nat,
                            k: UserKey, snapshot: nat, e: Entry)
    requires Distinct(rest + ins) && oldest <= floor <= snapshot
    requires IsNewest(rest + ins, k, snapshot, e) && e !in rest + KeptSet(ins, v, level, oldest)
    requires forall x :: !Uncovers(rest, ins, v, level, oldest, floor, e, x)
    ensures Answers(rest + KeptSet(ins, v, level, oldest), k, snapshot, None)
  {
    var after := rest + KeptSet(ins, v, level, oldest);
    NewestAfterDrop(rest, ins, v, level, oldest, k, snapshot, e);
    NewestExists(after, k, snapshot);
    if x :| IsNewest(after, k, snapshot, x) {
      assert !Uncovers(rest, ins, v, level, oldest, floor, e, x);
    }
  }

  /** One lookup is unchanged by the drop when nothing is uncovered. */
  lemma DropKeepsAnswer(rest: set<Entry>, ins: set<Entry>, v: Levels, level: nat, oldest: nat, floor: nat,
                        k: UserKey, snapshot: nat, r: Option<Bytes>)
    requires Distinct(rest + ins) && oldest <= floor <= snapshot
    requires forall e, x :: !Uncovers(rest, ins, v, level, oldest, floor, e, x)
    ensures Answers(rest + ins, k, snapshot, r) <==> Answers(rest + KeptSet(ins, v, level, oldest), k, snapshot, r)
  {
    var before, after := rest + ins, rest + KeptSet(ins, v, level, oldest);
    assert after <= before;
    NewestExists(before, k, snapshot);
    if e :| IsNewest(before, k, snapshot, e) {
      NewestAfterDrop(rest, ins, v, level, oldest, k, snapshot, e);
      if e !in after {
        AnswerAfterObsolete(rest, ins, v, level, oldest, floor, k, snapshot, e);
        AnswersIsFunctional(before, k, snapshot);
      }
      assert Distinct(after);
      AnswersIsFunctional(after, k, snapshot);
      AnswersIsFunctional(before, k, snapshot);
    } else {
      assert NoneVisible(after, k, snapshot);
    }
  }

  /** An uncovered value changes the answer at the snapshot that read the deletion. */
  lemma UncoveringChangesAnswer(rest: set<Entry>, ins: set<Entry>, v: Levels, level: nat, oldest: nat, floor: nat,
                                e: Entry, x: Entry)
    requires Distinct(rest + ins) && rest !! ins && oldest <= floor
    requires Uncovers(rest, ins, v, level, oldest, floor, e, x)
    ensures Answers(rest + ins, e.ikey.user, floor, None)
    ensures Answers(rest + KeptSet(ins, v, level, oldest), e.ikey.user, floor, Some(x.value))
    ensures !Answers(rest + ins, e.ikey.user, floor, Some(x.value))
  {
    var k := e.ikey.user;
    AnswersIsFunctional(rest + ins, k, floor);
    var kept := KeptSet(ins, v, level, oldest);
    NewestAfterDrop(rest, ins, v, level, oldest, k, floor, e);
    forall y | y in rest + kept && Visible(y, k, floor) ensures y.ikey.sequence <= x.ikey.sequence {}
    assert Told(x) == Some(x.value);
  }

  /**
   * Replacing the inputs by what the loop keeps changes no lookup at any
   * snapshot from `floor` on, if and only if no droppable deletion that `floor`
   * reads covers a value left outside the inputs.
   */
  lemma DropsInvisibleExactly(rest: set<Entry>, ins: set<Entry>, v: Levels, level: nat, oldest: nat, floor: nat)
    requires Distinct(rest + ins) && rest !! ins && oldest <= floor
    ensures SameAnswers(rest + ins, rest + KeptSet(ins, v, level, oldest), floor)
            <==> forall e, x :: !Uncovers(rest, ins, v, level, oldest, floor, e, x)
  {
    if e, x :| Uncovers(rest, ins, v, level, oldest, floor, e, x) {
      UncoveringChangesAnswer(rest, ins, v, level, oldest, floor, e, x);
    } else {
      forall k, snapshot, r | floor <= snapshot
        ensures Answers(rest + ins, k, snapshot, r)
                <==> Answers(rest + KeptSet(ins, v, level, oldest), k, snapshot, r)
      {
        DropKeepsAnswer(rest, ins, v, level, oldest, floor, k, snapshot, r);
      }
    }
  }
}
