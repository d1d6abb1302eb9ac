/**
 * The skip list under one writer and any number of lock-free readers
 * (db/skiplist.h).  Every load or store of a shared pointer is one step.
 */
module SkipListRuns {
  import opened DbFormat
  import opened SkipList

  /** Where the writer is inside Insert. */
  datatype Writer =
    | Idle
    | Searching(key: real, x: Node, level: nat, prev: map<nat, Node>)
    | Chosen(key: real, prev: map<nat, Node>)
    | Linking(key: real, height: nat, prev: map<nat, Node>, level: nat, own: bool)

  /** FindGreaterOrEqual, FindLessThan or FindLast. */
  datatype Goal = AtOrAfter(key: real) | LessThan(key: real) | ToLast

  /**
   * A reader.  `base` is the list's contents when it started, `seen` those at its
   * last load.
   */
  datatype Reader =
    | Reading(goal: Goal, x: Node, level: nat, base: set<real>)
    | Done(goal: Goal, x: Node, found: Option<real>, base: set<real>, seen: set<real>)

  /** `inserted` holds the keys whose Insert has returned. */
  datatype State = State(mem: Memory, writer: Writer, readers: map<nat, Reader>, inserted: set<real>)

  predicate Init(s: State) {
    s == State(Empty(), Idle, map[], {})
  }

  // ---- Steps of the writer ----

  ghost predicate StartInsert(s: State, s': State, key: real) {
    && s.writer.Idle? && key !in s.inserted && s.mem.maxHeight >= 1
    && s' == s.(writer := Searching(key, Head, s.mem.maxHeight - 1, map[]))
  }

  /** One load of the writer's search. */
  ghost predicate SearchStep(s: State, s': State) {
    && s.writer.Searching?
    && var w := s.writer;
       && Place(w.x, w.level) in s.mem.next
       && var next := s.mem.next[Place(w.x, w.level)];
          s' == s.(writer :=
            if next.Some? && next.value < w.key then Searching(w.key, At(next.value), w.level, w.prev)
            else if w.level > 0 then Searching(w.key, w.x, w.level - 1, w.prev[w.level := w.x])
            else Chosen(w.key, w.prev[w.level := w.x]))
  }

  function Filled(prev: map<nat, Node>, from: nat, height: nat): map<nat, Node> {
    map l | 0 <= l < height :: if l in prev && l < from then prev[l] else Head
  }

  /** Picks the height and raises the height of the list if need be. */
  ghost predicate ChooseHeight(s: State, s': State, height: nat) {
    && s.writer.Chosen? && 1 <= height <= MAX_HEIGHT
    && var w := s.writer;
       s' == s.(mem := s.mem.(maxHeight := if height > s.mem.maxHeight then height else s.mem.maxHeight),
                writer := Linking(w.key, height, Filled(w.prev, s.mem.maxHeight, height), 0, false))
  }

  /** Stores the new node's own link at the current level. */
  ghost predicate OwnStep(s: State, s': State) {
    && s.writer.Linking? && !s.writer.own
    && var w := s.writer;
       && w.level in w.prev && Place(w.prev[w.level], w.level) in s.mem.next
       && s' == s.(mem := StoreOwn(s.mem, w.key, w.level, s.mem.next[Place(w.prev[w.level], w.level)]),
                   writer := Linking(w.key, w.height, w.prev, w.level, true))
  }

  /** Stores the predecessor's link, publishing the node at the level. */
  ghost predicate PublishStep(s: State, s': State) {
    && s.writer.Linking? && s.writer.own
    && var w := s.writer;
       && w.level in w.prev && w.level < |s.mem.linked|
       && var last := w.level + 1 == w.height;
          s' == s.(mem := Publish(s.mem, w.key, w.level, w.prev[w.level]),
                   writer := if last then Idle else Linking(w.key, w.height, w.prev, w.level + 1, false),
                   inserted := if last then s.inserted + {w.key} else s.inserted)
  }

  // ---- Steps of the readers ----

  /** A reader starts from the height it loads, which may be out of date. */
  ghost predicate StartRead(s: State, s': State, id: nat, goal: Goal, height: nat) {
    && |s.mem.linked| == MAX_HEIGHT && 1 <= height <= s.mem.maxHeight
    && s' == s.(readers := s.readers[id := Reading(goal, Head, height - 1, s.mem.linked[0])])
  }

  predicate Continues(goal: Goal, next: Option<real>) {
    next.Some? && (goal.ToLast? || next.value < goal.key)
  }

  /** What a reader's next load makes of it. */
  ghost function Advanced(m: Memory, r: Reader): Reader
    requires r.Reading? && Place(r.x, r.level) in m.next && |m.linked| == MAX_HEIGHT
  {
    var next := m.next[Place(r.x, r.level)];
    if Continues(r.goal, next) then Reading(r.goal, At(next.value), r.level, r.base)
    else if r.level > 0 then Reading(r.goal, r.x, r.level - 1, r.base)
    else Done(r.goal, r.x, next, r.base, m.linked[0])
  }

  /** One load of a reader's search. */
  ghost predicate ReadStep(s: State, s': State, id: nat) {
    && id in s.readers && s.readers[id].Reading?
    && |s.mem.linked| == MAX_HEIGHT
    && var r := s.readers[id];
       && Place(r.x, r.level) in s.mem.next
       && s' == s.(readers := s.readers[id := Advanced(s.mem, r)])
  }

  datatype Step =
    | StartInsertOf(key: real) | Search | Choose(height: nat) | Own | Publishing
    | StartReadOf(id: nat, goal: Goal, height: nat) | ReadOf(id: nat)

  ghost predicate NextStep(s: State, s': State, step: Step) {
    match step
    case StartInsertOf(key) => StartInsert(s, s', key)
    case Search => SearchStep(s, s')
    case Choose(height) => ChooseHeight(s, s', height)
    case Own => OwnStep(s, s')
    case Publishing => PublishStep(s, s')
    case StartReadOf(id, goal, height) => StartRead(s, s', id, goal, height)
    case ReadOf(id) => ReadStep(s, s', id)
  }

  ghost predicate Next(s: State, s': State) {
    exists step :: NextStep(s, s', step)
  }

  // ---- The invariant ----

  ghost predicate Placed(m: Memory, prev: map<nat, Node>, from: nat, to: nat, key: real) {
    forall l: nat :: from <= l < to ==> l in prev && IsPlaceFor(m, prev[l], l, key)
  }

  ghost predicate WriterOk(m: Memory, w: Writer)
    requires |m.linked| == MAX_HEIGHT
  {
    match w
    case Idle => true
    case Searching(key, x, level, prev) =>
      key !in m.linked[0] && level < m.maxHeight && OnLevel(m, x, level) && Below(x, key)
          && Placed(m, prev, level + 1, m.maxHeight, key)
    case Chosen(key, prev) =>
      key !in m.linked[0] && Placed(m, prev, 0, m.maxHeight, key)
    case Linking(key, height, prev, level, own) =>
      && level < height <= m.maxHeight <= MAX_HEIGHT
      && (forall l :: 0 <= l < MAX_HEIGHT ==> (key in m.linked[l] <==> l < level))
      && Placed(m, prev, level, height, key)
      && (own ==> SameLink(m, At(key), prev[level], level))
  }

  /** The keys that are in the list without their Insert having returned. */
  function InFlight(w: Writer): set<real> {
    if w.Linking? && w.level > 0 then {w.key} else {}
  }

  ghost predicate Right(r: Reader)
    requires r.Done?
  {
    match r.goal
    case AtOrAfter(key) => IsLeastFrom(r.seen, key, r.found)
    case LessThan(key) => IsLastBefore(r.seen, key, r.x)
    case ToLast => IsLast(r.seen, r.x)
  }

  ghost predicate ReaderOk(m: Memory, r: Reader)
    requires |m.linked| == MAX_HEIGHT
  {
    match r
    case Reading(goal, x, level, base) =>
      OnLevel(m, x, level) && (goal.ToLast? || Below(x, goal.key)) && base <= m.linked[0]
    case Done(_, _, _, base, seen) =>
      Right(r) && base <= seen <= m.linked[0]
  }

  ghost predicate ReadersOk(m: Memory, readers: map<nat, Reader>)
    requires |m.linked| == MAX_HEIGHT
  {
    forall id :: id in readers ==> ReaderOk(m, readers[id])
  }

  ghost predicate Inv(s: State) {
    && WellFormed(s.mem)
    && WriterOk(s.mem, s.writer)
    && ReadersOk(s.mem, s.readers)
    && s.mem.linked[0] == s.inserted + InFlight(s.writer)
  }

  lemma InitInv(s: State)
    requires Init(s)
    ensures Inv(s)
  {
  }

  /** Levels only gain keys. */
  ghost predicate Grows(m: Memory, m': Memory) {
    |m.linked| == |m'.linked| == MAX_HEIGHT && forall l :: 0 <= l < MAX_HEIGHT ==> m.linked[l] <= m'.linked[l]
  }

  /** A reader caught in the middle of any store stays on its track. */
  lemma ReadersKept(m: Memory, m': Memory, readers: map<nat, Reader>)
    requires Grows(m, m') && ReadersOk(m, readers)
    ensures ReadersOk(m', readers)
  {
  }

  lemma ReadKeepsInv(s: State, s': State, id: nat)
    requires Inv(s) && ReadStep(s, s', id)
    ensures Inv(s')
  {
  }

  lemma StartReadKeepsInv(s: State, s': State, id: nat, goal: Goal, height: nat)
    requires Inv(s) && StartRead(s, s', id, goal, height)
    ensures Inv(s')
  {
  }

  lemma SearchKeepsInv(s: State, s': State)
    requires Inv(s) && SearchStep(s, s')
    ensures Inv(s')
  {
  }

  lemma ChooseKeepsInv(s: State, s': State, height: nat)
    requires Inv(s) && ChooseHeight(s, s', height)
    ensures Inv(s')
  {
    hide ReaderOk, IsSuccessor;
    var w := s.writer;
    var top := if height > s.mem.maxHeight then height else s.mem.maxHeight;
    RaiseKeeps(s.mem, top);
    ReadersKept(s.mem, s'.mem, s.readers);
    forall l: nat | 0 <= l < height ensures l in s'.writer.prev && IsPlaceFor(s'.mem, s'.writer.prev[l], l, w.key) {
      if l >= s.mem.maxHeight {
        assert s.mem.linked[l] == {};
      }
    }
    forall l | 0 <= l < MAX_HEIGHT ensures w.key !in s.mem.linked[l] {}
  }

  lemma OwnKeepsInv(s: State, s': State)
    requires Inv(s) && OwnStep(s, s')
    ensures Inv(s')
  {
    hide ReaderOk, IsSuccessor, IsLastBefore, WellFormed;
    var w := s.writer;
    LevelCount(s.mem);
    StoreOwnKeeps(s.mem, w.key, w.level, s.mem.next[Place(w.prev[w.level], w.level)]);
    ReadersKept(s.mem, s'.mem, s.readers);
    forall l: nat | w.level <= l < w.height ensures l in w.prev && IsPlaceFor(s'.mem, w.prev[l], l, w.key) {}
  }

  lemma LevelCount(m: Memory)
    requires WellFormed(m)
    ensures |m.linked| == MAX_HEIGHT
  {
  }

  lemma PublishKeepsInv(s: State, s': State)
    requires Inv(s) && PublishStep(s, s')
    ensures Inv(s')
  {
    hide ReaderOk, IsSuccessor, IsLastBefore, WellFormed, SameLink;
    var w := s.writer;
    LevelCount(s.mem);
    PublishKeeps(s.mem, w.key, w.level, w.prev[w.level]);
    ReadersKept(s.mem, s'.mem, s.readers);
    forall l: nat | w.level < l < w.height ensures l in w.prev && IsPlaceFor(s'.mem, w.prev[l], l, w.key) {
      assert IsPlaceFor(s.mem, w.prev[l], l, w.key);
    }
  }

  lemma NextKeepsInv(s: State, s': State)
    requires Inv(s) && Next(s, s')
    ensures Inv(s') && Grows(s.mem, s'.mem)
  {
    hide Inv, WellFormed, WriterOk, ReadersOk;
    Counted(s);
    var step :| NextStep(s, s', step);
    match step
    case StartInsertOf(key) => StartInsertKeepsInv(s, s', key);
    case Search => SearchKeepsInv(s, s');
    case Choose(height) => ChooseKeepsInv(s, s', height);
    case Own => OwnKeepsInv(s, s');
    case Publishing => PublishKeepsInv(s, s');
    case StartReadOf(id, goal, height) => StartReadKeepsInv(s, s', id, goal, height);
    case ReadOf(id) => ReadKeepsInv(s, s', id);
  }

  lemma Counted(s: State)
    requires Inv(s)
    ensures |s.mem.linked| == MAX_HEIGHT
  {
  }

  lemma StartInsertKeepsInv(s: State, s': State, key: real)
    requires Inv(s) && StartInsert(s, s', key)
    ensures Inv(s')
  {
  }

  // ---- Whole runs ----

  ghost predicate Run(run: seq<State>) {
    run != [] && Init(run[0]) && forall i, j :: 0 <= i && j == i + 1 < |run| ==> Next(run[i], run[j])
  }

  /** Every level is a sorted sublist of the level below after every store of every run. */
  lemma {:induction false} RunKeepsInv(run: seq<State>, i: nat)
    requires Run(run) && i < |run|
    ensures Inv(run[i])
  {
    hide Inv, Next, Init;
    if i == 0 {
      InitInv(run[0]);
    } else {
      RunKeepsInv(run, i - 1);
      NextKeepsInv(run[i - 1], run[i]);
    }
  }

  /** A reader's base is the list as it stood when the reader started. */
  lemma {:induction false} ReaderStart(run: seq<State>, i: nat, id: nat) returns (start: nat)
    requires Run(run) && i < |run| && id in run[i].readers
    ensures start <= i && |run[start].mem.linked| == MAX_HEIGHT && run[i].readers[id].base == run[start].mem.linked[0]
    decreases i
  {
    hide Init, Next, Inv;
    if i == 0 {
      InitHasNoReaders(run[0]);
      assert false;
    } else {
      assert Next(run[i - 1], run[i]);
      RunKeepsInv(run, i - 1);
      Counted(run[i - 1]);
      if id in run[i - 1].readers && run[i - 1].readers[id].base == run[i].readers[id].base {
        start := ReaderStart(run, i - 1, id);
      } else {
        StartedNow(run[i - 1], run[i], id);
        start := i - 1;
      }
    }
  }

  lemma StartedNow(s: State, s': State, id: nat)
    requires Next(s, s') && id in s'.readers && (id !in s.readers || s.readers[id].base != s'.readers[id].base)
    ensures |s.mem.linked| == MAX_HEIGHT && s'.readers[id].base == s.mem.linked[0]
  {
  }

  /**
   * In every run, a reader that has its answer has the right one for the list as
   * it stood at one moment of its search: a moment no earlier than its start, when
   * the list held `base`, and no later than its last load.
   */
  lemma {:induction false} RunAnswers(run: seq<State>, i: nat, id: nat) returns (start: nat, moment: nat)
    requires Run(run) && i < |run| && id in run[i].readers && run[i].readers[id].Done?
    ensures start <= moment <= i && |run[start].mem.linked| == MAX_HEIGHT == |run[moment].mem.linked|
    ensures var r := run[i].readers[id];
              && r.base == run[start].mem.linked[0] && r.seen == run[moment].mem.linked[0]
              && r.base <= r.seen
              && Right(r)
    decreases i
  {
    hide Right, WellFormed, WriterOk, Init;
    RunKeepsInv(run, i);
    Counted(run[i]);
    assert ReaderOk(run[i].mem, run[i].readers[id]);
    if i == 0 {
      InitHasNoReaders(run[0]);
      assert false;
    } else {
      RunKeepsInv(run, i - 1);
      Counted(run[i - 1]);
      if id in run[i - 1].readers && run[i - 1].readers[id] == run[i].readers[id] {
        start, moment := RunAnswers(run, i - 1, id);
      } else {
        assert Next(run[i - 1], run[i]);
        DoneByLoad(run[i - 1], run[i], id);
        moment := i - 1;
        start := ReaderStart(run, i - 1, id);
      }
    }
  }

  lemma InitHasNoReaders(s: State)
    requires Init(s)
    ensures s.readers == map[]
  {
  }

  lemma DoneByLoad(s: State, s': State, id: nat)
    requires Next(s, s') && id in s'.readers && s'.readers[id].Done?
    requires id !in s.readers || s.readers[id] != s'.readers[id]
    requires |s.mem.linked| == MAX_HEIGHT
    ensures s'.readers[id].seen == s.mem.linked[0]
    ensures id in s.readers && s.readers[id].base == s'.readers[id].base
  {
    var step :| NextStep(s, s', step);
    assert step.ReadOf? && step.id == id;
  }

  // ---- Every operation can finish ----

  ghost function KeysAhead(m: Memory, x: Node, level: nat): nat {
    if level < |m.linked| then |Rest(m, x, level)| else 0
  }

  lemma StepAhead(m: Memory, x: Node, level: nat)
    requires WellFormed(m) && OnLevel(m, x, level)
    ensures Place(x, level) in m.next
    ensures m.next[Place(x, level)].Some? ==>
              KeysAhead(m, At(m.next[Place(x, level)].value), level) < KeysAhead(m, x, level)
  {
    assert Linked(m, x, level);
    if m.next[Place(x, level)].Some? {
      RestShrinks(m, x, level);
    }
  }

  /** From any state a reader reaches its answer by its own loads alone; it waits for nobody. */
  lemma {:induction false} ReaderFinishes(s: State, id: nat) returns (run: seq<State>)
    requires Inv(s) && id in s.readers
    ensures run != [] && run[0] == s && forall i, j :: 0 <= i && j == i + 1 < |run| ==> ReadStep(run[i], run[j], id)
    ensures var last := run[|run| - 1]; id in last.readers && last.readers[id].Done? && last.mem == s.mem
    decreases var r := s.readers[id]; if r.Reading? then r.level + 1 else 0,
              var r := s.readers[id]; if r.Reading? then KeysAhead(s.mem, r.x, r.level) else 0
  {
    hide WellFormed, WriterOk, Right;
    run := [s];
    var r := s.readers[id];
    if r.Reading? {
      Counted(s);
      assert ReaderOk(s.mem, r);
      StepAhead(s.mem, r.x, r.level);
      var s' := s.(readers := s.readers[id := Advanced(s.mem, r)]);
      ReadKeepsInv(s, s', id);
      var rest := ReaderFinishes(s', id);
      run := run + rest;
    }
  }

  /** What is left of an Insert: the phase, then the level, then the keys ahead or the stores. */
  function Phase(w: Writer): nat {
    match w
    case Idle => 0
    case Linking(_, _, _, _, _) => 1
    case Chosen(_, _) => 2
    case Searching(_, _, _, _) => 3
  }

  function LevelsLeft(w: Writer): nat {
    match w
    case Searching(_, _, level, _) => level
    case Linking(_, height, _, level, _) => if level <= height then height - level else 0
    case _ => 0
  }

  ghost function StepsLeft(m: Memory, w: Writer): nat {
    match w
    case Searching(_, x, level, _) => KeysAhead(m, x, level)
    case Linking(_, _, _, _, own) => if own then 0 else 1
    case _ => 0
  }

  ghost predicate LinkedBelow(m: Memory, key: real, height: nat) {
    |m.linked| == MAX_HEIGHT && forall l :: 0 <= l < MAX_HEIGHT ==> (key in m.linked[l] <==> l < height)
  }

  function HeightOf(w: Writer, height: nat): nat {
    if w.Linking? then w.height else height
  }

  /**
   * From any state an Insert returns by the writer's own steps alone, whatever
   * height it draws, with the key then at exactly the levels below that height.
   */
  lemma {:induction false} WriterFinishes(s: State, height: nat) returns (run: seq<State>)
    requires Inv(s) && !s.writer.Idle? && 1 <= height <= MAX_HEIGHT
    ensures run != [] && run[0] == s && forall i, j :: 0 <= i && j == i + 1 < |run| ==> Next(run[i], run[j])
    ensures var last, key := run[|run| - 1], s.writer.key;
              && last.writer.Idle? && last.inserted == s.inserted + {key} && last.readers == s.readers
              && LinkedBelow(last.mem, key, HeightOf(s.writer, height))
    decreases Phase(s.writer), LevelsLeft(s.writer), StepsLeft(s.mem, s.writer)
  {
    hide Inv, WellFormed, Next;
    var step, s' := WriterStep(s, height);
    NextByStep(s, s', step);
    NextKeepsInv(s, s');
    if s'.writer.Idle? {
      run := [s, s'];
    } else {
      var rest := WriterFinishes(s', height);
      run := [s] + rest;
    }
  }

  lemma NextByStep(s: State, s': State, step: Step)
    requires NextStep(s, s', step)
    ensures Next(s, s')
  {
  }

  /** Some step of the writer is always possible, and brings it nearer to its end. */
  lemma WriterStep(s: State, height: nat) returns (step: Step, s': State)
    requires Inv(s) && !s.writer.Idle? && 1 <= height <= MAX_HEIGHT
    ensures NextStep(s, s', step) && s'.readers == s.readers
    ensures var w, w' := s.writer, s'.writer;
              || Phase(w') < Phase(w)
              || (Phase(w') == Phase(w) && LevelsLeft(w') < LevelsLeft(w))
              || (&& Phase(w') == Phase(w) && LevelsLeft(w') == LevelsLeft(w)
                  && StepsLeft(s'.mem, w') < StepsLeft(s.mem, w))
    ensures s'.writer.Idle? ==>
              && s'.inserted == s.inserted + {s.writer.key}
              && LinkedBelow(s'.mem, s.writer.key, HeightOf(s.writer, height))
    ensures !s'.writer.Idle? ==>
              && s'.inserted == s.inserted && s'.writer.key == s.writer.key
              && HeightOf(s'.writer, height) == HeightOf(s.writer, height)
  {
    var w := s.writer;
    match w
    case Searching(key, x, level, prev) =>
      step := Search;
      StepAhead(s.mem, x, level);
      var next := s.mem.next[Place(x, level)];
      s' := s.(writer :=
            if next.Some? && next.value < key then Searching(key, At(next.value), level, prev)
            else if level > 0 then Searching(key, x, level - 1, prev[level := x])
            else Chosen(key, prev[level := x]));
    case Chosen(key, prev) =>
      step := Choose(height);
      s' := s.(mem := s.mem.(maxHeight := if height > s.mem.maxHeight then height else s.mem.maxHeight),
               writer := Linking(key, height, Filled(prev, s.mem.maxHeight, height), 0, false));
    case Linking(key, h, prev, level, own) =>
      assert IsPlaceFor(s.mem, prev[level], level, key);
      StepAhead(s.mem, prev[level], level);
      if !own {
        step := Own;
        s' := s.(mem := StoreOwn(s.mem, key, level, s.mem.next[Place(prev[level], level)]),
                 writer := Linking(key, h, prev, level, true));
      } else {
        step := Publishing;
        var last := level + 1 == h;
        s' := s.(mem := Publish(s.mem, key, level, prev[level]),
                 writer := if last then Idle else Linking(key, h, prev, level + 1, false),
                 inserted := if last then s.inserted + {key} else s.inserted);
      }
  }
}
