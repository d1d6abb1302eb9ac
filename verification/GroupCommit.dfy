/**
 * The write queue and group commit (DBImpl::Write and BuildBatchGroup in
 * db/db_impl.cc).  The front writer logs and inserts for a group of writers
 * behind it, without the mutex, while others join the queue.
 */
module GroupCommit {
  import opened DbFormat
  import opened WriteBatch

  /** A queued writer; one without a batch only asks for a memtable switch. */
  datatype Writer = Writer(id: nat, ops: Option<seq<Op>>, sync: bool)

  function OpsOf(w: Writer): seq<Op> {
    if w.ops.Some? then w.ops.value else []
  }

  function Concat(ws: seq<Writer>): seq<Op> {
    if ws == [] then [] else Concat(ws[..|ws| - 1]) + OpsOf(ws[|ws| - 1])
  }

  // ---- Building a group ----

  /** A leader that does not sync takes no writer that wants a sync. */
  predicate SyncSafe(queue: seq<Writer>, n: nat)
    requires 1 <= n <= |queue|
  {
    forall i :: 0 < i < n && queue[i].sync ==> queue[0].sync
  }

  function ByteSize(w: Writer): nat {
    HEADER + |OpsBytes(OpsOf(w))|
  }

  function GroupSize(queue: seq<Writer>, n: nat): nat
    requires 1 <= n <= |queue|
  {
    if n == 1 then ByteSize(queue[0])
    else GroupSize(queue, n - 1) + if queue[n - 1].ops.Some? then ByteSize(queue[n - 1]) else 0
  }

  const LARGE := 0x2_0000   // 128 KiB

  function MaxSize(first: nat): nat {
    if first <= LARGE then first + LARGE else 0x10_0000
  }

  /**
   * BuildBatchGroup: the longest prefix of the queue that is safe to sync with the
   * leader and not too big; the batch is theirs in queue order.
   */
  method BuildBatchGroup(queue: seq<Writer>) returns (n: nat, group: seq<Op>)
    requires queue != [] && queue[0].ops.Some?
    ensures 1 <= n <= |queue| && SyncSafe(queue, n) && group == Concat(queue[..n])
    ensures forall i :: 1 <= i < n && queue[i].ops.Some? ==> GroupSize(queue, i + 1) <= MaxSize(ByteSize(queue[0]))
    ensures n < |queue| ==>
              || (queue[n].sync && !queue[0].sync)
              || GroupSize(queue, n + 1) > MaxSize(ByteSize(queue[0]))
  {
    hide ByteSize, MaxSize;
    n, group := 1, queue[0].ops.value;
    assert queue[..1] == [queue[0]] && Concat([]) == [];
    var size := ByteSize(queue[0]);
    var max := MaxSize(size);
    while n < |queue|
      invariant 1 <= n <= |queue| && SyncSafe(queue, n) && group == Concat(queue[..n])
      invariant size == GroupSize(queue, n)
      invariant forall i :: 1 <= i < n && queue[i].ops.Some? ==> GroupSize(queue, i + 1) <= max
    {
      var w := queue[n];
      if w.sync && !queue[0].sync {
        break;
      }
      assert queue[..n + 1][..n] == queue[..n];
      if w.ops.Some? {
        size := size + ByteSize(w);
        if size > max {
          break;
        }
        group := group + w.ops.value;
      }
      n := n + 1;
    }
  }

  // ---- Numbering ----

  /** An operation in the memtable with its sequence number. */
  datatype Numbered = Numbered(sequence: nat, op: Op)

  function Number(ops: seq<Op>, first: nat): (r: seq<Numbered>)
    ensures |r| == |ops|
  {
    seq(|ops|, i requires 0 <= i < |ops| => Numbered(first + i, ops[i]))
  }

  lemma NumberAppend(a: seq<Op>, b: seq<Op>, first: nat)
    ensures Number(a + b, first) == Number(a, first) + Number(b, first + |a|)
  {
  }

  // ---- One writer at a time ----

  /**
   * A writer that was let go.  `attempted`: its batch was given sequence numbers;
   * `ok`: it was logged (and synced, if its leader syncs) and inserted.
   */
  datatype Served = Served(w: Writer, attempted: bool, ok: bool, durable: bool)

  datatype Outcome = Outcome(last: nat, mem: seq<Numbered>)

  /** The reference: each writer in turn numbers and inserts its own batch. */
  function OneByOne(served: seq<Served>): Outcome {
    if served == [] then Outcome(0, [])
    else
      var before, s := OneByOne(served[..|served| - 1]), served[|served| - 1];
      if !s.attempted then before
      else Outcome(before.last + |OpsOf(s.w)|, before.mem + if s.ok then Number(OpsOf(s.w), before.last + 1) else [])
  }

  function ServeAll(ws: seq<Writer>, attempted: bool, ok: bool, durable: bool): (r: seq<Served>)
    ensures |r| == |ws| && forall i :: 0 <= i < |ws| ==> r[i] == Served(ws[i], attempted, ok, durable)
  {
    seq(|ws|, i requires 0 <= i < |ws| => Served(ws[i], attempted, ok, durable))
  }

  /** A group numbered and inserted as one batch is its writers taken one by one. */
  lemma {:induction false} GroupIsOneByOne(served: seq<Served>, ws: seq<Writer>, ok: bool, durable: bool)
    ensures var before, after := OneByOne(served), OneByOne(served + ServeAll(ws, true, ok, durable));
              && after.last == before.last + |Concat(ws)|
              && after.mem == before.mem + if ok then Number(Concat(ws), before.last + 1) else []
  {
    hide Number, OneByOne, ServeAll;
    if ws == [] {
      assert served + ServeAll(ws, true, ok, durable) == served;
      assert Number(Concat(ws), OneByOne(served).last + 1) == [];
    } else {
      var n := |ws| - 1;
      var part := served + ServeAll(ws[..n], true, ok, durable);
      GroupIsOneByOne(served, ws[..n], ok, durable);
      ServeLast(served, ws, ok, durable);
      OneMore(part, Served(ws[n], true, ok, durable));
      NumberAppend(Concat(ws[..n]), OpsOf(ws[n]), OneByOne(served).last + 1);
    }
  }

  lemma ServeLast(served: seq<Served>, ws: seq<Writer>, ok: bool, durable: bool)
    requires ws != []
    ensures var n := |ws| - 1;
              served + ServeAll(ws, true, ok, durable) ==
              served + ServeAll(ws[..n], true, ok, durable) + [Served(ws[n], true, ok, durable)]
  {
    hide ServeAll;
  }

  lemma OneMore(served: seq<Served>, s: Served)
    requires s.attempted
    ensures var before := OneByOne(served);
              OneByOne(served + [s])
              == Outcome(before.last + |OpsOf(s.w)|,
                         before.mem + if s.ok then Number(OpsOf(s.w), before.last + 1) else [])
  {
  }

  lemma NotAttempted(served: seq<Served>, s: Served)
    requires !s.attempted
    ensures OneByOne(served + [s]) == OneByOne(served)
  {
  }

  // ---- The queue as a state machine ----

  datatype Stage = Started | Logged | Synced | Inserted | Failed

  /** What the front writer is doing with the mutex released. */
  datatype Commit = Commit(n: nat, first: nat, group: seq<Op>, stage: Stage)

  /** A log record and whether it is known to be on disk. */
  datatype Record = Record(first: nat, ops: seq<Op>, synced: bool)

  datatype State = State(
    queue: seq<Writer>,
    arrived: seq<Writer>,       // every writer that ever joined, in order
    served: seq<Served>,
    lastSequence: nat,
    mem: seq<Numbered>,
    log: seq<Record>,
    commit: Option<Commit>,
    failed: bool)               // a failed sync stops all later writes

  predicate Init(s: State) {
    s == State([], [], [], 0, [], [], None, false)
  }

  predicate Join(s: State, s': State, w: Writer) {
    s' == s.(queue := s.queue + [w], arrived := s.arrived + [w])
  }

  /** The front writer has no batch, or there is no room: it leaves alone. */
  predicate LeaveAlone(s: State, s': State, ok: bool) {
    && s.commit.None? && s.queue != [] && (s.queue[0].ops.Some? ==> !ok)
    && s' == s.(queue := s.queue[1..], served := s.served + [Served(s.queue[0], false, ok, false)])
  }

  predicate Begin(s: State, s': State, n: nat) {
    && s.commit.None? && !s.failed && 1 <= n <= |s.queue| && s.queue[0].ops.Some? && SyncSafe(s.queue, n)
    && s' == s.(commit := Some(Commit(n, s.lastSequence + 1, Concat(s.queue[..n]), Started)))
  }

  predicate LogStep(s: State, s': State, ok: bool) {
    && s.commit.Some? && s.commit.value.stage.Started?
    && var c := s.commit.value;
       if ok then s' == s.(log := s.log + [Record(c.first, c.group, false)], commit := Some(c.(stage := Logged)))
       else s' == s.(commit := Some(c.(stage := Failed)))
  }

  /** Syncing the file puts every record written so far on disk. */
  function MarkSynced(log: seq<Record>): (r: seq<Record>)
    ensures |r| == |log| && forall i :: 0 <= i < |log| ==> r[i] == log[i].(synced := true)
  {
    seq(|log|, i requires 0 <= i < |log| => log[i].(synced := true))
  }

  /** A leader that syncs waits for the log to be on disk. */
  predicate SyncStep(s: State, s': State, ok: bool) {
    && s.commit.Some? && s.commit.value.stage.Logged? && s.queue != [] && s.log != []
    && var c := s.commit.value;
       if !s.queue[0].sync then s' == s.(commit := Some(c.(stage := Synced)))
       else if ok then s' == s.(log := MarkSynced(s.log), commit := Some(c.(stage := Synced)))
       else s' == s.(commit := Some(c.(stage := Failed)), failed := true)
  }

  predicate InsertStep(s: State, s': State) {
    && s.commit.Some? && s.commit.value.stage.Synced?
    && var c := s.commit.value;
       s' == s.(mem := s.mem + Number(c.group, c.first), commit := Some(c.(stage := Inserted)))
  }

  /** The mutex is back: the sequence moves on and the group's writers are let go. */
  predicate End(s: State, s': State) {
    && s.commit.Some? && (s.commit.value.stage.Inserted? || s.commit.value.stage.Failed?)
    && var c := s.commit.value; var ok := c.stage.Inserted?;
       && c.n <= |s.queue| && s.queue != []
       && s' == s.(queue := s.queue[c.n..], lastSequence := s.lastSequence + |c.group|, commit := None,
                   served := s.served + ServeAll(s.queue[..c.n], true, ok, ok && s.queue[0].sync))
  }

  ghost predicate Next(s: State, s': State) {
    || (exists w :: Join(s, s', w))
    || (exists ok :: LeaveAlone(s, s', ok))
    || (exists n: nat :: Begin(s, s', n))
    || (exists ok :: LogStep(s, s', ok))
    || (exists ok :: SyncStep(s, s', ok))
    || InsertStep(s, s')
    || End(s, s')
  }

  /**
   * A group the queue allows can be committed: after the five steps without an
   * error its operations are in the log and in the memtable under the next
   * numbers, the log is on disk if the leader asks for that, and its writers are
   * let go.
   */
  lemma GroupCommits(s: State, n: nat) returns (run: seq<State>)
    requires s.commit.None? && !s.failed && 1 <= n <= |s.queue| && s.queue[0].ops.Some? && SyncSafe(s.queue, n)
    ensures |run| == 6 && run[0] == s && forall i, j :: 0 <= i && j == i + 1 < 6 ==> Next(run[i], run[j])
    ensures var last, ops, sync := run[5], Concat(s.queue[..n]), s.queue[0].sync;
              && last.queue == s.queue[n..] && last.served == s.served + ServeAll(s.queue[..n], true, true, sync)
              && last.mem == s.mem + Number(ops, s.lastSequence + 1)
              && last.lastSequence == s.lastSequence + |ops| && last.commit.None? && !last.failed
              && var log := s.log + [Record(s.lastSequence + 1, ops, false)];
                 last.log == if sync then MarkSynced(log) else log
  {
    hide Number, ServeAll, MarkSynced, Concat, SyncSafe;
    var c := Commit(n, s.lastSequence + 1, Concat(s.queue[..n]), Started);
    var s1 := s.(commit := Some(c));
    var s2 := s1.(log := s.log + [Record(c.first, c.group, false)], commit := Some(c.(stage := Logged)));
    var s3 := s2.(log := if s.queue[0].sync then MarkSynced(s2.log) else s2.log, commit := Some(c.(stage := Synced)));
    var s4 := s3.(mem := s.mem + Number(c.group, c.first), commit := Some(c.(stage := Inserted)));
    var s5 := s4.(queue := s.queue[n..], lastSequence := s.lastSequence + |c.group|, commit := None,
                  served := s.served + ServeAll(s.queue[..n], true, true, s.queue[0].sync));
    assert Begin(s, s1, n) && LogStep(s1, s2, true) && SyncStep(s2, s3, true) && InsertStep(s3, s4) && End(s4, s5);
    run := [s, s1, s2, s3, s4, s5];
  }

  function WritersOf(served: seq<Served>): (r: seq<Writer>)
    ensures |r| == |served| && forall i :: 0 <= i < |served| ==> r[i] == served[i].w
  {
    seq(|served|, i requires 0 <= i < |served| => served[i].w)
  }

  ghost predicate CommitOk(s: State)
    requires s.commit.Some?
  {
    var c := s.commit.value;
    && 1 <= c.n <= |s.queue| && SyncSafe(s.queue, c.n) && s.queue[0].ops.Some?
    && c.group == Concat(s.queue[..c.n]) && c.first == s.lastSequence + 1
    && (c.stage.Logged? || c.stage.Synced? || c.stage.Inserted? ==>
          s.log != [] && s.log[|s.log| - 1] == Record(c.first, c.group, s.queue[0].sync && !c.stage.Logged?))
  }

  /** The memtable that replaying log records gives. */
  function Replay(log: seq<Record>): seq<Numbered> {
    if log == [] then []
    else Replay(log[..|log| - 1]) + Number(log[|log| - 1].ops, log[|log| - 1].first)
  }

  /** The last record is logged and not inserted: not yet, or never, its sync having failed. */
  predicate LastNotInserted(s: State) {
    s.failed || (s.commit.Some? && (s.commit.value.stage.Logged? || s.commit.value.stage.Synced?))
  }

  /** The records whose batches are in the memtable. */
  function InsertedLog(s: State): seq<Record> {
    if LastNotInserted(s) && s.log != [] then s.log[..|s.log| - 1] else s.log
  }

  /** The first sequence number of the i-th writer served. */
  function FirstOf(served: seq<Served>, i: nat): nat
    requires i <= |served|
  {
    OneByOne(served[..i]).last + 1
  }

  /** Some record holds the operations under their numbers, on disk if `durable`. */
  ghost predicate InLog(log: seq<Record>, ops: seq<Op>, first: nat, durable: bool) {
    exists r, a: nat :: HoldsAt(log, r, a, ops, first) && (durable ==> log[r].synced)
  }

  ghost predicate HoldsAt(log: seq<Record>, r: int, a: nat, ops: seq<Op>, first: nat) {
    && 0 <= r < |log| && a + |ops| <= |log[r].ops|
    && log[r].ops[a..a + |ops|] == ops && log[r].first + a == first
  }

  /** Every successful writer's batch is in the log. */
  ghost predicate AllLogged(log: seq<Record>, served: seq<Served>) {
    forall i :: 0 <= i < |served| && served[i].attempted && served[i].ok ==>
                  InLog(log, OpsOf(served[i].w), FirstOf(served, i), served[i].durable)
  }

  /** Records reach the disk in order. */
  ghost predicate SyncedPrefix(log: seq<Record>) {
    forall q, r :: 0 <= q < r < |log| && log[r].synced ==> log[q].synced
  }

  ghost predicate LogOk(s: State) {
    && (LastNotInserted(s) ==> s.log != [])
    && (s.failed ==> s.commit.None? || s.commit.value.stage.Failed?)
    && s.mem == Replay(InsertedLog(s))
    && AllLogged(s.log, s.served)
    && SyncedPrefix(s.log)
  }

  /**
   * Writers leave in the order they came, the memtable and the sequence number
   * are those of the writers taken one by one, and a writer that asked for a sync
   * and succeeded got one.
   */
  ghost predicate QueueOk(s: State) {
    && s.arrived == WritersOf(s.served) + s.queue
    && s.lastSequence == OneByOne(s.served).last
    && s.mem == OneByOne(s.served).mem + InHand(s)
    && (s.commit.Some? ==> CommitOk(s))
    && SyncsKept(s.served)
  }

  /** What a running commit has inserted. */
  function InHand(s: State): seq<Numbered> {
    if s.commit.Some? && s.commit.value.stage.Inserted? then Number(s.commit.value.group, s.lastSequence + 1) else []
  }

  ghost predicate SyncsKept(served: seq<Served>) {
    forall i :: 0 <= i < |served| && served[i].attempted && served[i].ok && served[i].w.sync ==> served[i].durable
  }

  /** The queue is served one by one, and the memtable is the replay of the log. */
  ghost predicate Inv(s: State) {
    QueueOk(s) && LogOk(s)
  }

  lemma InitQueue(s: State)
    requires Init(s)
    ensures QueueOk(s)
  {
  }

  lemma JoinKeeps(s: State, s': State, w: Writer)
    requires QueueOk(s) && Join(s, s', w)
    ensures QueueOk(s')
  {
    hide Concat, OneByOne;
    if s.commit.Some? {
      var n := s.commit.value.n;
      assert s'.queue[..n] == s.queue[..n];
    }
  }

  lemma LeaveKeeps(s: State, s': State, ok: bool)
    requires QueueOk(s) && LeaveAlone(s, s', ok)
    ensures QueueOk(s')
  {
    hide Concat, OneByOne;
    var w := s.queue[0];
    NotAttempted(s.served, Served(w, false, ok, false));
  }

  lemma EndKeeps(s: State, s': State)
    requires QueueOk(s) && End(s, s')
    ensures QueueOk(s')
  {
    hide Concat, OneByOne, Number;
    var c := s.commit.value;
    var ok := c.stage.Inserted?;
    var durable := ok && s.queue[0].sync;
    GroupIsOneByOne(s.served, s.queue[..c.n], ok, durable);
    var more := ServeAll(s.queue[..c.n], true, ok, durable);
    forall i | 0 <= i < |s'.served| && s'.served[i].attempted && s'.served[i].ok && s'.served[i].w.sync
        ensures s'.served[i].durable {
      if i >= |s.served| { assert s'.served[i] == more[i - |s.served|]; }
    }
  }

  lemma NextKeepsQueue(s: State, s': State)
    requires QueueOk(s) && Next(s, s')
    ensures QueueOk(s')
  {
    if w :| Join(s, s', w) {
      JoinKeeps(s, s', w);
    } else if ok :| LeaveAlone(s, s', ok) {
      LeaveKeeps(s, s', ok);
    } else if End(s, s') {
      EndKeeps(s, s');
    } else {
      CommitSteps(s, s');
    }
  }

  lemma CommitSteps(s: State, s': State)
    requires QueueOk(s)
    requires (exists n: nat :: Begin(s, s', n)) || (exists ok :: LogStep(s, s', ok))
               || (exists ok :: SyncStep(s, s', ok)) || InsertStep(s, s')
    ensures QueueOk(s')
  {
    hide Concat, OneByOne, Number;
  }

  // ---- The log ----

  lemma InitInv(s: State)
    requires Init(s)
    ensures Inv(s)
  {
    InitQueue(s);
  }

  lemma ReplayOne(log: seq<Record>, rec: Record)
    ensures Replay(log + [rec]) == Replay(log) + Number(rec.ops, rec.first)
  {
    assert (log + [rec])[..|log|] == log;
  }

  /** Replaying does not depend on what has been synced. */
  lemma {:induction false} ReplayMarked(log: seq<Record>)
    ensures Replay(MarkSynced(log)) == Replay(log)
  {
    if log == [] {
    } else {
      var n := |log| - 1;
      assert MarkSynced(log)[..n] == MarkSynced(log[..n]);
      ReplayMarked(log[..n]);
    }
  }

  /** Later logs keep every record, and only mark more of them. */
  ghost predicate Extends(log: seq<Record>, more: seq<Record>) {
    && |log| <= |more|
    && forall r :: 0 <= r < |log| ==>
        more[r].first == log[r].first && more[r].ops == log[r].ops && (log[r].synced ==> more[r].synced)
  }

  lemma InLogKept(log: seq<Record>, more: seq<Record>, ops: seq<Op>, first: nat, durable: bool)
    requires InLog(log, ops, first, durable) && Extends(log, more)
    ensures InLog(more, ops, first, durable)
  {
    var r, a: nat :| HoldsAt(log, r, a, ops, first) && (durable ==> log[r].synced);
    assert HoldsAt(more, r, a, ops, first);
  }

  lemma AllLoggedKept(log: seq<Record>, more: seq<Record>, served: seq<Served>)
    requires AllLogged(log, served) && Extends(log, more)
    ensures AllLogged(more, served)
  {
    hide InLog, Extends, FirstOf;
    forall i | 0 <= i < |served| && served[i].attempted && served[i].ok
      ensures InLog(more, OpsOf(served[i].w), FirstOf(served, i), served[i].durable)
    {
      InLogKept(log, more, OpsOf(served[i].w), FirstOf(served, i), served[i].durable);
    }
  }

  /** Writers served later leave the numbers of earlier ones alone. */
  lemma AllLoggedMore(log: seq<Record>, served: seq<Served>, more: seq<Served>)
    requires AllLogged(log, served)
    requires forall i :: 0 <= i < |more| && more[i].attempted && more[i].ok ==>
                           InLog(log, OpsOf(more[i].w), FirstOf(served + more, |served| + i), more[i].durable)
    ensures AllLogged(log, served + more)
  {
    hide InLog, OneByOne;
    var all := served + more;
    forall i | 0 <= i < |all| && all[i].attempted && all[i].ok
      ensures InLog(log, OpsOf(all[i].w), FirstOf(all, i), all[i].durable)
    {
      if i < |served| {
        assert all[..i] == served[..i];
      } else {
        assert all[i] == more[i - |served|];
      }
    }
  }

  lemma JoinLogs(s: State, s': State, w: Writer)
    requires LogOk(s) && Join(s, s', w)
    ensures LogOk(s')
  {
    hide AllLogged, Replay;
  }

  lemma LeaveLogs(s: State, s': State, ok: bool)
    requires LogOk(s) && LeaveAlone(s, s', ok)
    ensures LogOk(s')
  {
    hide InLog, Replay, SyncedPrefix, FirstOf;
    AllLoggedMore(s.log, s.served, [Served(s.queue[0], false, ok, false)]);
  }

  lemma LogStepLogs(s: State, s': State, ok: bool)
    requires LogOk(s) && LogStep(s, s', ok)
    ensures LogOk(s')
  {
    hide AllLogged, Replay;
    AllLoggedKept(s.log, s'.log, s.served);
  }

  lemma SyncStepLogs(s: State, s': State, ok: bool)
    requires LogOk(s) && SyncStep(s, s', ok)
    ensures LogOk(s')
  {
    hide AllLogged, Replay;
    AllLoggedKept(s.log, s'.log, s.served);
    var n := |s.log| - 1;
    assert MarkSynced(s.log)[..n] == MarkSynced(s.log[..n]);
    ReplayMarked(s.log[..n]);
  }

  lemma InsertStepLogs(s: State, s': State)
    requires QueueOk(s) && LogOk(s) && InsertStep(s, s')
    ensures LogOk(s')
  {
    hide AllLogged, Replay, OneByOne, Concat, Number;
    var n := |s.log| - 1;
    assert s.log == s.log[..n] + [s.log[n]];
    ReplayOne(s.log[..n], s.log[n]);
  }

  /** Where a writer's operations lie in its group's. */
  lemma {:induction false} ConcatAt(ws: seq<Writer>, k: nat)
    requires k < |ws|
    ensures var a, ops := |Concat(ws[..k])|, OpsOf(ws[k]);
              a + |ops| <= |Concat(ws)| && Concat(ws)[a..a + |ops|] == ops
  {
    hide OpsOf;
    var n := |ws| - 1;
    assert Concat(ws) == Concat(ws[..n]) + OpsOf(ws[n]);
    if k < n {
      ConcatAt(ws[..n], k);
      assert ws[..n][..k] == ws[..k];
    } else {
      assert ws[..k] == ws[..n];
    }
  }

  lemma EndLogs(s: State, s': State)
    requires QueueOk(s) && LogOk(s) && End(s, s')
    ensures LogOk(s')
  {
    hide InLog, Replay, Number, OneByOne, Concat, FirstOf, SyncedPrefix, ServeAll;
    var c := s.commit.value;
    var ok := c.stage.Inserted?;
    var durable := ok && s.queue[0].sync;
    var ws := s.queue[..c.n];
    var more := ServeAll(ws, true, ok, durable);
    forall i | 0 <= i < |more| && more[i].attempted && more[i].ok
      ensures InLog(s.log, OpsOf(more[i].w), FirstOf(s.served + more, |s.served| + i), more[i].durable)
    {
      MemberLogged(s, ws, durable, i);
    }
    AllLoggedMore(s.log, s.served, more);
  }

  lemma MemberLogged(s: State, ws: seq<Writer>, durable: bool, k: nat)
    requires QueueOk(s) && s.commit.Some? && s.commit.value.stage.Inserted? && ws == s.queue[..s.commit.value.n]
               && k < |ws|
    requires durable == s.queue[0].sync
    ensures InLog(s.log, OpsOf(ws[k]), FirstOf(s.served + ServeAll(ws, true, true, durable), |s.served| + k), durable)
  {
    hide Number, OneByOne, Concat, SyncSafe, SyncsKept, ServeAll;
    var all := s.served + ServeAll(ws, true, true, durable);
    assert all[..|s.served| + k] == s.served + ServeAll(ws[..k], true, true, durable);
    GroupIsOneByOne(s.served, ws[..k], true, durable);
    ConcatAt(ws, k);
    assert HoldsAt(s.log, |s.log| - 1, |Concat(ws[..k])|, OpsOf(ws[k]), FirstOf(all, |s.served| + k));
  }

  lemma NextKeepsLog(s: State, s': State)
    requires QueueOk(s) && LogOk(s) && Next(s, s')
    ensures LogOk(s')
  {
    hide QueueOk, LogOk, Join, LeaveAlone, LogStep, SyncStep, InsertStep, End;
    if w :| Join(s, s', w) {
      JoinLogs(s, s', w);
    } else if ok :| LeaveAlone(s, s', ok) {
      LeaveLogs(s, s', ok);
    } else if ok :| LogStep(s, s', ok) {
      LogStepLogs(s, s', ok);
    } else if ok :| SyncStep(s, s', ok) {
      SyncStepLogs(s, s', ok);
    } else if InsertStep(s, s') {
      InsertStepLogs(s, s');
    } else if End(s, s') {
      EndLogs(s, s');
    } else {
      BeginLogs(s, s');
    }
  }

  lemma BeginLogs(s: State, s': State)
    requires LogOk(s) && exists n: nat :: Begin(s, s', n)
    ensures LogOk(s')
  {
    hide AllLogged, Replay, Concat;
  }

  lemma NextKeepsInv(s: State, s': State)
    requires Inv(s) && Next(s, s')
    ensures Inv(s')
  {
    hide QueueOk, LogOk, Next;
    NextKeepsQueue(s, s');
    NextKeepsLog(s, s');
  }

  /** A crash keeps the first `k` records, among them all that were synced. */
  ghost predicate Survive(log: seq<Record>, k: nat) {
    k <= |log| && forall r :: 0 <= r < |log| && log[r].synced ==> r < k
  }

  lemma {:induction false} ReplayHas(log: seq<Record>, r: nat, x: nat)
    requires r < |log| && x < |log[r].ops|
    ensures Numbered(log[r].first + x, log[r].ops[x]) in Replay(log)
  {
    hide Number;
    var n := |log| - 1;
    if r < n {
      ReplayHas(log[..n], r, x);
    } else {
      NumberIs(log[r].ops, log[r].first);
      assert Number(log[r].ops, log[r].first)[x] == Numbered(log[r].first + x, log[r].ops[x]);
    }
  }

  /** Whatever a crash leaves of the log, recovery sees every operation of a durable writer under its number. */
  lemma DurableSurvives(s: State, k: nat, i: nat, x: nat)
    requires Inv(s) && Survive(s.log, k) && i < |s.served| && s.served[i].ok && s.served[i].attempted
               && s.served[i].durable
    requires x < |OpsOf(s.served[i].w)|
    ensures Numbered(FirstOf(s.served, i) + x, OpsOf(s.served[i].w)[x]) in Replay(s.log[..k])
  {
    hide QueueOk, LogOk, Replay, FirstOf, InLog, OpsOf;
    DurableIsLogged(s, i);
    LoggedIsReplayed(s.log, k, OpsOf(s.served[i].w), FirstOf(s.served, i), x);
  }

  lemma DurableIsLogged(s: State, i: nat)
    requires LogOk(s) && i < |s.served| && s.served[i].ok && s.served[i].attempted && s.served[i].durable
    ensures InLog(s.log, OpsOf(s.served[i].w), FirstOf(s.served, i), true)
  {
    hide InLog, Replay, FirstOf, SyncedPrefix, OpsOf;
  }

  /** Operations in a synced record are replayed from whatever survives. */
  lemma LoggedIsReplayed(log: seq<Record>, k: nat, ops: seq<Op>, first: nat, x: nat)
    requires InLog(log, ops, first, true) && Survive(log, k) && x < |ops|
    ensures Numbered(first + x, ops[x]) in Replay(log[..k])
  {
    hide Replay;
    var r, a: nat :| HoldsAt(log, r, a, ops, first) && log[r].synced;
    assert log[..k][r] == log[r];
    assert log[r].ops[a + x] == ops[x];
    ReplayHas(log[..k], r, a + x);
  }

  ghost predicate Run(run: seq<State>) {
    run != [] && Init(run[0]) && forall i, j :: 0 <= i && j == i + 1 < |run| ==> Next(run[i], run[j])
  }

  /** In every run, group commit is the writers one by one in the order they joined. */
  lemma {:induction false} RunIsOneByOne(run: seq<State>, i: nat)
    requires Run(run) && i < |run|
    ensures Inv(run[i])
  {
    hide Inv, Next, Init;
    if i == 0 {
      InitInv(run[0]);
    } else {
      RunIsOneByOne(run, i - 1);
      NextKeepsInv(run[i - 1], run[i]);
    }
  }

  /** Successful writers get adjacent, disjoint ranges of sequence numbers, in order. */
  lemma {:induction false} RangesFollow(served: seq<Served>, x: nat, y: nat)
    requires x < y < |OneByOne(served).mem|
    ensures OneByOne(served).mem[x].sequence < OneByOne(served).mem[y].sequence <= OneByOne(served).last
    decreases |served|
  {
    hide Number;
    var n := |served| - 1;
    var before, s := OneByOne(served[..n]), served[n];
    NumberIs(OpsOf(s.w), before.last + 1);
    if y < |before.mem| {
      RangesFollow(served[..n], x, y);
    } else if x < |before.mem| {
      UpToLast(served[..n], x);
    }
  }

  lemma NumberIs(ops: seq<Op>, first: nat)
    ensures forall i :: 0 <= i < |ops| ==> Number(ops, first)[i] == Numbered(first + i, ops[i])
  {
  }

  lemma {:induction false} UpToLast(served: seq<Served>, x: nat)
    requires x < |OneByOne(served).mem|
    ensures OneByOne(served).mem[x].sequence <= OneByOne(served).last
    decreases |served|
  {
    hide Number;
    var n := |served| - 1;
    var before, s := OneByOne(served[..n]), served[n];
    NumberIs(OpsOf(s.w), before.last + 1);
    if x >= |before.mem| {
    } else {
      UpToLast(served[..n], x);
    }
  }
}
