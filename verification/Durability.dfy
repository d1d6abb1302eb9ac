/**
 * What a crash leaves of the database: log files cut at any byte past their
 * synced records, a manifest with or without the record being written, and the
 * recovery that puts them together (MakeRoomForWrite, CompactMemTable, Recover
 * and DeleteObsoleteFiles in db/db_impl.cc; LogAndApply in db/version_set.cc).
 */
module Durability {
  import opened DbFormat
  import opened Coding
  import opened Version
  import opened Builder
  import opened Bytewise
  import Log
  import M = Manifest
  import G = GroupCommit
  import R = Recovery

  // ---- Entries of log records and of manifest records ----

  function EntryOf(x: G.Numbered): Entry {
    if x.op.value.Some? then Entry(InternalKey(Rank(x.op.key), x.sequence, Value), x.op.value.value)
    else Entry(InternalKey(Rank(x.op.key), x.sequence, Deletion), [])
  }

  ghost function Entries(xs: seq<G.Numbered>): set<Entry> {
    set x | x in xs :: EntryOf(x)
  }

  ghost function LogRows(records: seq<G.Record>): set<Entry> {
    set r, x | 0 <= r < |records| && x in G.Number(records[r].ops, records[r].first) :: EntryOf(x)
  }

  ghost function SyncedRows(records: seq<G.Record>): set<Entry> {
    set r, x | 0 <= r < |records| && records[r].synced && x in G.Number(records[r].ops, records[r].first) :: EntryOf(x)
  }

  lemma {:induction false} ReplayRows(records: seq<G.Record>)
    ensures Entries(G.Replay(records)) == LogRows(records)
  {
    hide G.Number;
    if records == [] {
    } else {
      var n := |records| - 1;
      ReplayRows(records[..n]);
      OneMoreRecord(records[..n], records[n]);
      assert records[..n] + [records[n]] == records;
    }
  }

  lemma OneMoreRecord(records: seq<G.Record>, r: G.Record)
    ensures LogRows(records + [r]) == LogRows(records) + Entries(G.Number(r.ops, r.first))
  {
    hide G.Number;
    var more := records + [r];
    forall e | e in LogRows(records) ensures e in LogRows(more) {
      var i, x :| 0 <= i < |records| && x in G.Number(records[i].ops, records[i].first) && e == EntryOf(x);
      assert more[i] == records[i];
    }
    forall e | e in Entries(G.Number(r.ops, r.first)) ensures e in LogRows(more) {
      assert more[|records|] == r;
    }
  }

  /** The entries of the tables the records leave in the version. */
  ghost function RowsAt(records: seq<M.Record>): set<Entry> {
    set l, f, e | 0 <= l < NUM_LEVELS && f in M.Replay(records, l) && e in f.rows :: e
  }

  /** The record may follow the others in the manifest. */
  ghost predicate Follows(records: seq<M.Record>, r: M.Record) {
    && EditOk(r.edit, NUM_LEVELS) && (r.prevLogNumber == None || r.prevLogNumber == Some(0))
    && forall l :: 0 <= l < NUM_LEVELS ==> M.AddsFresh(M.Known(records, l), r.edit, l)
  }

  /** CompactMemTable's record: a table of the memtable's entries, and no log before `number` is needed. */
  ghost predicate FlushRecord(records: seq<M.Record>, rows: set<Entry>, number: nat, r: M.Record) {
    && Follows(records, r) && r.logNumber == Some(number) && r.edit.deleted == []
    && if rows == {} then r.edit.added == [] else |r.edit.added| == 1 && RowSet(r.edit.added[0].1.rows) == rows
  }

  lemma FlushAdds(records: seq<M.Record>, rows: set<Entry>, number: nat, r: M.Record)
    requires FlushRecord(records, rows, number, r)
    ensures RowsAt(records + [r]) == RowsAt(records) + rows
  {
    hide M.Replay, M.Known, M.AddsFresh;
    forall l | 0 <= l < NUM_LEVELS
      ensures M.Replay(records + [r], l) == M.Replay(records, l) + AddedAt(r.edit, l)
    {
      M.ReplayAppend(records, r, l);
      assert DeletedAt(r.edit, l) == {};
    }
    if rows != {} {
      var (level, f) := r.edit.added[0];
      assert AddedAt(r.edit, level) == {f};
      assert forall l :: l != level ==> AddedAt(r.edit, l) == {};
      assert f in M.Replay(records + [r], level);
    }
  }

  /** A compaction's record: no lookup at a live read point changes, and no log number. */
  ghost predicate CompactRecord(records: seq<M.Record>, floor: nat, r: M.Record) {
    && Follows(records, r) && r.logNumber == M.LastSet(records, M.LOG)
    && RowsAt(records + [r]) <= RowsAt(records)
    && SameAnswers(RowsAt(records + [r]), RowsAt(records), floor)
  }

  // ---- The database on disk ----

  /** A log file; `after` is the last sequence number when it was begun. */
  datatype LogFile = LogFile(number: nat, after: nat, records: seq<G.Record>)

  /** A manifest record written and not known to be on disk. */
  datatype Pending = Nothing | Flushing(r: M.Record) | Compacting(r: M.Record)

  datatype State = State(
    logs: seq<LogFile>,         // those not deleted; the last one is written to
    imm: bool,                  // the log before it belongs to an immutable memtable
    last: nat,                  // last sequence number
    floor: nat,                 // oldest live read point
    records: seq<M.Record>,     // of the manifest, on disk
    pending: Pending,
    flushed: set<Entry>,        // all that went into installed tables
    durable: set<Entry>,        // what was in them at first, and all that was synced
    written: set<Entry>,        // all that was there at first or logged
    base: set<Entry>,           // what the tables held at first
    start: nat,                 // the last sequence number then
    ops: set<G.Numbered>,       // every operation logged since, under its number
    synced: set<G.Numbered>)    // those that a sync put on disk

  /** An open database: a manifest, and a log with nothing in it yet. */
  ghost predicate Init(s: State) {
    && |s.logs| == 1 && s.logs[0].number > 0 && s.logs[0].records == [] && s.logs[0].after == s.last && !s.imm
    && M.Replayable(s.records) && M.Or(M.LastSet(s.records, M.PREV), 0) == 0
    && M.LastSet(s.records, M.LOG).Some? && M.LastSet(s.records, M.LOG).value <= s.logs[0].number
    && s.pending.Nothing? && s.flushed == s.durable == s.written == RowsAt(s.records)
    && s.base == s.flushed && s.start == s.last && s.ops == s.synced == {}
    && forall e :: e in s.flushed ==> e.ikey.sequence <= s.last
  }

  /** The operations of log records: the i-th of a record has the i-th number after its first. */
  ghost function OpsIn(records: seq<G.Record>): set<G.Numbered> {
    set r, i | 0 <= r < |records| && 0 <= i < |records[r].ops| :: G.Numbered(records[r].first + i, records[r].ops[i])
  }

  function Current(s: State): LogFile
    requires s.logs != []
  {
    s.logs[|s.logs| - 1]
  }

  function WithCurrent(s: State, records: seq<G.Record>): seq<LogFile>
    requires s.logs != []
  {
    s.logs[|s.logs| - 1 := Current(s).(records := records)]
  }

  /** A batch is logged with the numbers after the last. */
  ghost predicate Append(s: State, s': State, r: G.Record) {
    && s.logs != [] && s.last < r.first && !r.synced
    && s' == s.(logs := WithCurrent(s, Current(s).records + [r]), last := r.first + |r.ops| - 1,
                written := s.written + Entries(G.Number(r.ops, r.first)), ops := s.ops + OpsIn([r]))
  }

  ghost predicate Sync(s: State, s': State) {
    && s.logs != []
    && s' == s.(logs := WithCurrent(s, G.MarkSynced(Current(s).records)),
                durable := s.durable + LogRows(Current(s).records), synced := s.synced + OpsIn(Current(s).records))
  }

  /** MakeRoomForWrite: a new log, and the memtable becomes immutable. */
  ghost predicate Switch(s: State, s': State, number: nat) {
    && s.logs != [] && !s.imm && Current(s).number < number
    && s' == s.(logs := s.logs + [LogFile(number, s.last, [])], imm := true)
  }

  ghost predicate WriteFlush(s: State, s': State, r: M.Record) {
    && s.imm && |s.logs| >= 2 && s.pending.Nothing?
    && FlushRecord(s.records, LogRows(s.logs[|s.logs| - 2].records), Current(s).number, r)
    && s' == s.(pending := Flushing(r))
  }

  ghost predicate WriteCompaction(s: State, s': State, r: M.Record) {
    && s.pending.Nothing? && CompactRecord(s.records, s.floor, r)
    && s' == s.(pending := Compacting(r))
  }

  /** The record is synced and its version installed. */
  ghost predicate Installed(s: State, s': State) {
    match s.pending
    case Nothing => false
    case Compacting(r) => s' == s.(records := s.records + [r], pending := Nothing)
    case Flushing(r) =>
      && |s.logs| >= 2
      && s' == s.(records := s.records + [r], pending := Nothing, imm := false,
                  flushed := s.flushed + LogRows(s.logs[|s.logs| - 2].records))
  }

  /** DeleteObsoleteFiles: logs before the installed log number go. */
  ghost predicate Delete(s: State, s': State, k: nat) {
    && k <= |s.logs| && M.LastSet(s.records, M.LOG).Some?
    && (forall i :: 0 <= i < k ==> s.logs[i].number < M.LastSet(s.records, M.LOG).value)
    && s' == s.(logs := s.logs[k..])
  }

  ghost predicate Raise(s: State, s': State, floor: nat) {
    s.floor <= floor && s' == s.(floor := floor)
  }

  ghost predicate Next(s: State, s': State) {
    || (exists r :: Append(s, s', r))
    || Sync(s, s')
    || (exists number: nat :: Switch(s, s', number))
    || (exists r :: WriteFlush(s, s', r))
    || (exists r :: WriteCompaction(s, s', r))
    || Installed(s, s')
    || (exists k: nat :: Delete(s, s', k))
    || (exists floor: nat :: Raise(s, s', floor))
  }

  // ---- The invariant ----

  /** The first log whose operations are not in the tables. */
  function Live(logs: seq<LogFile>, imm: bool): int {
    if imm then |logs| - 2 else |logs| - 1
  }

  /** The manifest's log number lies between the logs that are done with and those that are not. */
  ghost predicate NumbersOk(logs: seq<LogFile>, imm: bool, number: Option<nat>) {
    && 0 <= Live(logs, imm) && number.Some?
    && (forall i :: 0 <= i < |logs| ==> logs[i].number > 0)
    && (forall i, j :: 0 <= i < j < |logs| ==> logs[i].number < logs[j].number)
    && (forall i :: 0 <= i < Live(logs, imm) ==> logs[i].number < number.value)
    && number.value <= logs[Live(logs, imm)].number
  }

  /** Entries of a log lie after its start and before the next one's. */
  ghost predicate Spaced(logs: seq<LogFile>, last: nat) {
    && (forall i, j :: 0 <= i < j < |logs| ==> logs[i].after <= logs[j].after)
    && (forall i :: 0 <= i < |logs| ==> logs[i].after <= last)
    && (forall i, e :: 0 <= i < |logs| && e in LogRows(logs[i].records) ==> logs[i].after < e.ikey.sequence <= last)
    && (forall i, j, e :: 0 <= i < j < |logs| && e in LogRows(logs[i].records) ==> e.ikey.sequence <= logs[j].after)
  }

  ghost predicate UpTo(rows: set<Entry>, last: nat) {
    forall e :: e in rows ==> e.ikey.sequence <= last
  }

  ghost predicate TablesOk(records: seq<M.Record>, flushed: set<Entry>, floor: nat) {
    && M.Replayable(records) && M.Or(M.LastSet(records, M.PREV), 0) == 0
    && RowsAt(records) <= flushed && SameAnswers(RowsAt(records), flushed, floor)
  }

  /** Durable entries are in the tables, or synced in a log from `live` on. */
  ghost predicate Kept(logs: seq<LogFile>, live: int, flushed: set<Entry>, durable: set<Entry>) {
    forall e :: e in durable ==>
      e in flushed || exists i :: 0 <= live <= i < |logs| && e in SyncedRows(logs[i].records)
  }

  ghost predicate AllWritten(logs: seq<LogFile>, written: set<Entry>) {
    forall i :: 0 <= i < |logs| ==> LogRows(logs[i].records) <= written
  }

  /** Entries are those of the operations, which have numbers of their own after those of the first tables. */
  ghost predicate OpsOk(s: State) {
    && s.start <= s.last && s.base <= s.flushed && (forall e :: e in s.base ==> e.ikey.sequence <= s.start)
    && (forall x :: x in s.ops ==> s.start < x.sequence <= s.last)
    && (forall x, y :: x in s.ops && y in s.ops && x.sequence == y.sequence ==> x == y)
    && (forall e :: e in s.written ==> e in s.base || exists x :: x in s.ops && e == EntryOf(x))
    && s.synced <= s.ops && (forall x :: x in s.synced ==> EntryOf(x) in s.durable)
  }

  /** The records of the log written to hold operations only, and all of them are counted. */
  ghost predicate CurrentLogged(s: State)
    requires s.logs != []
  {
    OpsIn(Current(s).records) <= s.ops
  }

  ghost predicate PendingOk(s: State) {
    match s.pending
    case Nothing => true
    case Compacting(r) => CompactRecord(s.records, s.floor, r)
    case Flushing(r) =>
      s.imm && |s.logs| >= 2 && FlushRecord(s.records, LogRows(s.logs[|s.logs| - 2].records), Current(s).number, r)
  }

  ghost predicate Inv(s: State) {
    && NumbersOk(s.logs, s.imm, M.LastSet(s.records, M.LOG)) && Spaced(s.logs, s.last)
    && 0 <= Live(s.logs, s.imm) && UpTo(s.flushed, s.logs[Live(s.logs, s.imm)].after)
    && TablesOk(s.records, s.flushed, s.floor)
    && Kept(s.logs, Live(s.logs, s.imm), s.flushed, s.durable)
    && s.flushed <= s.written && AllWritten(s.logs, s.written)
    && PendingOk(s) && OpsOk(s) && CurrentLogged(s)
  }

  lemma InitInv(s: State)
    requires Init(s)
    ensures Inv(s)
  {
    hide M.Replayable, M.LastSet, RowsAt, Answers;
    assert LogRows([]) == {};
  }

  // ---- Every step keeps it ----

  /** Where some entries are newer than all others, they decide alone. */
  lemma OnTop(a: set<Entry>, m: set<Entry>, k: UserKey, snapshot: nat, r: Option<Bytes>)
    requires forall x, y :: x in m && y in a ==> x.ikey.sequence > y.ikey.sequence
    ensures NoneVisible(m, k, snapshot) ==> (Answers(a + m, k, snapshot, r) <==> Answers(a, k, snapshot, r))
    ensures !NoneVisible(m, k, snapshot) ==> (Answers(a + m, k, snapshot, r) <==> Answers(m, k, snapshot, r))
  {
    forall e ensures NoneVisible(m, k, snapshot) ==>
        (IsNewest(a + m, k, snapshot, e) <==> IsNewest(a, k, snapshot, e)) {}
    forall e
      ensures !NoneVisible(m, k, snapshot) ==> (IsNewest(a + m, k, snapshot, e) <==> IsNewest(m, k, snapshot, e))
    {
      if x :| x in m && Visible(x, k, snapshot) {
        assert IsNewest(a + m, k, snapshot, e) ==> e in m;
      }
    }
  }

  /** Sets that answer alike do so with newer entries on top. */
  lemma NewerOnTop(a: set<Entry>, b: set<Entry>, m: set<Entry>, floor: nat)
    requires SameAnswers(a, b, floor)
    requires forall x, y :: x in m && y in a + b ==> x.ikey.sequence > y.ikey.sequence
    ensures SameAnswers(a + m, b + m, floor)
  {
    hide Answers, NoneVisible;
    forall k, snapshot, r | floor <= snapshot
      ensures Answers(a + m, k, snapshot, r) <==> Answers(b + m, k, snapshot, r)
    {
      OnTop(a, m, k, snapshot, r);
      OnTop(b, m, k, snapshot, r);
    }
  }

  lemma NumberedRows(r: G.Record, e: Entry)
    requires e in Entries(G.Number(r.ops, r.first))
    ensures r.first <= e.ikey.sequence < r.first + |r.ops|
  {
  }

  lemma SyncedGrows(records: seq<G.Record>, r: G.Record)
    ensures SyncedRows(records) <= SyncedRows(records + [r])
  {
    hide G.Number;
    var more := records + [r];
    forall e | e in SyncedRows(records) ensures e in SyncedRows(more) {
      var i, x :| 0 <= i < |records| && records[i].synced && x in G.Number(records[i].ops, records[i].first)
                  && e == EntryOf(x);
      assert more[i] == records[i];
    }
  }

  lemma MarkedRows(records: seq<G.Record>)
    ensures LogRows(G.MarkSynced(records)) == LogRows(records)
    ensures SyncedRows(G.MarkSynced(records)) == LogRows(records) && SyncedRows(records) <= LogRows(records)
  {
    hide G.Number;
    var marked := G.MarkSynced(records);
    forall e | e in LogRows(records) ensures e in SyncedRows(marked) {
      var i, x :| 0 <= i < |records| && x in G.Number(records[i].ops, records[i].first) && e == EntryOf(x);
      assert marked[i].synced && x in G.Number(marked[i].ops, marked[i].first);
    }
    forall e | e in LogRows(marked) ensures e in LogRows(records) {
      var i, x :| 0 <= i < |marked| && x in G.Number(marked[i].ops, marked[i].first) && e == EntryOf(x);
      assert x in G.Number(records[i].ops, records[i].first);
    }
  }

  /** The numbered operations and the entries of log records are the same. */
  lemma OpsAreRows(records: seq<G.Record>)
    ensures forall x :: x in OpsIn(records) ==> EntryOf(x) in LogRows(records)
    ensures forall e :: e in LogRows(records) ==> exists x :: x in OpsIn(records) && e == EntryOf(x)
  {
    forall x | x in OpsIn(records) ensures EntryOf(x) in LogRows(records) {
      var r, i :| 0 <= r < |records| && 0 <= i < |records[r].ops|
                  && x == G.Numbered(records[r].first + i, records[r].ops[i]);
      assert G.Number(records[r].ops, records[r].first)[i] == x;
    }
    forall e | e in LogRows(records) ensures exists x :: x in OpsIn(records) && e == EntryOf(x) {
      var r, x :| 0 <= r < |records| && x in G.Number(records[r].ops, records[r].first) && e == EntryOf(x);
      var i :| 0 <= i < |records[r].ops| && G.Number(records[r].ops, records[r].first)[i] == x;
      assert x == G.Numbered(records[r].first + i, records[r].ops[i]);
    }
  }

  lemma OpsInMore(records: seq<G.Record>, r: G.Record)
    ensures OpsIn(records + [r]) == OpsIn(records) + OpsIn([r])
    ensures OpsIn(G.MarkSynced(records)) == OpsIn(records)
  {
    var more, marked := records + [r], G.MarkSynced(records);
    assert [r][0] == r && more[|records|] == r;
    forall x | x in OpsIn(records) ensures x in OpsIn(more) && x in OpsIn(marked) {
      var q, i :| 0 <= q < |records| && 0 <= i < |records[q].ops|
                  && x == G.Numbered(records[q].first + i, records[q].ops[i]);
      assert more[q] == records[q] && marked[q].ops == records[q].ops;
    }
    forall x | x in OpsIn([r]) ensures x in OpsIn(more) {
      var i :| 0 <= i < |r.ops| && x == G.Numbered(r.first + i, r.ops[i]);
      assert more[|records|].ops[i] == r.ops[i];
    }
    forall x | x in OpsIn(more) ensures x in OpsIn(records) + OpsIn([r]) {
      var q, i :| 0 <= q < |more| && 0 <= i < |more[q].ops| && x == G.Numbered(more[q].first + i, more[q].ops[i]);
      assert q < |records| ==> more[q] == records[q];
    }
    forall x | x in OpsIn(marked) ensures x in OpsIn(records) {
      var q, i :| 0 <= q < |marked| && 0 <= i < |marked[q].ops|
          && x == G.Numbered(marked[q].first + i, marked[q].ops[i]);
      assert marked[q].ops == records[q].ops && marked[q].first == records[q].first;
    }
  }

  lemma AppendOps(s: State, s': State, r: G.Record)
    requires s.logs != [] && OpsOk(s) && CurrentLogged(s) && Append(s, s', r)
    ensures OpsOk(s') && CurrentLogged(s')
  {
    hide LogRows, OpsIn, EntryOf, Entries, G.Number;
    OpsInMore(Current(s).records, r);
    OpsAreRows([r]);
    OneRecordRows(r);
    forall x | x in OpsIn([r]) ensures s.last < x.sequence <= s'.last {
      OpsNumbers(r, x, x);
    }
    forall x, y | x in OpsIn([r]) && y in OpsIn([r]) && x.sequence == y.sequence ensures x == y {
      OpsNumbers(r, x, y);
    }
  }

  lemma OpsNumbers(r: G.Record, x: G.Numbered, y: G.Numbered)
    requires x in OpsIn([r]) && y in OpsIn([r])
    ensures r.first <= x.sequence < r.first + |r.ops| && (x.sequence == y.sequence ==> x == y)
  {
  }

  lemma OneRecordRows(r: G.Record)
    ensures LogRows([r]) == Entries(G.Number(r.ops, r.first))
  {
    hide G.Number;
    OneMoreRecord([], r);
    assert [] + [r] == [r] && LogRows([]) == {};
  }

  lemma SyncOps(s: State, s': State)
    requires s.logs != [] && OpsOk(s) && CurrentLogged(s) && Sync(s, s')
    ensures OpsOk(s') && CurrentLogged(s')
  {
    hide LogRows, OpsIn, EntryOf;
    OpsInMore(Current(s).records, G.Record(0, [], false));
    OpsAreRows(Current(s).records);
  }

  /** Entries added at the end of the last log. */
  lemma AppendSpaced(s: State, s': State, r: G.Record)
    requires s.logs != [] && Spaced(s.logs, s.last) && Append(s, s', r)
    ensures Spaced(s'.logs, s'.last)
  {
    hide LogRows, G.Number, Entries;
    var n := |s.logs| - 1;
    OneMoreRecord(Current(s).records, r);
    forall e | e in Entries(G.Number(r.ops, r.first)) ensures s.last < e.ikey.sequence <= s'.last {
      NumberedRows(r, e);
    }
    forall i | 0 <= i < n ensures s'.logs[i] == s.logs[i] {}
  }

  /** More records, or more of them synced, in the last log. */
  lemma CurrentGrows(s: State, records: seq<G.Record>)
    requires Inv(s) && SyncedRows(Current(s).records) <= SyncedRows(records)
    ensures var logs := WithCurrent(s, records);
              && NumbersOk(logs, s.imm, M.LastSet(s.records, M.LOG))
              && logs[Live(logs, s.imm)].after == s.logs[Live(s.logs, s.imm)].after
              && Kept(logs, Live(logs, s.imm), s.flushed, s.durable + SyncedRows(records))
              && PendingOk(s.(logs := logs))
  {
    hide LogRows, SyncedRows, M.LastSet, TablesOk, Spaced, AllWritten, FlushRecord, CompactRecord;
    var n, logs := |s.logs| - 1, WithCurrent(s, records);
    forall i | 0 <= i < n ensures logs[i] == s.logs[i] {}
    forall e | e in s.durable && e !in s.flushed
      ensures exists i :: Live(logs, s.imm) <= i < |logs| && e in SyncedRows(logs[i].records)
    {
      var i :| Live(s.logs, s.imm) <= i < |s.logs| && e in SyncedRows(s.logs[i].records);
      assert e in SyncedRows(logs[i].records);
    }
    assert logs[n].records == records;
  }

  lemma AppendKeeps(s: State, s': State, r: G.Record)
    requires Inv(s) && Append(s, s', r)
    ensures Inv(s')
  {
    hide LogRows, SyncedRows, G.Number, Entries, NumbersOk, Spaced, TablesOk, UpTo, M.LastSet, FlushRecord, OpsOk,
         CurrentLogged, OpsIn, CompactRecord;
    var n := |s.logs| - 1;
    OneMoreRecord(Current(s).records, r);
    SyncedGrows(Current(s).records, r);
    CurrentGrows(s, Current(s).records + [r]);
    AppendSpaced(s, s', r);
    AppendOps(s, s', r);
    forall i | 0 <= i < n ensures s'.logs[i] == s.logs[i] {}
  }

  lemma SyncKeeps(s: State, s': State)
    requires Inv(s) && Sync(s, s')
    ensures Inv(s')
  {
    hide LogRows, SyncedRows, NumbersOk, TablesOk, UpTo, M.LastSet, FlushRecord, CompactRecord, Kept, OpsOk,
         CurrentLogged, OpsIn;
    var n := |s.logs| - 1;
    MarkedRows(Current(s).records);
    CurrentGrows(s, G.MarkSynced(Current(s).records));
    SyncOps(s, s');
    forall i | 0 <= i < n ensures s'.logs[i] == s.logs[i] {}
  }

  lemma SwitchKeeps(s: State, s': State, number: nat)
    requires Inv(s) && Switch(s, s', number)
    ensures Inv(s')
  {
    hide SyncedRows, LogRows, Spaced, AllWritten, TablesOk, M.LastSet, UpTo, FlushRecord, CompactRecord;
    assert forall i :: 0 <= i < |s.logs| ==> s'.logs[i] == s.logs[i];
    NewLogSpaced(s.logs, s.last, s.written, LogFile(number, s.last, []));
  }

  lemma NewLogSpaced(logs: seq<LogFile>, last: nat, written: set<Entry>, log: LogFile)
    requires Spaced(logs, last) && AllWritten(logs, written) && log.records == [] && log.after == last
    ensures Spaced(logs + [log], last) && AllWritten(logs + [log], written)
  {
    assert LogRows([]) == {};
    hide LogRows;
    var more := logs + [log];
    forall i | 0 <= i < |logs| ensures more[i] == logs[i] {}
    assert more[|logs|] == log;
  }

  lemma WritesKeep(s: State, s': State, r: M.Record)
    requires Inv(s) && (WriteFlush(s, s', r) || WriteCompaction(s, s', r))
    ensures Inv(s')
  {
    hide LogRows, NumbersOk, Spaced, TablesOk, Kept, AllWritten, UpTo, M.LastSet, FlushRecord, CompactRecord;
  }

  /** The manifest with one more record. */
  lemma FollowsKeeps(records: seq<M.Record>, r: M.Record)
    requires Follows(records, r) && M.Replayable(records) && M.Or(M.LastSet(records, M.PREV), 0) == 0
    ensures M.Replayable(records + [r]) && M.Or(M.LastSet(records + [r], M.PREV), 0) == 0
    ensures M.LastSet(records + [r], M.LOG) == if r.logNumber.Some? then r.logNumber else M.LastSet(records, M.LOG)
  {
    hide M.Replayable, M.LastSet, M.Known, M.AddsFresh;
    M.ReplayableAppend(records, r);
    M.LastSetAppend(records, r, M.PREV);
    M.LastSetAppend(records, r, M.LOG);
  }

  lemma InstallCompactionKeeps(s: State, s': State)
    requires Inv(s) && s.pending.Compacting? && Installed(s, s')
    ensures Inv(s')
  {
    hide LogRows, RowsAt, M.LastSet, M.Replayable, Answers, Follows, NumbersOk, Spaced, Kept, AllWritten, UpTo;
    FollowsKeeps(s.records, s.pending.r);
  }

  lemma InstallFlushKeeps(s: State, s': State)
    requires Inv(s) && s.pending.Flushing? && Installed(s, s')
    ensures Inv(s')
  {
    hide LogRows, SyncedRows, RowsAt, M.LastSet, M.Replayable, Answers, Follows, SameAnswers, Kept;
    var n := |s.logs| - 2;
    var rows := LogRows(s.logs[n].records);
    FlushAdds(s.records, rows, Current(s).number, s.pending.r);
    FollowsKeeps(s.records, s.pending.r);
    NewerOnTop(RowsAt(s.records), s.flushed, rows, s.floor);
    FlushedKept(s);
  }

  lemma FlushedKept(s: State)
    requires |s.logs| >= 2 && Kept(s.logs, |s.logs| - 2, s.flushed, s.durable)
    ensures Kept(s.logs, |s.logs| - 1, s.flushed + LogRows(s.logs[|s.logs| - 2].records), s.durable)
  {
    hide LogRows, SyncedRows;
    MarkedRows(s.logs[|s.logs| - 2].records);
  }

  lemma DeleteKeeps(s: State, s': State, k: nat)
    requires Inv(s) && Delete(s, s', k)
    ensures Inv(s')
  {
    hide LogRows, SyncedRows, M.LastSet, FlushRecord, CompactRecord, TablesOk, UpTo, Kept, Spaced, AllWritten;
    assert k <= Live(s.logs, s.imm);
    assert forall i :: 0 <= i < |s'.logs| ==> s'.logs[i] == s.logs[k + i];
    SuffixSpaced(s.logs, k, s.last, s.written);
    DeletedKept(s.logs, k, Live(s.logs, s.imm), s.flushed, s.durable);
  }

  lemma SuffixSpaced(logs: seq<LogFile>, k: nat, last: nat, written: set<Entry>)
    requires k <= |logs| && Spaced(logs, last) && AllWritten(logs, written)
    ensures Spaced(logs[k..], last) && AllWritten(logs[k..], written)
  {
    hide LogRows;
    var rest := logs[k..];
    forall i | 0 <= i < |rest| ensures rest[i] == logs[k + i] {}
  }

  lemma DeletedKept(logs: seq<LogFile>, k: nat, live: int, flushed: set<Entry>, durable: set<Entry>)
    requires k <= live < |logs| && Kept(logs, live, flushed, durable)
    ensures Kept(logs[k..], live - k, flushed, durable)
  {
    hide SyncedRows;
    forall e | e in durable && e !in flushed
      ensures exists i :: live - k <= i < |logs[k..]| && e in SyncedRows(logs[k..][i].records)
    {
      var i :| live <= i < |logs| && e in SyncedRows(logs[i].records);
      assert logs[k..][i - k] == logs[i];
    }
  }

  lemma RaiseKeeps(s: State, s': State, floor: nat)
    requires Inv(s) && Raise(s, s', floor)
    ensures Inv(s')
  {
    hide LogRows, RowsAt, M.LastSet, M.Replayable, Answers, FlushRecord, Follows, NumbersOk, Spaced, Kept, AllWritten,
         UpTo;
  }

  lemma NextKeepsInv(s: State, s': State)
    requires Inv(s) && Next(s, s')
    ensures Inv(s')
  {
    hide Inv, Append, Sync, Switch, WriteFlush, WriteCompaction, Delete, Raise;
    if r :| Append(s, s', r) {
      AppendKeeps(s, s', r);
    } else if Sync(s, s') {
      SyncKeeps(s, s');
    } else if number: nat :| Switch(s, s', number) {
      SwitchKeeps(s, s', number);
    } else if r :| WriteFlush(s, s', r) {
      WritesKeep(s, s', r);
    } else if r :| WriteCompaction(s, s', r) {
      WritesKeep(s, s', r);
    } else if Installed(s, s') {
      if s.pending.Flushing? {
        InstallFlushKeeps(s, s');
      } else {
        InstallCompactionKeeps(s, s');
      }
    } else if k: nat :| Delete(s, s', k) {
      DeleteKeeps(s, s', k);
    } else {
      var floor: nat :| Raise(s, s', floor);
      RaiseKeeps(s, s', floor);
    }
  }

  ghost predicate Run(run: seq<State>) {
    run != [] && Init(run[0]) && forall i, j :: 0 <= i && j == i + 1 < |run| ==> Next(run[i], run[j])
  }

  lemma {:induction false} RunKeepsInv(run: seq<State>, i: nat)
    requires Run(run) && i < |run|
    ensures Inv(run[i])
  {
    hide Inv, Next, Init;
    if i == 0 {
      InitInv(run[0]);
    } else {
      RunKeepsInv(run, i - 1);
      NextKeepsInv(run[i - 1], run[i]);
    }
  }

  // ---- Crashes ----

  /** What a crash leaves: the pending record or not, and of each log a prefix with its synced records. */
  datatype Crash = Crash(keep: bool, ks: seq<nat>)

  ghost predicate CrashOf(s: State, c: Crash) {
    && |c.ks| == |s.logs| && (c.keep ==> !s.pending.Nothing?)
    && forall i :: 0 <= i < |s.logs| ==> G.Survive(s.logs[i].records, c.ks[i])
  }

  function ManifestLeft(s: State, c: Crash): seq<M.Record> {
    if c.keep && !s.pending.Nothing? then s.records + [s.pending.r] else s.records
  }

  /** The entries of the logs that recovery reads. */
  ghost function LogsLeft(s: State, c: Crash): set<Entry>
    requires CrashOf(s, c)
  {
    set i, e | 0 <= i < |s.logs| && Needed(s, c, i) && e in LogRows(s.logs[i].records[..c.ks[i]]) :: e
  }

  ghost predicate Needed(s: State, c: Crash, i: nat)
    requires i < |s.logs|
  {
    var left := ManifestLeft(s, c);
    s.logs[i].number >= M.Or(M.LastSet(left, M.LOG), 0) || s.logs[i].number == M.Or(M.LastSet(left, M.PREV), 0)
  }

  /** Tables and logs together, as recovery finds them. */
  ghost function Recovered(s: State, c: Crash): set<Entry>
    requires CrashOf(s, c)
  {
    RowsAt(ManifestLeft(s, c)) + LogsLeft(s, c)
  }

  /** The writes that survive: all that the tables left were ever given, and the logs. */
  ghost function Survivors(s: State, c: Crash): set<Entry>
    requires CrashOf(s, c)
  {
    (if c.keep && s.pending.Flushing? && |s.logs| >= 2 then s.flushed + LogRows(s.logs[|s.logs| - 2].records)
     else s.flushed) + LogsLeft(s, c)
  }

  lemma PrefixRows(records: seq<G.Record>, k: nat)
    requires G.Survive(records, k)
    ensures SyncedRows(records) <= LogRows(records[..k]) <= LogRows(records)
  {
    hide G.Number;
    forall e | e in SyncedRows(records) ensures e in LogRows(records[..k]) {
      var r, x :| 0 <= r < |records| && records[r].synced && x in G.Number(records[r].ops, records[r].first)
                  && e == EntryOf(x);
      assert records[..k][r] == records[r];
    }
    forall e | e in LogRows(records[..k]) ensures e in LogRows(records) {
      var r, x :| 0 <= r < k && x in G.Number(records[..k][r].ops, records[..k][r].first) && e == EntryOf(x);
      assert records[..k][r] == records[r];
    }
  }

  /** The manifest left is one of a database without a pending record. */
  ghost function AfterCrash(s: State, c: Crash): State {
    if !c.keep || s.pending.Nothing? then s.(pending := Nothing)
    else if s.pending.Compacting? || |s.logs| < 2 then s.(records := ManifestLeft(s, c), pending := Nothing)
    else s.(records := ManifestLeft(s, c), pending := Nothing, imm := false,
            flushed := s.flushed + LogRows(s.logs[|s.logs| - 2].records))
  }

  lemma AfterCrashInv(s: State, c: Crash)
    requires Inv(s) && CrashOf(s, c)
    ensures var t := AfterCrash(s, c);
              && Inv(t) && t.logs == s.logs && t.records == ManifestLeft(s, c) && t.durable == s.durable
              && t.written == s.written && t.floor == s.floor && Survivors(s, c) == t.flushed + LogsLeft(s, c)
  {
    hide LogRows, NumbersOk, Spaced, TablesOk, Kept, AllWritten, UpTo, M.LastSet, FlushRecord, CompactRecord, LogsLeft;
    if c.keep && !s.pending.Nothing? {
      var t := AfterCrash(s, c);
      assert Installed(s, t);
      if s.pending.Flushing? {
        InstallFlushKeeps(s, t);
      } else {
        InstallCompactionKeeps(s, t);
      }
    }
  }

  /** The logs read are those from the first live one on. */
  lemma NeededIsLive(t: State, i: nat)
    requires Inv(t) && i < |t.logs|
    ensures M.LastSet(t.records, M.LOG).Some? && M.Or(M.LastSet(t.records, M.PREV), 0) == 0
    ensures t.logs[i].number >= M.LastSet(t.records, M.LOG).value <==> Live(t.logs, t.imm) <= i
    ensures t.logs[i].number != 0
  {
    hide M.LastSet, M.Replayable, RowsAt, SameAnswers, Spaced, Kept, AllWritten, UpTo, FlushRecord, CompactRecord;
  }

  /**
   * Whatever a crash leaves, recovery answers every lookup at a live read point
   * as the surviving writes do; these hold every durable entry, and nothing that
   * was never written.
   */
  lemma CrashKeepsDurable(s: State, c: Crash)
    requires Inv(s) && CrashOf(s, c)
    ensures s.durable <= Survivors(s, c) <= s.written && Recovered(s, c) <= Survivors(s, c)
    ensures SameAnswers(Recovered(s, c), Survivors(s, c), s.floor)
  {
    hide Inv, AfterCrash, ManifestLeft, LogsLeft, Survivors, LogRows, RowsAt, SameAnswers, CrashOf, Needed;
    var t := AfterCrash(s, c);
    AfterCrashInv(s, c);
    LeftHasSynced(s, c, t);
    LeftIsNewer(s, c, t);
    TablesOfInv(t);
    NewerOnTop(RowsAt(t.records), t.flushed, LogsLeft(s, c), t.floor);
  }

  lemma TablesOfInv(t: State)
    requires Inv(t)
    ensures RowsAt(t.records) <= t.flushed && SameAnswers(RowsAt(t.records), t.flushed, t.floor)
    ensures t.flushed <= t.written
  {
    hide M.LastSet, M.Replayable, RowsAt, SameAnswers, Spaced, Kept, AllWritten, UpTo, FlushRecord, CompactRecord,
        NumbersOk;
  }

  lemma LeftHasSynced(s: State, c: Crash, t: State)
    requires Inv(t) && CrashOf(s, c) && t.logs == s.logs && t.records == ManifestLeft(s, c) && t.written == s.written
    ensures t.durable <= t.flushed + LogsLeft(s, c) && LogsLeft(s, c) <= t.written
  {
    hide LogRows, SyncedRows, ManifestLeft, M.LastSet, NumbersOk, Spaced, TablesOk, UpTo, FlushRecord, CompactRecord;
    forall e | e in t.durable && e !in t.flushed ensures e in LogsLeft(s, c) {
      var i :| Live(t.logs, t.imm) <= i < |t.logs| && e in SyncedRows(t.logs[i].records);
      NeededIsLive(t, i);
      PrefixRows(s.logs[i].records, c.ks[i]);
      assert Needed(s, c, i);
    }
    forall e | e in LogsLeft(s, c) ensures e in t.written {
      var i :| 0 <= i < |s.logs| && Needed(s, c, i) && e in LogRows(s.logs[i].records[..c.ks[i]]);
      PrefixRows(s.logs[i].records, c.ks[i]);
    }
  }

  lemma LeftIsNewer(s: State, c: Crash, t: State)
    requires Inv(t) && CrashOf(s, c) && t.logs == s.logs && t.records == ManifestLeft(s, c)
    ensures forall x, y :: x in LogsLeft(s, c) && y in t.flushed ==> x.ikey.sequence > y.ikey.sequence
  {
    hide LogRows, ManifestLeft, M.LastSet, NumbersOk, TablesOk, Kept, FlushRecord, CompactRecord;
    forall x, y | x in LogsLeft(s, c) && y in t.flushed ensures x.ikey.sequence > y.ikey.sequence {
      var i :| 0 <= i < |s.logs| && Needed(s, c, i) && x in LogRows(s.logs[i].records[..c.ks[i]]);
      NeededIsLive(t, i);
      PrefixRows(s.logs[i].records, c.ks[i]);
      assert t.logs[Live(t.logs, t.imm)].after <= t.logs[i].after;
    }
  }

  /** The entry of an operation tells its value, under the key's rank and its number. */
  lemma EntryTells(x: G.Numbered)
    ensures EntryOf(x).ikey.user == Rank(x.op.key) && EntryOf(x).ikey.sequence == x.sequence
    ensures Told(EntryOf(x)) == x.op.value
  {
  }

  /**
   * In operations alone: the last operation on a key up to a snapshot, if it was
   * synced, is what is read there after any crash.
   */
  lemma SyncedIsRead(s: State, c: Crash, x: G.Numbered, snapshot: nat)
    requires Inv(s) && CrashOf(s, c) && x in s.synced && x.sequence <= snapshot && s.floor <= snapshot
    requires forall y :: y in s.ops && y.op.key == x.op.key && y.sequence <= snapshot ==> y.sequence <= x.sequence
    ensures forall r :: Answers(Recovered(s, c), Rank(x.op.key), snapshot, r) <==> r == x.op.value
  {
    hide Inv, CrashOf, Recovered, Survivors, EntryOf, Rank;
    CrashKeepsDurable(s, c);
    OpsOfInv(s);
    var all, k, e := Survivors(s, c), Rank(x.op.key), EntryOf(x);
    EntryTells(x);
    forall w | w in all && Visible(w, k, snapshot) ensures w.ikey.sequence <= e.ikey.sequence {
      if w !in s.base {
        var y :| y in s.ops && w == EntryOf(y);
        EntryTells(y);
        RankIsInjective(y.op.key, x.op.key);
      }
    }
    assert IsNewest(all, k, snapshot, e);
    forall w | IsNewest(all, k, snapshot, w) ensures Told(w) == x.op.value {
      if w !in s.base {
        var y :| y in s.ops && w == EntryOf(y);
        EntryTells(y);
      }
    }
    forall r ensures Answers(all, k, snapshot, r) <==> r == x.op.value {}
  }

  // ---- Synced writes over whole runs ----

  /** Every step keeps what was synced; the log written to is the same with more operations, or a later one. */
  lemma StepKeepsSynced(s: State, s': State)
    requires Next(s, s') && s.logs != [] && s'.logs != []
    ensures s.synced <= s'.synced
    ensures Current(s).number < Current(s').number
            || (Current(s).number == Current(s').number && OpsIn(Current(s).records) <= OpsIn(Current(s').records))
  {
    hide OpsIn, LogRows, Entries, G.Number, G.MarkSynced, M.LastSet, FlushRecord, CompactRecord;
    if r :| Append(s, s', r) {
      OpsInGrow(Current(s).records, Current(s).records + [r]);
    } else if Sync(s, s') {
      OpsInGrow(Current(s).records, G.MarkSynced(Current(s).records));
    }
  }

  lemma OpsInGrow(a: seq<G.Record>, b: seq<G.Record>)
    requires |a| <= |b| && forall i :: 0 <= i < |a| ==> a[i].first == b[i].first && a[i].ops == b[i].ops
    ensures OpsIn(a) <= OpsIn(b)
  {
  }

  lemma {:induction false} RunKeepsSynced(run: seq<State>, i: nat, j: nat)
    requires Run(run) && i <= j < |run|
    ensures run[i].synced <= run[j].synced && run[i].logs != [] && run[j].logs != []
    ensures Current(run[i]).number < Current(run[j]).number
            || (&& Current(run[i]).number == Current(run[j]).number
                && OpsIn(Current(run[i]).records) <= OpsIn(Current(run[j]).records))
  {
    hide Inv, Next, Init, OpsIn, Current;
    RunKeepsInv(run, i);
    LogsOfInv(run[i]);
    if i < j {
      RunKeepsInv(run, j);
      LogsOfInv(run[j]);
      RunKeepsSynced(run, i, j - 1);
      StepKeepsSynced(run[j - 1], run[j]);
    }
  }

  lemma LogsOfInv(s: State)
    requires Inv(s)
    ensures s.logs != []
  {
    hide NumbersOk, Spaced, TablesOk, Kept, AllWritten, UpTo, PendingOk, OpsOk, CurrentLogged;
  }

  /**
   * In every run: a record appended at step `i` and synced at step `j`, before the
   * log was switched, is read after a crash at any later time, operation by
   * operation, wherever it is the last one on its key.
   */
  lemma AppendedAndSyncedIsRead(run: seq<State>, i: nat, j: nat, h: nat, r: G.Record, k: nat, c: Crash, snapshot: nat)
    requires Run(run) && i < j < h < |run| && Append(run[i], run[i + 1], r) && Sync(run[j], run[j + 1])
    requires run[j].logs != [] && Current(run[i]).number == Current(run[j]).number
    requires k < |r.ops| && r.first + k <= snapshot && run[h].floor <= snapshot && CrashOf(run[h], c)
    requires LastOnKey(run[h], G.Numbered(r.first + k, r.ops[k]), snapshot)
    ensures forall v :: Answers(Recovered(run[h], c), Rank(r.ops[k].key), snapshot, v) <==> v == r.ops[k].value
  {
    hide Inv, CrashOf, Recovered, Answers, Rank, Next, Init;
    var x := G.Numbered(r.first + k, r.ops[k]);
    var last := Current(run[i]).records + [r];
    assert Current(run[i + 1]).records == last && last[|last| - 1] == r;
    assert x in OpsIn(last);
    RunKeepsSynced(run, i + 1, j);
    RunKeepsSynced(run, j + 1, h);
    RunKeepsInv(run, h);
    SyncedIsRead(run[h], c, x, snapshot);
  }

  lemma OpsOfInv(s: State)
    requires Inv(s)
    ensures OpsOk(s)
  {
    hide OpsOk, NumbersOk, Spaced, TablesOk, Kept, AllWritten, UpTo, PendingOk, CurrentLogged, M.LastSet;
  }

  /** A key on which there was no operation is read as from the first tables. */
  lemma UntouchedIsRead(s: State, c: Crash, key: Bytes, snapshot: nat, r: Option<Bytes>)
    requires Inv(s) && CrashOf(s, c) && s.floor <= snapshot && forall y :: y in s.ops ==> y.op.key != key
    ensures Answers(Recovered(s, c), Rank(key), snapshot, r) <==> Answers(s.base, Rank(key), snapshot, r)
  {
    hide Inv, CrashOf, Recovered, EntryOf, Rank;
    CrashKeepsDurable(s, c);
    OpsOfInv(s);
    var all, k := Survivors(s, c), Rank(key);
    assert s.base <= all;
    hide Survivors;
    forall w | w in all && w.ikey.user == k ensures w in s.base {
      if w !in s.base {
        var y :| y in s.ops && w == EntryOf(y);
        EntryTells(y);
        RankIsInjective(y.op.key, key);
      }
    }
    forall w ensures IsNewest(all, k, snapshot, w) <==> IsNewest(s.base, k, snapshot, w) {}
  }

  /** A durable write is read again after a crash, or a later write of its key that survived. */
  lemma DurableIsRead(s: State, c: Crash, e: Entry, snapshot: nat, r: Option<Bytes>)
    requires Inv(s) && CrashOf(s, c) && e in s.durable && e.ikey.sequence <= snapshot && s.floor <= snapshot
    requires Answers(Recovered(s, c), e.ikey.user, snapshot, r)
    ensures exists w :: w in s.written && w.ikey.user == e.ikey.user && e.ikey.sequence <= w.ikey.sequence <= snapshot
                        && r == Told(w)
  {
    hide Inv, CrashOf, Recovered, Survivors;
    CrashKeepsDurable(s, c);
    assert Answers(Survivors(s, c), e.ikey.user, snapshot, r);
    assert Visible(e, e.ikey.user, snapshot);
  }

  // ---- Recovery over the bytes ----

  /** All records the manifest file may hold. */
  function ManifestWritten(s: State): seq<M.Record> {
    if s.pending.Nothing? then s.records else s.records + [s.pending.r]
  }

  /** The files as a crash left them, each cut at any byte past what was synced. */
  ghost predicate FilesLeft(s: State, crc: Log.Checksum, codec: M.Codec, m: seq<Bytes>, manifest: Bytes,
                            logs: seq<(nat, Bytes)>) {
    && M.Stored(codec, m, ManifestWritten(s)) && (forall i :: 0 <= i < |m| ==> |m[i]| < WORD)
    && manifest <= Log.Written(crc, 0, m) && Log.Whole(crc, 0, m, |manifest|) >= |s.records|
    && |logs| == |s.logs|
    && forall i :: 0 <= i < |logs| ==> LogLeft(crc, s.logs[i], logs[i].0, logs[i].1)
  }

  ghost predicate LogLeft(crc: Log.Checksum, log: LogFile, number: nat, contents: Bytes) {
    && number == log.number && R.AllStorable(log.records)
    && contents <= Log.Written(crc, 0, R.Batches(log.records)) && R.SyncedInside(crc, log.records, |contents|)
  }

  /** `k` records lie wholly in what is left of the log. */
  ghost predicate LogCut(crc: Log.Checksum, log: LogFile, contents: Bytes, k: nat) {
    R.AllStorable(log.records) && k == Log.Whole(crc, 0, R.Batches(log.records), |contents|)
  }

  /** The crash that leaves these files. */
  ghost function CrashLeaving(s: State, crc: Log.Checksum, m: seq<Bytes>, manifest: Bytes,
                              logs: seq<(nat, Bytes)>): Crash
    requires |logs| == |s.logs| && forall i :: 0 <= i < |logs| ==> R.AllStorable(s.logs[i].records)
  {
    Crash(Log.Whole(crc, 0, m, |manifest|) > |s.records|,
          seq(|logs|, i requires 0 <= i < |logs| => Log.Whole(crc, 0, R.Batches(s.logs[i].records), |logs[i].1|)))
  }

  lemma LeavesCrash(s: State, crc: Log.Checksum, codec: M.Codec, m: seq<Bytes>, manifest: Bytes,
                    logs: seq<(nat, Bytes)>)
    requires Inv(s) && FilesLeft(s, crc, codec, m, manifest, logs)
    ensures var c := CrashLeaving(s, crc, m, manifest, logs);
              && CrashOf(s, c) && M.Replayable(ManifestWritten(s))
              && ManifestLeft(s, c) == ManifestWritten(s)[..Log.Whole(crc, 0, m, |manifest|)]
  {
    hide Log.Written, Log.Whole, R.Batches, R.AllStorable, R.SyncedInside, M.Replayable, M.LastSet, NumbersOk, Spaced,
        Kept,
         AllWritten, UpTo, SameAnswers, RowsAt, Follows, M.StoredAs, LogRows;
    forall i | 0 <= i < |s.logs|
      ensures G.Survive(s.logs[i].records, Log.Whole(crc, 0, R.Batches(s.logs[i].records), |logs[i].1|))
    {
      assert LogLeft(crc, s.logs[i], logs[i].0, logs[i].1);
      R.SyncedSurvive(crc, s.logs[i].records, |logs[i].1|);
    }
    if !s.pending.Nothing? {
      FollowsKeeps(s.records, s.pending.r);
    }
  }

  ghost function LogsBelow(s: State, c: Crash, n: nat): set<Entry>
    requires CrashOf(s, c) && n <= |s.logs|
  {
    set i, e | 0 <= i < n && Needed(s, c, i) && e in LogRows(s.logs[i].records[..c.ks[i]]) :: e
  }

  lemma OneMoreLog(s: State, c: Crash, n: nat)
    requires CrashOf(s, c) && n < |s.logs|
    ensures LogsBelow(s, c, 0) == {} && LogsBelow(s, c, |s.logs|) == LogsLeft(s, c)
    ensures LogsBelow(s, c, n + 1)
            == LogsBelow(s, c, n) + if Needed(s, c, n) then LogRows(s.logs[n].records[..c.ks[n]]) else {}
  {
    hide LogRows, Needed;
  }

  lemma EntriesAppend(a: seq<G.Numbered>, b: seq<G.Numbered>)
    ensures Entries(a + b) == Entries(a) + Entries(b) && Entries([]) == {}
  {
  }

  /** One log file of the crash, read if it is still needed. */
  method RecoverLog(ghost s: State, ghost c: Crash, ghost i: nat, crc: Log.Checksum, log: (nat, Bytes), minLog: nat,
                    prevLog: nat, paranoid: bool, full: nat -> bool)
    returns (ok: bool, entries: seq<G.Numbered>)
    requires CrashOf(s, c) && i < |s.logs| && LogLeft(crc, s.logs[i], log.0, log.1)
    requires LogCut(crc, s.logs[i], log.1, c.ks[i])
    requires minLog == M.Or(M.LastSet(ManifestLeft(s, c), M.LOG), 0)
    requires prevLog == M.Or(M.LastSet(ManifestLeft(s, c), M.PREV), 0)
    ensures ok && Entries(entries) == if Needed(s, c, i) then LogRows(s.logs[i].records[..c.ks[i]]) else {}
  {
    hide LogRows, Entries, M.LastSet, ManifestLeft, Log.Written, Log.Whole, R.Batches, R.AllStorable, R.SyncedInside;
    EntriesAppend([], []);
    ok, entries := true, [];
    if log.0 >= minLog || log.0 == prevLog {
      var tables, mem, last;
      ghost var found, bs, corrupt;
      ok, tables, mem, last, found, bs, corrupt :=
        R.RecoverLogFile(crc, log.1, paranoid, false, full, 0, s.logs[i].records);
      entries := R.Held(tables, mem);
      ReplayRows(s.logs[i].records[..c.ks[i]]);
    }
  }

  /** The logs in the order of their numbers. */
  method RecoverLogs(ghost s: State, ghost c: Crash, crc: Log.Checksum, logs: seq<(nat, Bytes)>, minLog: nat,
                     prevLog: nat, paranoid: bool, full: nat -> bool)
    returns (ok: bool, entries: seq<G.Numbered>)
    requires CrashOf(s, c) && s.logs != [] && |logs| == |s.logs|
    requires |c.ks| == |logs| && forall i :: 0 <= i < |logs| ==> LogCut(crc, s.logs[i], logs[i].1, c.ks[i])
    requires forall i :: 0 <= i < |logs| ==> LogLeft(crc, s.logs[i], logs[i].0, logs[i].1)
    requires minLog == M.Or(M.LastSet(ManifestLeft(s, c), M.LOG), 0)
    requires prevLog == M.Or(M.LastSet(ManifestLeft(s, c), M.PREV), 0)
    ensures ok && Entries(entries) == LogsLeft(s, c)
  {
    hide LogRows, Entries, LogsBelow, LogsLeft, LogLeft, LogCut, M.LastSet, ManifestLeft, Log.Whole, R.Batches,
        Needed, CrashOf;
    EntriesAppend([], []);
    ok, entries := true, [];
    OneMoreLog(s, c, 0);
    var i := 0;
    while i < |logs| && ok
      invariant 0 <= i <= |logs| && ok && Entries(entries) == LogsBelow(s, c, i)
    {
      var more;
      ok, more := RecoverLog(s, c, i, crc, logs[i], minLog, prevLog, paranoid, full);
      OneMoreLog(s, c, i);
      EntriesAppend(entries, more);
      entries := entries + more;
      i := i + 1;
    }
  }

  lemma VersionIsReplay(v: Levels, records: seq<M.Record>)
    requires M.ReplaysTo(records, v)
    ensures VersionRows(v) == RowsAt(records)
  {
    hide M.Replay;
    forall l, f | 0 <= l < NUM_LEVELS ensures f in v[l] <==> f in M.Replay(records, l) {
      assert f in v[l] <==> f in FilesOf(v[l]);
    }
  }

  /** Every synced operation that is the last on its key up to a snapshot is read there. */
  ghost predicate ReadsSynced(s: State, rows: set<Entry>) {
    forall x, snapshot: nat, r ::
      x in s.synced && x.sequence <= snapshot && s.floor <= snapshot && LastOnKey(s, x, snapshot) ==>
        (Answers(rows, Rank(x.op.key), snapshot, r) <==> r == x.op.value)
  }

  ghost predicate LastOnKey(s: State, x: G.Numbered, snapshot: nat) {
    forall y :: y in s.ops && y.op.key == x.op.key && y.sequence <= snapshot ==> y.sequence <= x.sequence
  }

  lemma CrashReads(s: State, c: Crash)
    requires Inv(s) && CrashOf(s, c)
    ensures ReadsSynced(s, Recovered(s, c))
  {
    hide Inv, CrashOf, Recovered, Answers, Rank;
    forall x, snapshot: nat, r
      | x in s.synced && x.sequence <= snapshot && s.floor <= snapshot && LastOnKey(s, x, snapshot)
      ensures Answers(Recovered(s, c), Rank(x.op.key), snapshot, r) <==> r == x.op.value
    {
      SyncedIsRead(s, c, x, snapshot);
    }
  }

  /**
   * DBImpl::Recover on the files a crash left: the version of the manifest, then
   * the logs it still needs.  What is found is what `CrashKeepsDurable` is about.
   */
  method OpenAfterCrash(ghost s: State, crc: Log.Checksum, name: Bytes, codec: M.Codec, ghost m: seq<Bytes>,
                        manifest: Bytes, logs: seq<(nat, Bytes)>, paranoid: bool, full: nat -> bool)
    returns (versions: M.VersionSet, ok: bool, entries: seq<G.Numbered>)
    requires Inv(s) && FilesLeft(s, crc, codec, m, manifest, logs)
    ensures fresh(versions) && versions.Valid()
    ensures var c := CrashLeaving(s, crc, m, manifest, logs);
              && CrashOf(s, c) && (ok <==> M.Recoverable(name, ManifestLeft(s, c)))
              && (ok ==> VersionRows(versions.current) + Entries(entries) == Recovered(s, c))
    ensures ok ==> ReadsSynced(s, VersionRows(versions.current) + Entries(entries))
  {
    hide Inv, ReadsSynced, FilesLeft, CrashLeaving, CrashOf, ManifestLeft, ManifestWritten, Log.Written, Log.Whole,
        RowsAt, Entries,
         VersionRows, LogsLeft, M.Recoverable, M.Stored, M.Replayable, M.ReplaysTo, LogLeft, LogCut, R.AllStorable;
    FilesFacts(s, crc, codec, m, manifest, logs);
    ghost var c := CrashLeaving(s, crc, m, manifest, logs);
    LeavesCrash(s, crc, codec, m, manifest, logs);
    versions := new M.VersionSet(name, codec);
    var found, corruptions := Log.ReadTorn(crc, manifest, m);
    M.StoredPrefix(codec, m, ManifestWritten(s), |found|);
    ok := versions.Recover(found, ManifestLeft(s, c));
    entries := [];
    if ok {
      VersionIsReplay(versions.current, ManifestLeft(s, c));
      var read;
      read, entries := RecoverLogs(s, c, crc, logs, versions.logNumber, versions.prevLogNumber, paranoid, full);
      CrashReads(s, c);
    }
  }

  lemma FilesFacts(s: State, crc: Log.Checksum, codec: M.Codec, m: seq<Bytes>, manifest: Bytes, logs: seq<(nat, Bytes)>)
    requires Inv(s) && FilesLeft(s, crc, codec, m, manifest, logs)
    ensures manifest <= Log.Written(crc, 0, m) && M.Stored(codec, m, ManifestWritten(s)) && s.logs != []
    ensures |m| == |ManifestWritten(s)| && |logs| == |s.logs| && forall i :: 0 <= i < |m| ==> |m[i]| < WORD
    ensures forall i :: 0 <= i < |logs| ==> LogLeft(crc, s.logs[i], logs[i].0, logs[i].1)
    ensures forall i :: 0 <= i < |logs| ==> R.AllStorable(s.logs[i].records)
    ensures var c := CrashLeaving(s, crc, m, manifest, logs);
              |c.ks| == |logs| && forall i :: 0 <= i < |logs| ==> LogCut(crc, s.logs[i], logs[i].1, c.ks[i])
  {
    hide Log.Written, Log.Whole, R.Batches, R.SyncedInside, R.AllStorable, M.StoredAs, ManifestWritten, NumbersOk,
        Spaced,
         TablesOk, Kept, AllWritten, UpTo, PendingOk;
  }
}
