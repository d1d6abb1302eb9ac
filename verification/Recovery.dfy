/**
 * Recovery of a log file into memtables (DBImpl::RecoverLogFile in db/db_impl.cc,
 * over db/write_batch.cc and db/log_reader.cc).
 */
module Recovery {
  import opened DbFormat
  import opened Coding
  import opened WriteBatch
  import opened GroupCommit
  import Log

  // ---- Log records as bytes ----

  /** The batch has at least one free number before it, and its sizes fit their fields. */
  ghost predicate Storable(r: Record) {
    1 <= r.first && r.first + |r.ops| < WORD64 && |r.ops| < WORD && HEADER + |OpsBytes(r.ops)| < WORD
  }

  /** WriteBatchInternal::Contents of a numbered batch. */
  ghost function BatchBytes(r: Record): (b: Bytes)
    requires Storable(r)
    ensures |b| == HEADER + |OpsBytes(r.ops)|
  {
    Fixed64(r.first) + Fixed32(|r.ops|) + OpsBytes(r.ops)
  }

  ghost predicate AllStorable(log: seq<Record>) {
    forall i :: 0 <= i < |log| ==> Storable(log[i])
  }

  ghost function Batches(log: seq<Record>): (bs: seq<Bytes>)
    requires AllStorable(log)
    ensures |bs| == |log| && forall i :: 0 <= i < |log| ==> bs[i] == BatchBytes(log[i])
  {
    seq(|log|, i requires 0 <= i < |log| => BatchBytes(log[i]))
  }

  lemma BatchParts(r: Record)
    requires Storable(r)
    ensures var b := BatchBytes(r);
              && b[..8] == Fixed64(r.first) && b[8..12] == Fixed32(|r.ops|) && b[HEADER..] == OpsBytes(r.ops)
              && DecodeFixed64(b[..8]) == r.first && DecodeFixed32(b[8..12]) == |r.ops|
  {
    hide OpsBytes, Fixed32, Fixed64, DecodeFixed32, DecodeFixed64;
    Fixed64RoundTrip(r.first);
    Fixed32RoundTrip(|r.ops|);
  }

  /** The bytes are a batch: its first number, and as many operations as its count says. */
  ghost predicate IsBatch(rep: Bytes, b: Record) {
    && |rep| >= HEADER && b.first == DecodeFixed64(rep[..8]) && |b.ops| == DecodeFixed32(rep[8..12])
    && ReadsOps(rep[HEADER..], b.ops)
  }

  /** WriteBatchInternal::InsertInto: the operations handed out, numbered from the batch's sequence. */
  method InsertInto(rep: Bytes, ghost r: Record) returns (ok: bool, entries: seq<Numbered>, first: nat, count: nat)
    requires |rep| >= HEADER
    ensures Storable(r) && rep == BatchBytes(r) ==>
              ok && entries == Number(r.ops, r.first) && first == r.first && count == |r.ops|
    ensures ok ==> exists b :: IsBatch(rep, b) && entries == Number(b.ops, b.first)
    ensures forall b :: IsBatch(rep, b) ==> ok && entries == Number(b.ops, b.first)
    ensures first == DecodeFixed64(rep[..8]) && count == DecodeFixed32(rep[8..12])
  {
    hide OpsBytes, DecodeFixed32, DecodeFixed64, BatchBytes;
    if Storable(r) && rep == BatchBytes(r) {
      BatchParts(r);
    }
    first, count := DecodeFixed64(rep[..8]), DecodeFixed32(rep[8..12]);
    var ops;
    ok, ops := Iterate(rep, r.ops);
    entries := Number(ops, first);
    if ok { assert IsBatch(rep, Record(first, ops, false)); }
  }

  // ---- One log file ----

  function Flat(tables: seq<seq<Numbered>>): seq<Numbered> {
    if tables == [] then [] else Flat(tables[..|tables| - 1]) + tables[|tables| - 1]
  }

  /** What has been recovered: the tables written and the memtable in hand. */
  function Held(tables: seq<seq<Numbered>>, mem: seq<Numbered>): seq<Numbered> {
    Flat(tables) + mem
  }

  lemma HeldMore(tables: seq<seq<Numbered>>, mem: seq<Numbered>, more: seq<Numbered>)
    ensures Held([], []) == []
    ensures Held(tables, mem + more) == Held(tables, mem) + more
    ensures Held(tables + [mem], []) == Held(tables, mem)
  {
  }

  /** The largest of `m` and the last numbers of the records. */
  ghost function LastOf(log: seq<Record>, m: nat): nat
    requires AllStorable(log)
  {
    if log == [] then m
    else
      var before, r := LastOf(log[..|log| - 1], m), log[|log| - 1];
      if r.first + |r.ops| - 1 > before then r.first + |r.ops| - 1 else before
  }

  /** No operation replayed has a number above the last. */
  lemma {:induction false} LastCovers(log: seq<Record>, m: nat)
    requires AllStorable(log)
    ensures LastOf(log, m) >= m && forall x :: x in Replay(log) ==> x.sequence <= LastOf(log, m)
  {
    if log == [] {
    } else {
      LastCovers(log[..|log| - 1], m);
    }
  }

  /** How many of the first `n` records fill the memtable. */
  function FullCount(full: nat -> bool, n: nat): nat {
    if n == 0 then 0 else FullCount(full, n - 1) + if full(n - 1) then 1 else 0
  }

  /** Every record is a batch, and `held` are the operations of all of them. */
  ghost predicate AllRead(records: seq<Bytes>, bs: seq<Record>, held: seq<Numbered>) {
    |bs| == |records| && (forall j :: 0 <= j < |bs| ==> IsBatch(records[j], bs[j])) && held == Replay(bs)
  }

  /** Of every record that is a batch, all operations are in `held`. */
  ghost predicate Includes(records: seq<Bytes>, held: seq<Numbered>) {
    forall j, b, x :: 0 <= j < |records| && IsBatch(records[j], b) && x in Number(b.ops, b.first) ==> x in held
  }

  ghost predicate NoBatch(rep: Bytes) {
    forall b :: !IsBatch(rep, b)
  }

  lemma ReadMore(records: seq<Bytes>, bs: seq<Record>, held: seq<Numbered>, rep: Bytes, b: Record)
    requires AllRead(records, bs, held) && IsBatch(rep, b)
    ensures AllRead(records + [rep], bs + [b], held + Number(b.ops, b.first))
  {
    hide IsBatch, Number;
    assert (bs + [b])[..|bs|] == bs;
  }

  lemma IncludesMore(records: seq<Bytes>, held: seq<Numbered>, rep: Bytes, entries: seq<Numbered>)
    requires Includes(records, held) && forall b :: IsBatch(rep, b) ==> entries == Number(b.ops, b.first)
    ensures Includes(records + [rep], held + entries)
  {
    hide IsBatch, Number;
    var all := records + [rep];
    forall j, b, x | 0 <= j < |all| && IsBatch(all[j], b) && x in Number(b.ops, b.first) ensures x in held + entries {
      if j < |records| {
        assert IsBatch(records[j], b);
      }
    }
  }

  lemma ShortIsNoBatch(rep: Bytes)
    requires |rep| < HEADER
    ensures NoBatch(rep)
  {
  }

  /** Every record is assembled from checked fragments of the file. */
  ghost predicate FromLog(crc: Log.Checksum, contents: Bytes, records: seq<Bytes>) {
    forall r :: r in records ==> exists from, to :: Log.Assembled(crc, contents, from, to, r)
  }

  lemma FromLogMore(crc: Log.Checksum, contents: Bytes, records: seq<Bytes>, from: int, to: int, r: Bytes)
    requires FromLog(crc, contents, records) && Log.Assembled(crc, contents, from, to, r)
    ensures FromLog(crc, contents, records + [r])
  {
    hide Log.Assembled;
  }

  /** What recovery has done with the records of a written log so far. */
  ghost predicate Replayed(log: seq<Record>, i: nat, max: nat, full: nat -> bool, tables: seq<seq<Numbered>>,
                           mem: seq<Numbered>, held: bool, maxSequence: nat)
    requires AllStorable(log)
  {
    && i <= |log| && Held(tables, mem) == Replay(log[..i]) && maxSequence == LastOf(log[..i], max)
    && |tables| == FullCount(full, i) && (held <==> i > 0 && !full(i - 1))
  }

  /** What it has done with any records. */
  ghost predicate Applied(paranoid: bool, ok: bool, corrupt: bool, records: seq<Bytes>, bs: seq<Record>,
                          held: seq<Numbered>) {
    && (ok ==> Includes(records, held)) && (ok && paranoid ==> AllRead(records, bs, held))
    && (!ok ==> paranoid && (corrupt || exists j :: 0 <= j < |records| && NoBatch(records[j])))
  }

  /**
   * RecoverLogFile.  On the first bytes of a written log, memtables and the tables
   * they were written to hold together the operations of exactly the records
   * wholly contained in those bytes, under their numbers.  On any bytes, paranoid
   * recovery succeeds only if nothing was reported and every record is a batch,
   * and then has exactly their operations; otherwise it succeeds always and has all
   * operations of those records that are batches.
   */
  method RecoverLogFile(crc: Log.Checksum, contents: Bytes, paranoid: bool, reuse: bool, full: nat -> bool, max: nat,
                        ghost log: seq<Record>)
    returns (ok: bool, tables: seq<seq<Numbered>>, mem: seq<Numbered>, maxSequence: nat, ghost records: seq<Bytes>,
             ghost bs: seq<Record>, ghost corrupt: bool)
    requires AllStorable(log)
    ensures contents <= Log.Written(crc, 0, Batches(log)) ==>
              var k := Log.Whole(crc, 0, Batches(log), |contents|);
              && ok && k <= |log| && Held(tables, mem) == Replay(log[..k]) && maxSequence == LastOf(log[..k], max)
              && |tables| == FullCount(full, k)
                   + if k > 0 && !full(k - 1) && !(reuse && FullCount(full, k) == 0) then 1 else 0
    ensures !reuse ==> mem == []
    ensures (!paranoid ==> ok) && (ok && paranoid ==> !corrupt)
    ensures Applied(paranoid, ok, corrupt, records, bs, Held(tables, mem))
    ensures FromLog(crc, contents, records)
  {
    hide Log.Written, Log.Whole, Log.AtRecord, Log.Assembled, BatchBytes, Held, Replay, LastOf, Includes, AllRead,
        NoBatch, FullCount, Replayed, FromLog;
    ghost var w := contents <= Log.Written(crc, 0, Batches(log));
    var reader := new Log.Reader(crc, contents);
    if w { Log.AtFirst(crc, contents, Batches(log)); }
    ok, tables, mem, maxSequence, records, bs := true, [], [], max, [], [];
    var held, more, i := false, true, 0;
    RecoveryStarts(log, max, full, crc, contents);
    while more && ok
      invariant reader.Valid() && reader.crc == crc && reader.contents == contents && fresh(reader)
      invariant i >= 0 && (!held ==> mem == []) && (!paranoid ==> ok) && (ok && paranoid ==> reader.corruptions == 0)
      invariant w ==> ok && reader.corruptions == 0 && Replayed(log, i, max, full, tables, mem, held, maxSequence)
      invariant w ==> if more then Log.AtRecord(crc, contents, reader.Pos(), Batches(log), i)
                      else i == Log.Whole(crc, 0, Batches(log), |contents|)
      invariant Applied(paranoid, ok, reader.corruptions > 0, records, bs, Held(tables, mem))
      invariant FromLog(crc, contents, records)
      decreases more && ok, |contents| - reader.Pos()
    {
      ghost var low := reader.Pos();
      var got, record := Log.ReadNext(reader, Batches(log), i);
      if paranoid && reader.corruptions > 0 {
        ok := false;
      } else if !got {
        more := false;
      } else {
        ok, tables, mem, held, maxSequence, bs :=
          RecoverRecord(record, i, paranoid, full, tables, mem, held, maxSequence, w, log, max, records, bs);
        FromLogMore(crc, contents, records, low, reader.Pos(), record);
        records := records + [record];
        i := i + 1;
      }
    }
    corrupt := reader.corruptions > 0;
    if w { ReplayedFacts(log, i, max, full, tables, mem, held, maxSequence); }
    tables, mem := WriteLast(tables, mem, held, ok, reuse);
  }

  lemma ReplayedFacts(log: seq<Record>, i: nat, max: nat, full: nat -> bool, tables: seq<seq<Numbered>>,
                      mem: seq<Numbered>, held: bool, maxSequence: nat)
    requires AllStorable(log) && Replayed(log, i, max, full, tables, mem, held, maxSequence)
    ensures i <= |log| && Held(tables, mem) == Replay(log[..i]) && maxSequence == LastOf(log[..i], max)
    ensures |tables| == FullCount(full, i) && (held <==> i > 0 && !full(i - 1))
  {
  }

  /** The memtable in hand at the end: written to a table, kept if the log is reused, dropped on an error. */
  method WriteLast(tables0: seq<seq<Numbered>>, mem0: seq<Numbered>, held: bool, ok: bool, reuse: bool)
    returns (tables: seq<seq<Numbered>>, mem: seq<Numbered>)
    requires !held ==> mem0 == []
    ensures (ok ==> Held(tables, mem) == Held(tables0, mem0)) && (!reuse ==> mem == [])
    ensures |tables| == |tables0| + if held && ok && !(reuse && tables0 == []) then 1 else 0
  {
    tables, mem := tables0, mem0;
    if held && !ok {
      mem := [];
    } else if held && !(reuse && tables == []) {
      HeldMore(tables, mem, []);
      tables, mem := tables + [mem], [];
    }
  }

  lemma RecoveryStarts(log: seq<Record>, max: nat, full: nat -> bool, crc: Log.Checksum, contents: Bytes)
    requires AllStorable(log)
    ensures Replayed(log, 0, max, full, [], [], false, max) && Held([], []) == []
    ensures FromLog(crc, contents, [])
    ensures Includes([], []) && AllRead([], [], [])
  {
  }

  /** One record: its batch goes into the memtable, and a full memtable into a table. */
  method RecoverRecord(record: Bytes, i: nat, paranoid: bool, full: nat -> bool, tables0: seq<seq<Numbered>>,
                       mem0: seq<Numbered>, held0: bool, max0: nat, ghost w: bool, ghost log: seq<Record>,
                       ghost max: nat, ghost records: seq<Bytes>, ghost bs0: seq<Record>)
    returns (ok: bool, tables: seq<seq<Numbered>>, mem: seq<Numbered>, held: bool, maxSequence: nat,
             ghost bs: seq<Record>)
    requires AllStorable(log) && (!held0 ==> mem0 == [])
    requires Applied(paranoid, true, false, records, bs0, Held(tables0, mem0))
    requires w ==> && i < |log| && record == BatchBytes(log[i])
                   && Replayed(log, i, max, full, tables0, mem0, held0, max0)
    ensures (!held ==> mem == []) && (!paranoid ==> ok)
    ensures Applied(paranoid, ok, false, records + [record], bs, Held(tables, mem))
    ensures w ==> ok && Replayed(log, i + 1, max, full, tables, mem, held, maxSequence)
  {
    hide BatchBytes, Held, Replay, LastOf, Includes, AllRead, NoBatch, IsBatch, Number;
    tables, mem, held, maxSequence, bs := tables0, mem0, held0, max0, bs0;
    ghost var all := records + [record];
    if w { OneMoreReplayed(log, i, max); }
    if |record| < HEADER {
      ok := !paranoid;
      ShortIsNoBatch(record);
      NothingMore(records, Held(tables, mem), record);
      assert all[|records|] == record;
    } else {
      var good, entries, first, count := InsertInto(record, if w then log[i] else Record(0, [], false));
      HeldMore(tables, mem, entries);
      IncludesMore(records, Held(tables, mem), record, entries);
      if good {
        ghost var b :| IsBatch(record, b) && entries == Number(b.ops, b.first);
        if paranoid { ReadMore(records, bs, Held(tables, mem), record, b); }
        bs := bs + [b];
      } else {
        BadBatch(record, good, entries);
        assert all[|records|] == record;
      }
      mem, held := mem + entries, true;
      ok := good || !paranoid;
      var last := (first + count + WORD64 - 1) % WORD64;
      if ok && last > maxSequence {
        maxSequence := last;
      }
      if ok && full(i) {
        HeldMore(tables, mem, []);
        tables, mem, held := tables + [mem], [], false;
      }
    }
  }

  lemma NothingMore(records: seq<Bytes>, held: seq<Numbered>, rep: Bytes)
    requires Includes(records, held) && NoBatch(rep)
    ensures Includes(records + [rep], held)
  {
    hide IsBatch, Number;
    IncludesMore(records, held, rep, []);
    assert held + [] == held;
  }

  lemma BadBatch(rep: Bytes, good: bool, entries: seq<Numbered>)
    requires !good && forall b :: IsBatch(rep, b) ==> good && entries == Number(b.ops, b.first)
    ensures NoBatch(rep)
  {
    hide IsBatch;
  }

  lemma OneMoreReplayed(log: seq<Record>, i: nat, m: nat)
    requires AllStorable(log) && i < |log|
    ensures Storable(log[i]) && Replay(log[..i + 1]) == Replay(log[..i]) + Number(log[i].ops, log[i].first)
    ensures var before, last := LastOf(log[..i], m), log[i].first + |log[i].ops| - 1;
              LastOf(log[..i + 1], m) == if last > before then last else before
  {
    assert log[..i + 1][..i] == log[..i];
  }

  // ---- A crash during group commit ----

  /** The bytes left hold every record that was synced. */
  ghost predicate SyncedInside(crc: Log.Checksum, log: seq<Record>, n: nat)
    requires AllStorable(log)
  {
    forall r :: 0 <= r < |log| && log[r].synced ==> |Log.Written(crc, 0, Batches(log)[..r + 1])| <= n
  }

  lemma SyncedSurvive(crc: Log.Checksum, log: seq<Record>, n: nat)
    requires AllStorable(log) && SyncedInside(crc, log, n)
    ensures Survive(log, Log.Whole(crc, 0, Batches(log), n))
  {
    hide Log.Written, Log.Whole, BatchBytes;
    forall r | 0 <= r < |log| && log[r].synced ensures r < Log.Whole(crc, 0, Batches(log), n) {
      Log.WholeIsContained(crc, 0, Batches(log), n, r);
    }
  }

  /** The operation `x` of the i-th writer served, under its number. */
  ghost predicate IsDurable(s: State, i: nat, x: nat) {
    && i < |s.served| && s.served[i].attempted && s.served[i].ok && s.served[i].durable
    && x < |OpsOf(s.served[i].w)|
  }

  /** Every durable operation is there. */
  ghost predicate HasDurable(s: State, entries: seq<Numbered>) {
    forall i: nat, x: nat :: IsDurable(s, i, x) ==> DurableOp(s, i, x) in entries
  }

  ghost function DurableOp(s: State, i: nat, x: nat): Numbered
    requires IsDurable(s, i, x)
  {
    Numbered(FirstOf(s.served, i) + x, OpsOf(s.served[i].w)[x])
  }

  lemma SurvivorsHaveDurable(s: State, k: nat)
    requires Inv(s) && Survive(s.log, k)
    ensures HasDurable(s, Replay(s.log[..k]))
  {
    hide Inv, Replay, FirstOf, OpsOf;
    forall i: nat, x: nat | IsDurable(s, i, x) ensures DurableOp(s, i, x) in Replay(s.log[..k]) {
      DurableSurvives(s, k, i, x);
    }
  }

  /**
   * A crash at any moment of group commit, leaving the log cut at any byte past
   * its synced records: recovery gives back every operation of every durable
   * writer under its number, and nothing that was not logged.
   */
  method RecoverAfterCrash(crc: Log.Checksum, contents: Bytes, paranoid: bool, reuse: bool, full: nat -> bool,
                           ghost s: State)
    returns (ok: bool, entries: seq<Numbered>, last: nat)
    requires Inv(s) && AllStorable(s.log)
    requires contents <= Log.Written(crc, 0, Batches(s.log)) && SyncedInside(crc, s.log, |contents|)
    ensures ok && HasDurable(s, entries) && forall x :: x in entries ==> x.sequence <= last
    ensures var k := Log.Whole(crc, 0, Batches(s.log), |contents|); entries == Replay(s.log[..k])
  {
    hide Inv, Log.Written, Log.Whole, Batches, Replay, AllStorable, SyncedInside, HasDurable, Held, Applied;
    var tables, mem;
    ghost var records, bs, corrupt;
    ok, tables, mem, last, records, bs, corrupt := RecoverLogFile(crc, contents, paranoid, reuse, full, 0, s.log);
    entries := Held(tables, mem);
    SyncedSurvive(crc, s.log, |contents|);
    ghost var k := Log.Whole(crc, 0, Batches(s.log), |contents|);
    SurvivorsHaveDurable(s, k);
    assert AllStorable(s.log[..k]) by { StorablePrefix(s.log, k); }
    LastCovers(s.log[..k], 0);
  }

  lemma StorablePrefix(log: seq<Record>, k: nat)
    requires AllStorable(log) && k <= |log|
    ensures AllStorable(log[..k])
  {
  }
}
