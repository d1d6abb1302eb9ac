/**
 * The plain reference of the database: a map from keys to values that every
 * write batch updates.  Reads of the engine are lookups in the map as it stood
 * at their read point (db/db_impl.cc, db/write_batch.cc).
 */
module Store {
  import opened DbFormat
  import opened Version
  import opened Engine
  import opened EngineProofs

  type Map = map<UserKey, Bytes>

  function ValueIn(m: Map, k: UserKey): Option<Bytes> {
    if k in m then Some(m[k]) else None
  }

  function ApplyWrite(m: Map, w: Write): Map {
    if w.value.Some? then m[w.key := w.value.value] else m - {w.key}
  }

  function ApplyBatch(m: Map, batch: seq<Write>): Map {
    if batch == [] then m else ApplyWrite(ApplyBatch(m, batch[..|batch| - 1]), batch[|batch| - 1])
  }

  /** A batch gives every key the value of its last write to it. */
  lemma {:induction false} LastWriteStays(m: Map, batch: seq<Write>, i: nat)
    requires i < |batch| && LastOfKey(batch, i)
    ensures ValueIn(ApplyBatch(m, batch), batch[i].key) == batch[i].value
  {
    var n := |batch| - 1;
    if i == n {
    } else {
      LastWriteStays(m, batch[..n], i);
      assert batch[n].key != batch[i].key;
    }
  }

  /** It leaves the keys it does not write. */
  lemma {:induction false} OthersStay(m: Map, batch: seq<Write>, k: UserKey)
    requires forall i :: 0 <= i < |batch| ==> batch[i].key != k
    ensures ValueIn(ApplyBatch(m, batch), k) == ValueIn(m, k)
  {
    if batch == [] {
    } else {
      OthersStay(m, batch[..|batch| - 1], k);
    }
  }

  /** No later write of the batch has the key of the i-th. */
  predicate LastOfKey(batch: seq<Write>, i: nat)
    requires i < |batch|
  {
    forall j :: i < j < |batch| ==> batch[j].key != batch[i].key
  }

  /** Every lookup at the snapshot answers as the map does. */
  ghost predicate Shows(entries: set<Entry>, snapshot: nat, m: Map) {
    forall k, r :: Answers(entries, k, snapshot, r) <==> r == ValueIn(m, k)
  }

  lemma EmptyShows(snapshot: nat)
    ensures Shows({}, snapshot, map[])
  {
  }

  /** One more write, numbered after all entries. */
  lemma OneWriteShows(entries: set<Entry>, last: nat, m: Map, w: Write)
    requires Shows(entries, last, m) && forall e :: e in entries ==> e.ikey.sequence <= last
    ensures Shows(entries + {WriteEntry(w, last + 1)}, last + 1, ApplyWrite(m, w))
  {
    var top, e, m' := last + 1, WriteEntry(w, last + 1), ApplyWrite(m, w);
    var more := entries + {e};
    forall k, r ensures Answers(more, k, top, r) <==> r == ValueIn(m', k) {
      if k == w.key {
        assert IsNewest(more, k, top, e);
        assert forall x :: IsNewest(more, k, top, x) ==> x == e;
      } else {
        assert forall x :: IsNewest(more, k, top, x) <==> IsNewest(entries, k, last, x);
        assert Answers(more, k, top, r) <==> Answers(entries, k, last, r);
      }
    }
  }

  /** A batch numbered after all entries shows the map with the batch applied. */
  lemma {:induction false} BatchShows(entries: set<Entry>, last: nat, m: Map, batch: seq<Write>)
    requires Shows(entries, last, m) && forall e :: e in entries ==> e.ikey.sequence <= last
    ensures Shows(entries + BatchEntries(batch, last + 1), last + |batch|, ApplyBatch(m, batch))
  {
    hide Shows, BatchEntries, WriteEntry, ApplyWrite;
    if batch == [] {
      NoEntries(last + 1);
      assert entries + BatchEntries(batch, last + 1) == entries;
    } else {
      var n := |batch| - 1;
      var before := entries + BatchEntries(batch[..n], last + 1);
      BatchShows(entries, last, m, batch[..n]);
      LastEntry(batch, last + 1);
      BatchEntriesFresh(batch[..n], last + 1);
      OneWriteShows(before, last + n, ApplyBatch(m, batch[..n]), batch[n]);
      assert entries + BatchEntries(batch, last + 1) == before + {WriteEntry(batch[n], last + n + 1)};
    }
  }

  lemma NoEntries(first: nat)
    ensures BatchEntries([], first) == {}
  {
  }

  lemma LastEntry(batch: seq<Write>, first: nat)
    requires batch != []
    ensures var n := |batch| - 1;
              BatchEntries(batch, first) == BatchEntries(batch[..n], first) + {WriteEntry(batch[n], first + n)}
  {
    hide WriteEntry;
    var n := |batch| - 1;
    forall i | 0 <= i < n ensures batch[..n][i] == batch[i] {}
  }

  /** Later entries, and numbers no entry has, change nothing. */
  lemma ShowsLater(entries: set<Entry>, more: set<Entry>, snapshot: nat, m: Map)
    requires Shows(entries, snapshot, m) && forall e :: e in more ==> e.ikey.sequence > snapshot
    ensures Shows(entries + more, snapshot, m)
  {
    hide Answers;
    forall k, r ensures Answers(entries + more, k, snapshot, r) <==> r == ValueIn(m, k) {
      LaterWritesInvisible(entries, more, k, snapshot, r);
    }
  }

  lemma ShowsHigher(entries: set<Entry>, last: nat, higher: nat, m: Map)
    requires Shows(entries, last, m) && last <= higher && forall e :: e in entries ==> e.ikey.sequence <= last
    ensures Shows(entries, higher, m)
  {
    forall k, r ensures Answers(entries, k, higher, r) <==> Answers(entries, k, last, r) {
      assert forall x :: IsNewest(entries, k, higher, x) <==> IsNewest(entries, k, last, x);
    }
  }

  // ---- Whole runs ----

  /** The map after the first `n` steps: only writes that were logged change it. */
  ghost function StoreAt(steps: seq<Step>, n: nat): Map
    requires n <= |steps|
  {
    if n == 0 then map[]
    else if steps[n - 1].DoWrite? then ApplyBatch(StoreAt(steps, n - 1), steps[n - 1].batch)
    else StoreAt(steps, n - 1)
  }

  /** What a step does to the history. */
  lemma HistoryStep(s: State, step: Step, s': State)
    requires |s.version| == NUM_LEVELS && Next(s, step, s')
    ensures s.lastSequence <= s'.lastSequence
    ensures step.DoWrite? ==> s'.history == s.history + BatchEntries(step.batch, s.lastSequence + 1)
                              && s'.lastSequence == s.lastSequence + |step.batch|
    ensures !step.DoWrite? ==> s'.history == s.history
  {
    hide BatchEntries;
  }

  lemma {:induction false} HistoryShows(states: seq<State>, steps: seq<Step>, m: nat, n: nat)
    requires Run(states, steps) && m <= n < |states|
    ensures forall e :: e in states[n].history ==> e.ikey.sequence <= states[n].lastSequence
    ensures states[m].lastSequence <= states[n].lastSequence
    ensures Shows(states[n].history, states[m].lastSequence, StoreAt(steps, m))
    decreases n, m
  {
    hide Next, Shows, BatchEntries;
    if n == 0 {
      EmptyShows(0);
    } else {
      var s, step, s' := states[n - 1], steps[n - 1], states[n];
      HistoryStep(s, step, s');
      if step.DoWrite? { BatchEntriesFresh(step.batch, s.lastSequence + 1); }
      if m < n {
        HistoryShows(states, steps, m, n - 1);
        if step.DoWrite? {
          ShowsLater(s.history, BatchEntries(step.batch, s.lastSequence + 1), states[m].lastSequence,
              StoreAt(steps, m));
        }
      } else {
        HistoryShows(states, steps, n - 1, n - 1);
        if step.DoWrite? {
          BatchShows(s.history, s.lastSequence, StoreAt(steps, n - 1), step.batch);
        } else {
          ShowsHigher(s.history, s.lastSequence, s'.lastSequence, StoreAt(steps, n - 1));
        }
      }
    }
  }

  /**
   * In every state of every run with clean compactions, a read at the point where
   * an earlier state stood, if it is still live, is a lookup in the map as it was
   * then.
   */
  lemma RunReadsStore(states: seq<State>, steps: seq<Step>, m: nat, n: nat)
    requires Run(states, steps) && SafeRun(states, steps) && m <= n < |states|
    requires ReadPoint(states[n], states[m].lastSequence)
    ensures Shows(Contents(states[n]), states[m].lastSequence, StoreAt(steps, m))
  {
    hide Next, SafeRun, Answers, Contents, StoreAt;
    HistoryShows(states, steps, m, n);
    forall k, r
      ensures Answers(Contents(states[n]), k, states[m].lastSequence, r) <==> r == ValueIn(StoreAt(steps, m), k)
    {
      RunRefinesHistory(states, steps, n, k, states[m].lastSequence, r);
    }
  }
}
