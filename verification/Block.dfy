/**
 * Blocks of prefix-compressed entries with restart points: the builder
 * (table/block_builder.cc) and the iterator (table/block.cc).  A comparator is
 * given by the rank of each key; `Bytewise.RankEmbeds` and
 * `Bytewise.KeyRankEmbeds` give those of the comparators in use.
 */
module Block {
  import opened DbFormat
  import opened Coding

  datatype Row = Row(key: Bytes, value: Bytes)

  type Ranking = Bytes -> real

  ghost predicate Increasing(rank: Ranking, rows: seq<Row>) {
    forall i, j :: 0 <= i < j < |rows| ==> rank(rows[i].key) < rank(rows[j].key)
  }

  // ---- Layout ----

  /** Length of the longest common prefix. */
  function CommonPrefix(a: Bytes, b: Bytes): (n: nat)
    ensures n <= |a| && n <= |b| && a[..n] == b[..n]
    ensures n < |a| && n < |b| ==> a[n] != b[n]
  {
    if a == [] || b == [] || a[0] != b[0] then 0
    else
      var n := CommonPrefix(a[1..], b[1..]);
      assert a[..n + 1] == [a[0]] + a[1..][..n] && b[..n + 1] == [b[0]] + b[1..][..n];
      n + 1
  }

  /** An entry that takes the first `shared` bytes of its key from its predecessor. */
  function EntryBytes(shared: nat, row: Row): Bytes
    requires shared <= |row.key|
  {
    Varint(shared) + Varint(|row.key| - shared) + Varint(|row.value|) + row.key[shared..] + row.value
  }

  /** Where the entries start, how much each shares, and which ones are restart points. */
  datatype Plan = Plan(offs: seq<nat>, shared: seq<nat>, restartRows: seq<nat>)

  ghost predicate EntryAt(data: Bytes, a: nat, b: nat, shared: nat, row: Row) {
    a <= b <= |data| && shared <= |row.key| && data[a..b] == EntryBytes(shared, row)
  }

  /** Each entry lies at its offset and shares only what its predecessor has. */
  ghost predicate Laid(data: Bytes, rows: seq<Row>, plan: Plan) {
    && |plan.offs| == |rows| + 1 && |plan.shared| == |rows|
    && plan.offs[0] == 0 && plan.offs[|rows|] == |data|
    && (forall i :: 0 <= i < |rows| ==> EntryAt(data, plan.offs[i], plan.offs[i + 1], plan.shared[i], rows[i]))
    && (forall i :: 0 <= i < |rows| ==> SharesWith(LastKey(rows[..i]), plan.shared[i], rows[i]))
  }

  ghost predicate SharesWith(previous: Bytes, shared: nat, row: Row) {
    shared <= |previous| && shared <= |row.key| && previous[..shared] == row.key[..shared]
  }

  /** Restart points start at the first entry, rise, and share nothing. */
  ghost predicate RestartsRise(rows: seq<Row>, plan: Plan) {
    && |plan.shared| == |rows|
    && plan.restartRows != [] && plan.restartRows[0] == 0 && Rising(plan.restartRows)
    && (if rows == [] then |plan.restartRows| == 1 else SharesNone(plan.shared, plan.restartRows))
  }

  ghost predicate Rising(ns: seq<nat>) {
    forall i, j :: 0 <= i < j < |ns| ==> ns[i] < ns[j]
  }

  /** The entries named by `ns` share nothing. */
  ghost predicate SharesNone(shared: seq<nat>, ns: seq<nat>) {
    forall j :: 0 <= j < |ns| ==> ns[j] < |shared| && shared[ns[j]] == 0
  }

  /** Restart points are `interval` entries apart; the entries between them share all they can. */
  ghost predicate Regular(rows: seq<Row>, plan: Plan, interval: nat, counter: nat) {
    && |plan.shared| == |rows|
    && plan.restartRows != []
    && |rows| == plan.restartRows[|plan.restartRows| - 1] + counter && counter <= interval
    && (counter == 0 ==> rows == [])
    && Spaced(plan.restartRows, interval)
    && SharesAll(rows, plan)
  }

  ghost predicate Spaced(ns: seq<nat>, interval: nat) {
    forall i, j :: 0 <= i < j < |ns| && j == i + 1 ==> ns[j] == ns[i] + interval
  }

  ghost predicate SharesAll(rows: seq<Row>, plan: Plan)
    requires |plan.shared| == |rows|
  {
    forall i :: 0 <= i < |rows| && i !in plan.restartRows ==>
        plan.shared[i] == CommonPrefix(LastKey(rows[..i]), rows[i].key)
  }

  ghost predicate Recorded(restarts: seq<nat>, plan: Plan) {
    && |restarts| == |plan.restartRows|
    && forall j :: 0 <= j < |restarts| ==>
        plan.restartRows[j] < |plan.offs| && restarts[j] == plan.offs[plan.restartRows[j]]
  }

  /** The plan with one more entry. */
  ghost function Grown(plan: Plan, restart: bool, shared: nat, end: nat): Plan {
    Plan(plan.offs + [end], plan.shared + [shared],
         if restart then plan.restartRows + [|plan.shared|] else plan.restartRows)
  }

  ghost function LastKey(rows: seq<Row>): Bytes {
    if rows == [] then [] else rows[|rows| - 1].key
  }

  lemma EntryKept(data: Bytes, more: Bytes, a: nat, b: nat, shared: nat, row: Row)
    requires EntryAt(data, a, b, shared, row) && data <= more
    ensures EntryAt(more, a, b, shared, row)
  {
  }

  lemma EntryAfterGrowth(data: Bytes, rows: seq<Row>, plan: Plan, shared: nat, row: Row, i: nat)
    requires Laid(data, rows, plan) && shared <= |row.key| && i <= |rows|
    ensures var more, all := data + EntryBytes(shared, row), rows + [row];
            var offs, shares := plan.offs + [|more|], plan.shared + [shared];
              EntryAt(more, offs[i], offs[i + 1], shares[i], all[i])
  {
    hide SharesWith, EntryBytes, LastKey;
    var more := data + EntryBytes(shared, row);
    if i < |rows| {
      assert EntryAt(data, plan.offs[i], plan.offs[i + 1], plan.shared[i], rows[i]);
      EntryKept(data, more, plan.offs[i], plan.offs[i + 1], plan.shared[i], rows[i]);
    } else {
      assert more[|data|..|more|] == EntryBytes(shared, row);
    }
  }

  lemma ShareAfterGrowth(data: Bytes, rows: seq<Row>, plan: Plan, shared: nat, row: Row, i: nat)
    requires Laid(data, rows, plan) && SharesWith(LastKey(rows), shared, row) && i <= |rows|
    ensures SharesWith(LastKey((rows + [row])[..i]), (plan.shared + [shared])[i], (rows + [row])[i])
  {
    hide SharesWith, EntryAt, LastKey;
    assert (rows + [row])[..i] == rows[..i];
    if i < |rows| {
      assert SharesWith(LastKey(rows[..i]), plan.shared[i], rows[i]);
    } else {
      assert rows[..i] == rows;
    }
  }

  lemma LaidGrows(data: Bytes, rows: seq<Row>, plan: Plan, restart: bool, shared: nat, row: Row)
    requires Laid(data, rows, plan) && shared <= |row.key| && SharesWith(LastKey(rows), shared, row)
    ensures var more := data + EntryBytes(shared, row);
              Laid(more, rows + [row], Grown(plan, restart, shared, |more|))
  {
    hide SharesWith, EntryBytes, EntryAt, LastKey;
    var more := data + EntryBytes(shared, row);
    var all, p := rows + [row], Grown(plan, restart, shared, |more|);
    forall i | 0 <= i < |all| ensures EntryAt(more, p.offs[i], p.offs[i + 1], p.shared[i], all[i]) {
      EntryAfterGrowth(data, rows, plan, shared, row, i);
    }
    forall i | 0 <= i < |all| ensures SharesWith(LastKey(all[..i]), p.shared[i], all[i]) {
      ShareAfterGrowth(data, rows, plan, shared, row, i);
    }
  }

  lemma RestartsGrow(rows: seq<Row>, plan: Plan, restart: bool, shared: nat, row: Row, end: nat)
    requires RestartsRise(rows, plan)
    requires (restart || rows == []) ==> shared == 0
    requires restart ==> plan.restartRows[|plan.restartRows| - 1] < |rows|
    ensures RestartsRise(rows + [row], Grown(plan, restart, shared, end))
  {
    hide Rising, SharesNone;
    if rows == [] {
      OnlyFirst(plan.restartRows, plan.shared + [shared]);
    } else {
      SharesNoneGrows(plan.shared, plan.restartRows, shared, restart);
    }
    if restart {
      RisingGrows(plan.restartRows, |plan.shared|);
    }
  }

  lemma OnlyFirst(ns: seq<nat>, shared: seq<nat>)
    requires |ns| == 1 && ns[0] == 0 && shared != [] && shared[0] == 0
    ensures SharesNone(shared, ns)
  {
  }

  lemma SharesNoneGrows(shared: seq<nat>, ns: seq<nat>, next: nat, restart: bool)
    requires SharesNone(shared, ns) && (restart ==> next == 0)
    ensures SharesNone(shared + [next], if restart then ns + [|shared|] else ns)
  {
  }

  lemma RisingGrows(ns: seq<nat>, next: nat)
    requires Rising(ns) && (ns != [] ==> ns[|ns| - 1] < next)
    ensures Rising(ns + [next])
  {
    var more := ns + [next];
    forall i, j | 0 <= i < j < |more| ensures more[i] < more[j] {
      if j == |ns| && i < |ns| - 1 {
        assert ns[i] < ns[|ns| - 1];
      }
    }
  }

  lemma RegularGrows(rows: seq<Row>, plan: Plan, interval: nat, counter: nat, shared: nat, row: Row, end: nat)
    requires Regular(rows, plan, interval, counter) && RestartsRise(rows, plan) && interval >= 1
    requires counter < interval ==> shared == CommonPrefix(LastKey(rows), row.key)
    ensures var restart := counter == interval;
              Regular(rows + [row], Grown(plan, restart, shared, end), interval, if restart then 1 else counter + 1)
  {
    hide CommonPrefix, LastKey, SharesAll;
    SharesAllGrows(rows, plan, counter == interval, shared, row, end);
  }

  lemma SharesAllGrows(rows: seq<Row>, plan: Plan, restart: bool, shared: nat, row: Row, end: nat)
    requires |plan.shared| == |rows| && SharesAll(rows, plan)
    requires !restart ==> shared == CommonPrefix(LastKey(rows), row.key)
    ensures SharesAll(rows + [row], Grown(plan, restart, shared, end))
  {
    hide CommonPrefix, LastKey;
    var all, p := rows + [row], Grown(plan, restart, shared, end);
    forall i | 0 <= i < |all| && i !in p.restartRows
      ensures p.shared[i] == CommonPrefix(LastKey(all[..i]), all[i].key)
    {
      assert all[..i] == rows[..i];
    }
  }

  lemma RecordedGrows(restarts: seq<nat>, data: Bytes, rows: seq<Row>, plan: Plan, restart: bool, shared: nat, end: nat)
    requires Recorded(restarts, plan) && Laid(data, rows, plan)
    ensures Recorded(if restart then restarts + [|data|] else restarts, Grown(plan, restart, shared, end))
  {
  }

  // ---- Builder ----

  ghost predicate Built(buffer: Bytes, restarts: seq<nat>, counter: nat, lastKey: Bytes, interval: nat,
                        rows: seq<Row>, plan: Plan) {
    && interval >= 1
    && Laid(buffer, rows, plan)
    && RestartsRise(rows, plan)
    && Regular(rows, plan, interval, counter)
    && Recorded(restarts, plan)
    && lastKey == LastKey(rows)
  }

  /** How much of the next key is left out. */
  function NextShared(lastKey: Bytes, counter: nat, interval: nat, key: Bytes): nat {
    if counter < interval then CommonPrefix(lastKey, key) else 0
  }

  lemma BuiltGrows(buffer: Bytes, restarts: seq<nat>, counter: nat, lastKey: Bytes, interval: nat, rows: seq<Row>,
                   plan: Plan, row: Row)
    requires Built(buffer, restarts, counter, lastKey, interval, rows, plan)
    ensures counter <= interval
    ensures var shared, restart := NextShared(lastKey, counter, interval, row.key), counter == interval;
              && shared <= |row.key| && shared <= |lastKey|
              && var more := buffer + EntryBytes(shared, row);
                 Built(more, if restart then restarts + [|buffer|] else restarts, if restart then 1 else counter + 1,
                       lastKey[..shared] + row.key[shared..], interval, rows + [row],
                           Grown(plan, restart, shared, |more|))
  {
    hide Laid, RestartsRise, EntryBytes, Regular, Recorded, SharesWith, LastKey, CommonPrefix, Grown;
    var shared, restart := NextShared(lastKey, counter, interval, row.key), counter == interval;
    CounterRange(rows, plan, interval, counter);
    Sharing(LastKey(rows), shared, row);
    var end := |buffer + EntryBytes(shared, row)|;
    LaidGrows(buffer, rows, plan, restart, shared, row);
    RecordedGrows(restarts, buffer, rows, plan, restart, shared, end);
    RestartsGrow(rows, plan, restart, shared, row, end);
    RegularGrows(rows, plan, interval, counter, shared, row, end);
    LastAdded(rows, row, shared);
  }

  class BlockBuilder {
    const interval: nat
    var buffer: Bytes
    var restarts: seq<nat>
    var counter: nat
    var lastKey: Bytes
    ghost var rows: seq<Row>
    ghost var plan: Plan

    ghost predicate Valid()
      reads this
    {
      Built(buffer, restarts, counter, lastKey, interval, rows, plan)
    }

    constructor (interval: nat)
      requires interval >= 1
      ensures Valid() && rows == [] && this.interval == interval
    {
      this.interval := interval;
      buffer, restarts, counter, lastKey := [], [0], 0, [];
      rows, plan := [], Plan([0], [], [0]);
    }

    method Add(key: Bytes, value: Bytes)
      requires Valid()
      modifies this
      ensures Valid() && rows == old(rows) + [Row(key, value)]
    {
      hide Built, EntryBytes, CommonPrefix, Grown;
      BuiltGrows(buffer, restarts, counter, lastKey, interval, rows, plan, Row(key, value));
      ghost var restart := counter == interval;
      var shared := 0;
      if counter < interval {
        shared := CountShared(lastKey, key);
      } else {
        restarts := restarts + [|buffer|];
        counter := 0;
      }
      AppendEntry(shared, key, value);
      lastKey := lastKey[..shared] + key[shared..];
      counter := counter + 1;
      rows, plan := rows + [Row(key, value)], Grown(plan, restart, shared, |buffer|);
    }

    /** Writes the three lengths, the rest of the key and the value. */
    method AppendEntry(shared: nat, key: Bytes, value: Bytes)
      requires shared <= |key|
      modifies this`buffer
      ensures buffer == old(buffer) + EntryBytes(shared, Row(key, value))
    {
      hide Varint;
      buffer := EncodeVarint(buffer, shared);
      buffer := EncodeVarint(buffer, |key| - shared);
      buffer := EncodeVarint(buffer, |value|);
      buffer := buffer + key[shared..];
      buffer := buffer + value;
    }

    /** Appends the restart array and its length. */
    method Finish() returns (contents: Bytes)
      requires Valid()
      modifies this
      ensures rows == old(rows) && plan == old(plan) && restarts == old(restarts)
      ensures old(buffer) <= contents && |contents| == |old(buffer)| + 4 * |restarts| + 4
      ensures |old(buffer)| < WORD && |restarts| < WORD ==> Finished(contents, |old(buffer)|, |restarts|, rows, plan)
    {
      hide Laid, RestartsRise, Regular;
      RestartsSmall(restarts, buffer, rows, plan);
      contents := PutWords(buffer, restarts + [|restarts|]);
      if |buffer| < WORD && |restarts| < WORD {
        FinishedIs(contents, buffer, restarts, rows, plan);
      }
      buffer := contents;
    }
  }

  /** The loop that measures the shared prefix. */
  method CountShared(a: Bytes, b: Bytes) returns (n: nat)
    ensures n == CommonPrefix(a, b)
  {
    var min := if |a| < |b| then |a| else |b|;
    n := 0;
    while n < min && a[n] == b[n]
      invariant n <= min && n + CommonPrefix(a[n..], b[n..]) == CommonPrefix(a, b)
    {
      n := n + 1;
    }
  }

  lemma Sharing(last: Bytes, shared: nat, row: Row)
    requires shared == 0 || shared == CommonPrefix(last, row.key)
    ensures shared <= |row.key| && SharesWith(last, shared, row)
    ensures last == [] ==> shared == 0
  {
  }

  lemma LastAdded(rows: seq<Row>, row: Row, shared: nat)
    requires SharesWith(LastKey(rows), shared, row)
    ensures shared <= |LastKey(rows)| && shared <= |row.key|
    ensures LastKey(rows)[..shared] + row.key[shared..] == LastKey(rows + [row])
  {
  }

  lemma CounterRange(rows: seq<Row>, plan: Plan, interval: nat, counter: nat)
    requires Regular(rows, plan, interval, counter) && interval >= 1 && RestartsRise(rows, plan)
    ensures counter <= interval
    ensures counter == interval ==> plan.restartRows[|plan.restartRows| - 1] < |rows|
    ensures rows == [] ==> LastKey(rows) == [] && counter < interval
  {
  }

  lemma RestartsSmall(restarts: seq<nat>, data: Bytes, rows: seq<Row>, plan: Plan)
    requires Recorded(restarts, plan) && Laid(data, rows, plan)
    ensures forall j :: 0 <= j < |restarts| ==> restarts[j] <= |data|
  {
    hide EntryBytes, SharesWith;
    forall j | 0 <= j < |restarts| ensures restarts[j] <= |data| {
      var i := plan.restartRows[j];
      assert i < |rows| ==> EntryAt(data, plan.offs[i], plan.offs[i + 1], plan.shared[i], rows[i]);
    }
  }

  /** A finished block: entries up to `size`, then the offsets of the restart points, then their number. */
  ghost predicate Finished(contents: Bytes, size: nat, num: nat, rows: seq<Row>, plan: Plan) {
    && size < WORD
    && num == |plan.restartRows|
    && |contents| == size + 4 * num + 4
    && DecodeFixed32(contents[|contents| - 4..]) == num
    && Laid(contents[..size], rows, plan)
    && RestartsRise(rows, plan)
    && forall j :: 0 <= j < num ==> RestartAt(contents, size, plan, j)
  }

  ghost predicate RestartAt(contents: Bytes, size: nat, plan: Plan, j: nat) {
    && j < |plan.restartRows| && plan.restartRows[j] < |plan.offs|
    && size + 4 * j + 4 <= |contents|
    && DecodeFixed32(contents[size + 4 * j..size + 4 * j + 4]) == plan.offs[plan.restartRows[j]]
  }

  lemma FinishedIs(contents: Bytes, buffer: Bytes, restarts: seq<nat>, rows: seq<Row>, plan: Plan)
    requires Laid(buffer, rows, plan) && RestartsRise(rows, plan) && Recorded(restarts, plan)
    requires |buffer| < WORD && |restarts| < WORD
    requires Small(restarts + [|restarts|]) && contents == buffer + Words(restarts + [|restarts|])
    ensures Finished(contents, |buffer|, |restarts|, rows, plan)
  {
    hide Laid, RestartsRise, Words, Fixed32, DecodeFixed32;
    var ns, size := restarts + [|restarts|], |buffer|;
    forall i | 0 <= i < |ns|
      ensures DecodeFixed32(contents[size + 4 * i..size + 4 * i + 4]) == ns[i]
    {
      WordAt(ns, i);
      assert contents[size + 4 * i..size + 4 * i + 4] == Words(ns)[4 * i..4 * i + 4];
      Fixed32RoundTrip(ns[i]);
    }
    var n := |restarts|;
    assert contents[|contents| - 4..] == contents[size + 4 * n..size + 4 * n + 4];
    assert ns[n] == |restarts|;
    forall j | 0 <= j < n ensures RestartAt(contents, size, plan, j) {
      assert ns[j] == restarts[j];
    }
  }

  // ---- Iterator ----

  /** The three lengths of an entry and where its key bytes start. */
  datatype Header = Header(shared: nat, nonShared: nat, valueLength: nat, keyAt: nat)

  function ParseHeader(data: Bytes, p: nat): (r: Option<Header>)
    requires p <= |data|
  {
    match ParseVarint(data, p, VARINT32)
    case None => None
    case Some(a) =>
      match ParseVarint(data, a.next, VARINT32)
      case None => None
      case Some(b) =>
        match ParseVarint(data, b.next, VARINT32)
        case None => None
        case Some(c) =>
          if |data| - c.next < (b.value + c.value) % WORD then None
          else Some(Header(a.value, b.value, c.value, c.next))
  }

  /** DecodeEntry: the one-byte fast path and the general path agree. */
  method DecodeEntry(data: Bytes, p: nat) returns (r: Option<Header>)
    requires p <= |data|
    ensures r == ParseHeader(data, p)
  {
    hide ParseVarint, Digit;
    if |data| - p < 3 {
      TooShort(data, p);
      return None;
    }
    var shared, nonShared, valueLength, q := data[p], data[p + 1], data[p + 2], p + 3;
    if shared < 128 && nonShared < 128 && valueLength < 128 {
      ParseStep(data, p, VARINT32);
      ParseStep(data, p + 1, VARINT32);
      ParseStep(data, p + 2, VARINT32);
      if |data| - q < (nonShared as int + valueLength as int) % WORD {
        return None;
      }
      return Some(Header(shared, nonShared, valueLength, q));
    }
    var a := GetVarint(data, p, VARINT32);
    if a == None { return None; }
    var b := GetVarint(data, a.value.next, VARINT32);
    if b == None { return None; }
    var c := GetVarint(data, b.value.next, VARINT32);
    if c == None { return None; }
    if |data| - c.value.next < (b.value.value + c.value.value) % WORD {
      return None;
    }
    return Some(Header(a.value.value, b.value.value, c.value.value, c.value.next));
  }

  /** Three numbers need three bytes. */
  lemma TooShort(data: Bytes, p: nat)
    requires p <= |data| < p + 3
    ensures ParseHeader(data, p) == None
  {
  }

  /** An entry that was laid out is parsed back. */
  lemma EntryParses(data: Bytes, a: nat, b: nat, shared: nat, row: Row)
    requires EntryAt(data, a, b, shared, row) && |data| < WORD && shared < WORD
    ensures var n, v := |row.key| - shared, |row.value|; var q := b - n - v;
              && a + 3 <= q && ParseHeader(data, a) == Some(Header(shared, n, v, q))
              && data[q..q + n] == row.key[shared..] && data[q + n..b] == row.value
  {
    hide ParseHeader, Varint;
    var n, v := |row.key| - shared, |row.value|;
    var x, y, z := Varint(shared), Varint(n), Varint(v);
    var e := EntryBytes(shared, row);
    var h := |x| + |y| + |z|;
    Pieces(x, y, z, row.key[shared..], row.value);
    Within(data, a, b, e, 0, |x|);
    Within(data, a, b, e, |x|, |x| + |y|);
    Within(data, a, b, e, |x| + |y|, h);
    Within(data, a, b, e, h, h + n);
    Within(data, a, b, e, h + n, |e|);
    HeaderParses(data, a, shared, n, v);
  }

  lemma Pieces(x: Bytes, y: Bytes, z: Bytes, k: Bytes, v: Bytes)
    ensures var e := x + y + z + k + v; var h := |x| + |y| + |z|;
              && e[0..|x|] == x && e[|x|..|x| + |y|] == y && e[|x| + |y|..h] == z
              && e[h..h + |k|] == k && e[h + |k|..] == v && e[h + |k|..|e|] == v
  {
  }

  lemma HeaderParses(data: Bytes, a: nat, shared: nat, n: nat, v: nat)
    requires |data| < WORD && shared < WORD
    requires var x, y, z := Varint(shared), Varint(n), Varint(v);
             var p, q, r := a + |x|, a + |x| + |y|, a + |x| + |y| + |z|;
               r + n + v <= |data| && data[a..p] == x && data[p..q] == y && data[q..r] == z
    ensures ParseHeader(data, a) == Some(Header(shared, n, v, a + |Varint(shared)| + |Varint(n)| + |Varint(v)|))
  {
    hide ParseVarint, ParseHeader, Varint, Limit;
    LimitsOfWidths();
    var p := a + |Varint(shared)|;
    var q := p + |Varint(n)|;
    VarintRoundTrip(shared, data, a, VARINT32);
    VarintRoundTrip(n, data, p, VARINT32);
    VarintRoundTrip(v, data, q, VARINT32);
    HeaderOf(data, a, Parsed(shared, p), Parsed(n, q), Parsed(v, q + |Varint(v)|));
  }

  lemma HeaderOf(data: Bytes, a: nat, x: Parsed, y: Parsed, z: Parsed)
    requires a <= |data| && ParseVarint(data, a, VARINT32) == Some(x)
    requires x.next <= |data| && ParseVarint(data, x.next, VARINT32) == Some(y)
    requires y.next <= |data| && ParseVarint(data, y.next, VARINT32) == Some(z)
    requires y.value + z.value < WORD && z.next + y.value + z.value <= |data|
    ensures ParseHeader(data, a) == Some(Header(x.value, y.value, z.value, z.next))
  {
    hide ParseVarint;
  }

  lemma Within(data: Bytes, a: nat, b: nat, e: Bytes, i: nat, j: nat)
    requires a <= b <= |data| && data[a..b] == e && i <= j <= |e|
    ensures data[a + i..a + j] == e[i..j]
  {
    forall k | i <= k < j ensures data[a + k] == e[k] {}
  }

  /** A key is no longer than the bytes stored up to its end. */
  lemma {:induction false} KeyFits(data: Bytes, rows: seq<Row>, plan: Plan, i: nat)
    requires Laid(data, rows, plan) && i < |rows|
    ensures |plan.offs| == |rows| + 1 && |plan.shared| == |rows|
    ensures |rows[i].key| <= plan.offs[i + 1]
    ensures plan.shared[i] <= plan.offs[i]
  {
    hide Laid, EntryBytes;
    EntryFits(data, rows, plan, i);
    if i == 0 {
    } else {
      KeyFits(data, rows, plan, i - 1);
    }
  }

  /** What one entry of a block takes, and what it shares with the one before. */
  lemma EntryFits(data: Bytes, rows: seq<Row>, plan: Plan, i: nat)
    requires Laid(data, rows, plan) && i < |rows|
    ensures |plan.offs| == |rows| + 1 && |plan.shared| == |rows|
    ensures plan.offs[i + 1] >= plan.offs[i] + 3 + |rows[i].key| - plan.shared[i]
    ensures if i == 0 then plan.shared[0] == 0 else plan.shared[i] <= |rows[i - 1].key|
  {
    hide EntryBytes;
    assert EntryAt(data, plan.offs[i], plan.offs[i + 1], plan.shared[i], rows[i]);
    EntryLength(plan.shared[i], rows[i]);
    assert SharesWith(LastKey(rows[..i]), plan.shared[i], rows[i]);
  }

  lemma EntryLength(shared: nat, row: Row)
    requires shared <= |row.key|
    ensures |EntryBytes(shared, row)| >= 3 + |row.key| - shared
  {
  }

  lemma {:induction false} OffsetsRise(data: Bytes, rows: seq<Row>, plan: Plan, i: nat, j: nat)
    requires Laid(data, rows, plan) && i <= j <= |rows|
    ensures plan.offs[i] <= plan.offs[j] <= |data|
    ensures i < j ==> plan.offs[i] < plan.offs[j]
    decreases |rows| - i
  {
    hide EntryBytes, SharesWith;
    if i >= |rows| {
    } else {
      assert EntryAt(data, plan.offs[i], plan.offs[i + 1], plan.shared[i], rows[i]);
      EntryLength(plan.shared[i], rows[i]);
      if i < j {
        OffsetsRise(data, rows, plan, i + 1, j);
      } else {
        OffsetsRise(data, rows, plan, i + 1, |rows|);
      }
    }
  }

  /** The entry of row `i`, as the iterator meets it. */
  lemma RowParses(data: Bytes, rows: seq<Row>, plan: Plan, i: nat)
    requires Laid(data, rows, plan) && |data| < WORD && i < |rows|
    ensures var shared, n, v := plan.shared[i], |rows[i].key| - plan.shared[i], |rows[i].value|;
            var b := plan.offs[i + 1];
            var q := b - n - v;
              && 0 <= n && plan.offs[i] < q && b <= |data|
                  && ParseHeader(data, plan.offs[i]) == Some(Header(shared, n, v, q))
              && data[q..q + n] == rows[i].key[shared..] && data[q + n..b] == rows[i].value
  {
    hide ParseHeader, EntryBytes, SharesWith, LastKey;
    KeyFits(data, rows, plan, i);
    EntryParses(data, plan.offs[i], plan.offs[i + 1], plan.shared[i], rows[i]);
  }

  /** A restart entry stores its whole key. */
  lemma RestartParses(data: Bytes, rows: seq<Row>, plan: Plan, j: nat)
    requires Laid(data, rows, plan) && RestartsRise(rows, plan) && |data| < WORD
    requires j < |plan.restartRows| && plan.restartRows[j] < |rows|
    ensures var i := plan.restartRows[j]; plan.shared[i] == 0 && rows[i].key[0..] == rows[i].key
  {
  }

  /**
   * Block::Iter over a finished block.  `at` is the row it stands on, the number
   * of rows when it is not valid.  Valid() shows that the corruption branches are
   * never taken on a finished block.
   */
  class Iter {
    const rank: Ranking
    const contents: Bytes
    const entries: Bytes
    const numRestarts: nat
    var current: nat
    var restartIndex: nat
    var key: Bytes
    var value: Bytes
    var nextOffset: nat    // just past the value
    var corrupt: bool
    ghost const rows: seq<Row>
    ghost const plan: Plan
    ghost var at: nat

    /** The block is well formed and sorted. */
    ghost predicate OnBlock() {
      && entries <= contents && |entries| < WORD
      && Finished(contents, |entries|, numRestarts, rows, plan)
      && Laid(entries, rows, plan)
      && Increasing(rank, rows)
    }

    ghost predicate Stands(i: nat)
      reads this
    {
      && i < |rows| && i + 1 < |plan.offs|
      && current == plan.offs[i] && current < |entries|
      && key == rows[i].key && value == rows[i].value
      && nextOffset == plan.offs[i + 1]
      && restartIndex < numRestarts == |plan.restartRows| && plan.restartRows[restartIndex] <= i
    }

    ghost predicate Valid()
      reads this
    {
      OnBlock() && !corrupt && at <= |rows| && (if at < |rows| then Stands(at) else current == |entries|)
    }

    /** The next call to ParseNextKey will read row `i`. */
    ghost predicate Ready(i: nat)
      reads this
    {
      && !corrupt && i < |plan.offs| && i <= |rows| == |plan.shared|
      && nextOffset == plan.offs[i]
      && restartIndex < numRestarts == |plan.restartRows| && plan.restartRows[restartIndex] <= i
      && (i < |rows| ==> SharesWith(key, plan.shared[i], rows[i]))
    }

    /** Block::NewIterator on a finished block. */
    constructor (rank: Ranking, contents: Bytes, ghost size: nat, ghost rows: seq<Row>, ghost plan: Plan)
      requires |contents| >= 4 && Finished(contents, size, |plan.restartRows|, rows, plan) && Increasing(rank, rows)
      ensures Valid() && at == |rows| && this.rows == rows && this.rank == rank && this.contents == contents
    {
      hide Laid, RestartsRise, Increasing, DecodeFixed32;
      var num := DecodeFixed32(contents[|contents| - 4..]);
      var n := |contents| - (1 + num) * 4;
      this.rank, this.contents := rank, contents;
      this.entries, this.numRestarts := contents[..n], num;
      this.rows, this.plan := rows, plan;
      current, restartIndex, key, value, nextOffset, at := n, num, [], [], 0, |rows|;
      corrupt := false;
    }

    predicate IsValid()
      reads this
    {
      current < |entries|
    }

    /** The iterator is valid exactly on a row, and then shows its key and value. */
    lemma ShowsRow()
      requires Valid()
      ensures at <= |rows| && (IsValid() <==> at < |rows|)
      ensures IsValid() ==> Row(key, value) == rows[at]
    {
    }

    method GetRestartPoint(j: nat) returns (r: nat)
      requires OnBlock() && j < numRestarts
      ensures j < |plan.restartRows| && plan.restartRows[j] < |plan.offs| && r == plan.offs[plan.restartRows[j]]
    {
      hide Laid, RestartsRise, Increasing, DecodeFixed32;
      var base := |entries| + 4 * j;
      assert RestartAt(contents, |entries|, plan, j);
      r := DecodeFixed32(contents[base..base + 4]);
    }

    /** CorruptionError, unless the entry was good. */
    method CorruptUnless(good: bool)
      modifies this
      ensures if good then unchanged(this) else corrupt && !IsValid()
    {
      if !good {
        current, restartIndex, corrupt := |entries|, numRestarts, true;
        key, value := [], [];
      }
    }

    method SeekToRestartPoint(j: nat)
      requires OnBlock() && !corrupt && j < numRestarts
      modifies this
      ensures j < |plan.restartRows| && restartIndex == j && Ready(plan.restartRows[j])
    {
      hide Increasing, EntryBytes, RestartAt;
      key := [];
      restartIndex := j;
      nextOffset := GetRestartPoint(j);
      value := [];
    }

    /** Decodes the entry after the current one. */
    method ParseNextKey(ghost i: nat) returns (ok: bool)
      requires OnBlock() && Ready(i)
      modifies this
      ensures Valid() && at == i && (ok <==> i < |rows|)
    {
      hide Increasing, Finished, Laid, ParseHeader, RestartsRise;
      current := nextOffset;
      at := i;
      ParseBounds(i);
      if current >= |entries| {
        current, restartIndex := |entries|, numRestarts;
        return false;
      }
      RowParses(entries, rows, plan, i);
      var header := DecodeEntry(entries, current);
      ok := header.Some? && |key| >= header.value.shared;
      CorruptUnless(ok);
      if ok {
        var h := header.value;
        key := key[..h.shared] + entries[h.keyAt..h.keyAt + h.nonShared];
        value := entries[h.keyAt + h.nonShared..h.keyAt + h.nonShared + h.valueLength];
        nextOffset := h.keyAt + h.nonShared + h.valueLength;
        AdvanceRestart(i);
      }
    }

    lemma ParseBounds(i: nat)
      requires OnBlock() && Ready(i)
      ensures plan.offs[i] <= |entries| && (plan.offs[i] < |entries| <==> i < |rows|)
      ensures i < |rows| ==> i + 1 < |plan.offs|
      ensures i < |rows| ==> plan.shared[i] <= |rows[i].key|
    {
      hide Increasing, Finished;
      OffsetsRise(entries, rows, plan, i, |rows|);
    }

    /** The loop that keeps the restart index at the current entry's region. */
    method AdvanceRestart(ghost i: nat)
      requires OnBlock() && i < |rows| && Stands(i)
      modifies this`restartIndex
      ensures Stands(i)
    {
      hide Increasing, Laid, RestartAt, RestartsRise;
      while restartIndex + 1 < numRestarts
        invariant Stands(i)
        decreases numRestarts - restartIndex
      {
        var r := GetRestartPoint(restartIndex + 1);
        if r >= current { break; }
        RestartBefore(restartIndex + 1, i);
        restartIndex := restartIndex + 1;
      }
    }

    /** A restart point at a smaller offset is an earlier row. */
    lemma RestartBefore(j: nat, i: nat)
      requires OnBlock() && j < numRestarts && i <= |rows| && j < |plan.restartRows|
                 && plan.restartRows[j] < |plan.offs|
      requires i < |plan.offs|
      ensures plan.offs[plan.restartRows[j]] < plan.offs[i] <==> plan.restartRows[j] < i
    {
      hide Increasing, EntryBytes, RestartAt;
      var r := plan.restartRows[j];
      if r < i { OffsetsRise(entries, rows, plan, r, i); } else { OffsetsRise(entries, rows, plan, i, r); }
    }

    method Next()
      requires Valid() && IsValid()
      modifies this
      ensures Valid() && at == old(at) + 1
    {
      hide Increasing, Finished, EntryBytes;
      AfterRow(at);
      var _ := ParseNextKey(at + 1);
    }

    /** Standing on a row, the next one can be parsed. */
    lemma AfterRow(i: nat)
      requires OnBlock() && !corrupt && i < |rows| && Stands(i)
      ensures Ready(i + 1)
    {
    }

    method SeekToFirst()
      requires Valid()
      modifies this
      ensures Valid() && at == 0
    {
      hide Increasing, Laid;
      SeekToRestartPoint(0);
      var _ := ParseNextKey(plan.restartRows[0]);
    }

    /** Prev undoes Next; before the first row it becomes invalid. */
    method Prev()
      requires Valid() && IsValid()
      modifies this
      ensures Valid() && at == if old(at) == 0 then |rows| else old(at) - 1
    {
      hide Increasing, Finished, Laid, SharesWith;
      ghost var home := at;
      var original := current;
      var r := GetRestartPoint(restartIndex);
      while r >= original
        invariant restartIndex < numRestarts && OnBlock() && !corrupt && at == home && original == plan.offs[home]
        invariant restartIndex < |plan.restartRows| && plan.restartRows[restartIndex] < |plan.offs|
                    && r == plan.offs[plan.restartRows[restartIndex]]
        decreases restartIndex
      {
        RestartBefore(restartIndex, home);
        if restartIndex == 0 {
          FirstRestart();
          current, restartIndex := |entries|, numRestarts;
          at := |rows|;
          return;
        }
        restartIndex := restartIndex - 1;
        r := GetRestartPoint(restartIndex);
      }
      RestartBefore(restartIndex, home);
      ScanTo(restartIndex, home, original);
    }

    lemma FirstRestart()
      requires OnBlock()
      ensures plan.restartRows != [] && plan.restartRows[0] == 0 && numRestarts == |plan.restartRows|
    {
    }

    /** From a restart point, reads entries until the one ending at `limit`. */
    method ScanTo(j: nat, ghost stop: nat, limit: nat)
      requires OnBlock() && !corrupt && j < numRestarts && j < |plan.restartRows|
      requires plan.restartRows[j] < stop <= |rows| || (rows == [] && plan.restartRows[j] == 0 == stop)
      requires stop < |plan.offs| && limit == plan.offs[stop]
      modifies this
      ensures Valid() && at == if rows == [] then 0 else stop - 1
    {
      hide Increasing, Finished, Laid, SharesWith, RestartsRise;
      SeekToRestartPoint(j);
      var more := ParseNextKey(plan.restartRows[j]);
      while more && nextOffset < limit
        invariant Valid() && more == (rows != []) && (more ==> at < stop)
        decreases stop - at
      {
        OffsetBefore(at + 1, stop);
        AfterRow(at);
        more := ParseNextKey(at + 1);
      }
      if more { OffsetBefore(at + 1, stop); }
    }

    lemma OffsetBefore(i: nat, j: nat)
      requires OnBlock() && i <= j <= |rows|
      ensures j < |plan.offs| && (plan.offs[i] < plan.offs[j] <==> i < j)
    {
      hide Increasing, Finished, EntryBytes;
      OffsetsRise(entries, rows, plan, i, j);
    }

    method SeekToLast()
      requires Valid()
      modifies this
      ensures Valid() && at == if rows == [] then 0 else |rows| - 1
    {
      hide Increasing, Laid, SharesWith;
      LastRestart();
      ScanTo(numRestarts - 1, |rows|, |entries|);
    }

    lemma LastRestart()
      requires OnBlock()
      ensures numRestarts == |plan.restartRows| > 0 && |plan.offs| == |rows| + 1 && plan.offs[|rows|] == |entries|
      ensures rows == [] ==> numRestarts == 1 && plan.restartRows[0] == 0
      ensures rows != [] ==> plan.restartRows[numRestarts - 1] < |rows|
    {
      hide Increasing, EntryBytes, RestartAt;
      assert numRestarts > 1 ==> plan.restartRows[1] < |rows|;
    }

    /** Seek: stops on the first row whose key is at or after the target. */
    method Seek(target: Bytes)
      requires Valid()
      modifies this
      ensures Valid()
      ensures forall i :: 0 <= i < at ==> rank(rows[i].key) < rank(target)
      ensures at < |rows| ==> rank(rows[at].key) >= rank(target)
    {
      hide Finished, Laid, SharesWith, RestartsRise, Increasing;
      LastRestart();
      var ok, left := SearchRestarts(target);
      CorruptUnless(ok);
      if ok {
        SeekToRestartPoint(left);
        var more := ParseNextKey(plan.restartRows[left]);
        BeforeAll(plan.restartRows[left], target);
        while more && rank(key) < rank(target)
          invariant Valid() && more == (at < |rows|)
          invariant forall i :: 0 <= i < at ==> rank(rows[i].key) < rank(target)
          decreases |rows| - at
        {
          AfterRow(at);
          more := ParseNextKey(at + 1);
        }
      }
    }

    /** Rows before a restart point below the target are below the target. */
    lemma BeforeAll(i: nat, target: Bytes)
      requires OnBlock() && i <= |rows|
      requires i > 0 ==> i < |rows| && rank(rows[i].key) < rank(target)
      ensures forall h :: 0 <= h < i ==> rank(rows[h].key) < rank(target)
    {
    }

    /** Binary search for the last restart point with a key below the target. */
    method SearchRestarts(target: Bytes) returns (ok: bool, left: nat)
      requires OnBlock() && numRestarts == |plan.restartRows| > 0
      ensures ok && left < numRestarts && plan.restartRows[left] <= |rows|
      ensures plan.restartRows[left] > 0 ==>
                plan.restartRows[left] < |rows| && rank(rows[plan.restartRows[left]].key) < rank(target)
    {
      hide Laid, SharesWith, Increasing, RestartAt, ParseHeader;
      ok, left := true, 0;
      var right := numRestarts - 1;
      while ok && left < right
        invariant ok && left <= right < numRestarts
        invariant left > 0 ==> plan.restartRows[left] < |rows| && rank(rows[plan.restartRows[left]].key) < rank(target)
        decreases right - left
      {
        var mid := (left + right + 1) / 2;
        var midKey;
        ok, midKey := RestartKey(mid);
        if rank(midKey) < rank(target) {
          left := mid;
        } else {
          right := mid - 1;
        }
      }
    }

    /** The key stored at a restart point other than the first. */
    method RestartKey(j: nat) returns (ok: bool, k: Bytes)
      requires OnBlock() && 0 < j < numRestarts == |plan.restartRows|
      ensures ok && plan.restartRows[j] < |rows| && k == rows[plan.restartRows[j]].key
    {
      hide Laid, SharesWith, Increasing, RestartAt, ParseHeader;
      var offset := GetRestartPoint(j);
      RowParses(entries, rows, plan, plan.restartRows[j]);
      RestartParses(entries, rows, plan, j);
      var header := DecodeEntry(entries, offset);
      ok, k := header.Some? && header.value.shared == 0, [];
      if ok {
        var h := header.value;
        k := entries[h.keyAt..h.keyAt + h.nonShared];
      }
    }
  }

  /**
   * The bytes are the entries of the rows by the plan, the restart points and
   * their number; below 4 GiB the stored offsets are right.
   */
  ghost predicate BlockOf(contents: Bytes, size: nat, rows: seq<Row>, plan: Plan) {
    && |contents| == size + 4 * |plan.restartRows| + 4 && Laid(contents[..size], rows, plan)
    && (size < WORD && |plan.restartRows| < WORD ==> Finished(contents, size, |plan.restartRows|, rows, plan))
  }

  ghost predicate IsBlock(contents: Bytes, rows: seq<Row>) {
    exists size: nat, plan :: BlockOf(contents, size, rows, plan)
  }

  /** Builds the block of `rows`. */
  method Build(interval: nat, rows: seq<Row>) returns (contents: Bytes)
    requires interval >= 1
    ensures IsBlock(contents, rows)
  {
    hide Built, Finished;
    var builder := new BlockBuilder(interval);
    for i := 0 to |rows|
      invariant builder.Valid() && fresh(builder) && builder.rows == rows[..i] && builder.interval == interval
    {
      builder.Add(rows[i].key, rows[i].value);
    }
    assert rows[..|rows|] == rows;
    SameCount(builder.buffer, builder.restarts, builder.counter, builder.lastKey, interval, rows, builder.plan);
    ghost var buffer := builder.buffer;
    contents := builder.Finish();
    assert contents[..|buffer|] == buffer;
    assert BlockOf(contents, |buffer|, rows, builder.plan);
  }

  /** Reading a finished block from first to last gives back its rows. */
  method ReadAll(rank: Ranking, contents: Bytes, ghost size: nat, ghost rows: seq<Row>, ghost plan: Plan)
    returns (out: seq<Row>)
    requires Finished(contents, size, |plan.restartRows|, rows, plan) && Increasing(rank, rows)
    ensures out == rows
  {
    hide *;
    SizeOfFinished(contents, size, rows, plan);
    var iter := new Iter(rank, contents, size, rows, plan);
    out := [];
    iter.SeekToFirst();
    iter.ShowsRow();
    while iter.IsValid()
      invariant iter.Valid() && fresh(iter) && iter.rows == rows && iter.at <= |rows| && out == rows[..iter.at]
      invariant iter.IsValid() <==> iter.at < |rows|
      decreases |rows| - iter.at
    {
      iter.ShowsRow();
      out := out + [Row(iter.key, iter.value)];
      iter.Next();
      iter.ShowsRow();
    }
  }

  /** What is built is read back, for every sorted list of rows and every restart interval. */
  method RoundTrip(rank: Ranking, interval: nat, rows: seq<Row>) returns (contents: Bytes, out: seq<Row>)
    requires interval >= 1 && Increasing(rank, rows)
    ensures IsBlock(contents, rows)
    ensures |contents| < WORD ==> out == rows
  {
    hide Increasing, Finished;
    contents := Build(interval, rows);
    out := [];
    if |contents| < WORD {
      ghost var size: nat, plan :| BlockOf(contents, size, rows, plan);
      out := ReadAll(rank, contents, size, rows, plan);
    }
  }

  lemma SameCount(buffer: Bytes, restarts: seq<nat>, counter: nat, lastKey: Bytes, interval: nat, rows: seq<Row>,
                  plan: Plan)
    requires Built(buffer, restarts, counter, lastKey, interval, rows, plan)
    ensures |restarts| == |plan.restartRows| && Laid(buffer, rows, plan)
  {
  }

  lemma SizeOfFinished(contents: Bytes, size: nat, rows: seq<Row>, plan: Plan)
    requires Finished(contents, size, |plan.restartRows|, rows, plan)
    ensures |contents| >= 4
  {
  }
}
