/**
 * The default user comparator and the internal-key comparator over byte
 * strings, with the key shortening of index entries (util/comparator.cc,
 * db/dbformat.cc).
 */
module Bytewise {
  import opened DbFormat

  /** Slice::compare as memcmp with the shorter string first. */
  predicate Less(a: Bytes, b: Bytes) {
    b != [] && (a == [] || a[0] < b[0] || (a[0] == b[0] && Less(a[1..], b[1..])))
  }

  predicate AtMost(a: Bytes, b: Bytes) {
    a == b || Less(a, b)
  }

  lemma {:induction false} LessTransitive(a: Bytes, b: Bytes, c: Bytes)
    requires Less(a, b) && Less(b, c)
    ensures Less(a, c)
  {
    if a == [] || !(a[0] == b[0] == c[0]) {
    } else {
      LessTransitive(a[1..], b[1..], c[1..]);
    }
  }

  lemma {:induction false} LessIsTotal(a: Bytes, b: Bytes)
    ensures a == b || Less(a, b) || Less(b, a)
  {
    if a == [] || b == [] || a[0] != b[0] {
    } else {
      LessIsTotal(a[1..], b[1..]);
    }
  }

  lemma {:induction false} LessIsStrict(a: Bytes, b: Bytes)
    requires Less(a, b)
    ensures !Less(b, a) && a != b
  {
    if a == [] || a[0] != b[0] {
    } else {
      LessIsStrict(a[1..], b[1..]);
    }
  }

  // ---- The order inside the reals ----

  function Rank(a: Bytes): (r: real)
    ensures 0.0 <= r < 1.0
  {
    if a == [] then 0.0 else (((a[0] as int) + 1) as real + Rank(a[1..])) / 257.0
  }

  /** Ranks order byte strings exactly as the bytewise comparator does. */
  lemma {:induction false} RankEmbeds(a: Bytes, b: Bytes)
    ensures Less(a, b) <==> Rank(a) < Rank(b)
  {
    if a == [] || b == [] {
    } else {
      RankEmbeds(a[1..], b[1..]);
    }
  }

  lemma RankIsInjective(a: Bytes, b: Bytes)
    ensures a == b <==> Rank(a) == Rank(b)
  {
    LessIsTotal(a, b);
    RankEmbeds(a, b);
    RankEmbeds(b, a);
  }

  // ---- Prefixes ----

  lemma {:induction false} LessAfterPrefix(p: Bytes, a: Bytes, b: Bytes)
    ensures Less(p + a, p + b) <==> Less(a, b)
  {
    if p == [] {
      assert p + a == a && p + b == b;
    } else {
      assert (p + a)[1..] == p[1..] + a && (p + b)[1..] == p[1..] + b;
      LessAfterPrefix(p[1..], a, b);
    }
  }

  /** Strings that first differ at `n` compare by their bytes there. */
  lemma LessAtDifference(a: Bytes, b: Bytes, n: nat)
    requires n < |a| && n < |b| && a[..n] == b[..n]
    requires a[n] < b[n]
    ensures Less(a, b)
  {
    assert a == a[..n] + a[n..] && b == a[..n] + b[n..];
    LessAfterPrefix(a[..n], a[n..], b[n..]);
  }

  /** The strings first differ at `n`, and a byte fits between theirs there. */
  predicate Gap(start: Bytes, limit: Bytes, n: nat) {
    n < |start| && n < |limit| && start[..n] == limit[..n] && (start[n] as int) + 1 < limit[n]
  }

  /**
   * FindShortestSeparator: the result is at or after start, it is before limit
   * if start is, and it is cut right after the gap where there is one.
   */
  method FindShortestSeparator(start: Bytes, limit: Bytes) returns (r: Bytes)
    ensures AtMost(start, r)
    ensures Less(start, limit) ==> Less(r, limit)
    ensures r != start <==> exists n: nat :: Gap(start, limit, n)
    ensures forall n: nat :: Gap(start, limit, n) ==> r == start[..n] + [start[n] + 1] && Less(r, limit)
  {
    var min := if |start| < |limit| then |start| else |limit|;
    var diff := 0;
    while diff < min && start[diff] == limit[diff]
      invariant diff <= min && start[..diff] == limit[..diff]
    {
      diff := diff + 1;
    }
    r := start;
    forall n: nat | Gap(start, limit, n) ensures n == diff && n < min {
      GapIsFirst(start, limit, n, diff);
    }
    if diff < min && start[diff] < 255 && start[diff] + 1 < limit[diff] {
      r := start[..diff] + [start[diff] + 1];
      assert Gap(start, limit, diff);
      LessAtDifference(start, r, diff);
      LessAtDifference(r, limit, diff);
      LessIsStrict(start, r);
    }
  }

  lemma GapIsFirst(start: Bytes, limit: Bytes, n: nat, diff: nat)
    requires Gap(start, limit, n)
    requires diff <= |start| && diff <= |limit| && start[..diff] == limit[..diff]
    requires diff < |start| && diff < |limit| ==> start[diff] != limit[diff]
    ensures n == diff
  {
  }

  /** The first byte that can be raised. */
  predicate FirstBelow255(key: Bytes, i: nat) {
    i < |key| && key[i] != 255 && forall j :: 0 <= j < i ==> key[j] == 255
  }

  /** FindShortSuccessor: a key at or after `key`, no longer than it. */
  method FindShortSuccessor(key: Bytes) returns (r: Bytes)
    ensures AtMost(key, r) && |r| <= |key|
    ensures r == key <==> forall i :: 0 <= i < |key| ==> key[i] == 255
    ensures forall i: nat :: FirstBelow255(key, i) ==> r == key[..i] + [key[i] + 1]
    ensures r != key ==> r != [] && FirstBelow255(key, |r| - 1)
  {
    for i := 0 to |key|
      invariant forall j :: 0 <= j < i ==> key[j] == 255
    {
      if key[i] != 255 {
        r := key[..i] + [key[i] + 1];
        LessAtDifference(key, r, i);
        LessIsStrict(key, r);
        return;
      }
    }
    r := key;
  }

  // ---- Internal keys over byte strings ----

  datatype Key = Key(user: Bytes, sequence: nat, kind: ValueType)

  predicate KeyLess(a: Key, b: Key) {
    Less(a.user, b.user) || (a.user == b.user && Pack(a.sequence, a.kind) > Pack(b.sequence, b.kind))
  }

  predicate KeyAtMost(a: Key, b: Key) {
    a == b || KeyLess(a, b)
  }

  function Embed(k: Key): InternalKey {
    InternalKey(Rank(k.user), k.sequence, k.kind)
  }

  /** The engine's keys and the stored keys are the same order. */
  lemma EmbedKeepsOrder(a: Key, b: Key)
    ensures KeyLess(a, b) <==> Before(Embed(a), Embed(b))
    ensures a == b <==> Embed(a) == Embed(b)
  {
    RankEmbeds(a.user, b.user);
    RankIsInjective(a.user, b.user);
  }

  /** A rank for internal keys: the user key's digits, an end mark, then the trailer counted down. */
  function KeyRank(user: Bytes, trailer: nat): (r: real)
    requires trailer < TRAILERS
    ensures 0.0 <= r < 1.0
  {
    if user == [] then (TRAILERS - 1 - trailer) as real / TRAILERS as real / 257.0
    else (((user[0] as int) + 1) as real + KeyRank(user[1..], trailer)) / 257.0
  }

  const TRAILERS: nat := 0x1_0000_0000_0000_0000

  /** The order of internal keys is an order of ranks. */
  lemma {:induction false} KeyRankEmbeds(a: Bytes, s: nat, b: Bytes, t: nat)
    requires s < TRAILERS && t < TRAILERS
    ensures Less(a, b) || (a == b && s > t) <==> KeyRank(a, s) < KeyRank(b, t)
  {
    if a == [] || b == [] {
    } else {
      KeyRankEmbeds(a[1..], s, b[1..], t);
      assert a == b <==> a[0] == b[0] && a[1..] == b[1..];
    }
  }

  lemma KeyLessTransitive(a: Key, b: Key, c: Key)
    requires KeyLess(a, b) && KeyLess(b, c)
    ensures KeyLess(a, c)
  {
    if Less(a.user, b.user) && Less(b.user, c.user) { LessTransitive(a.user, b.user, c.user); }
  }

  lemma KeyLessIsTotal(a: Key, b: Key)
    ensures a == b || KeyLess(a, b) || KeyLess(b, a)
  {
    LessIsTotal(a.user, b.user);
  }

  /**
   * The internal separator between adjacent keys: at or after `start`, before
   * `limit`, and either `start` itself or of a user key strictly between theirs.
   */
  method InternalSeparator(start: Key, limit: Key) returns (r: Key)
    requires KeyLess(start, limit)
    ensures KeyAtMost(start, r) && KeyLess(r, limit)
    ensures r == start || (Less(start.user, r.user) && Less(r.user, limit.user))
    ensures r != start <==> exists n: nat :: n + 1 < |start.user| && Gap(start.user, limit.user, n)
    ensures r != start ==> |r.user| < |start.user| && r.sequence == MAX_SEQUENCE && r.kind.Value?
  {
    var tmp := FindShortestSeparator(start.user, limit.user);
    r := start;
    if |tmp| < |start.user| && Less(start.user, tmp) {
      r := Key(tmp, MAX_SEQUENCE, Value);
    }
  }

  /** The internal successor of a table's last key. */
  method InternalSuccessor(key: Key) returns (r: Key)
    ensures KeyAtMost(key, r) && (r == key || Less(key.user, r.user))
    ensures r != key <==> exists i: nat :: i + 1 < |key.user| && FirstBelow255(key.user, i)
    ensures r != key ==> |r.user| < |key.user| && r.sequence == MAX_SEQUENCE && r.kind.Value?
  {
    var tmp := FindShortSuccessor(key.user);
    r := key;
    if |tmp| < |key.user| && Less(key.user, tmp) {
      r := Key(tmp, MAX_SEQUENCE, Value);
    }
  }
}
