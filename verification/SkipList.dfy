/**
 * The memtable's skip list (db/skiplist.h).  A node is named by its key, which
 * never changes and is never shared; keys stand for their place in the
 * comparator's order.  `SkipList` is the list as its single writer runs it;
 * `SkipListRuns` interleaves the writer with any number of readers.
 */
module SkipList {
  import opened DbFormat

  const MAX_HEIGHT: nat := 12

  datatype Node = Head | At(key: real)

  /** The link of a node at a level. */
  datatype Place = Place(node: Node, level: nat)

  /** The links, and at each level the nodes published there. */
  datatype Memory = Memory(next: map<Place, Option<real>>, linked: seq<set<real>>, maxHeight: nat)

  predicate Below(n: Node, k: real) {
    n.Head? || n.key < k
  }

  /** `r` is the first key of the set after the node. */
  ghost predicate IsSuccessor(s: set<real>, n: Node, r: Option<real>) {
    && (r == None ==> forall k :: k in s ==> !Below(n, k))
    && (r.Some? ==> r.value in s && Below(n, r.value) && forall k :: k in s && Below(n, k) ==> r.value <= k)
  }

  ghost predicate OnLevel(m: Memory, n: Node, level: nat) {
    level < |m.linked| && (n.Head? || n.key in m.linked[level])
  }

  /** The link of a published node is its successor at that level. */
  ghost predicate Linked(m: Memory, n: Node, level: nat) {
    && level < |m.linked|
    && Place(n, level) in m.next
    && IsSuccessor(m.linked[level], n, m.next[Place(n, level)])
  }

  /** Every level is a sorted list, and a sublist of the level below. */
  ghost predicate WellFormed(m: Memory) {
    && |m.linked| == MAX_HEIGHT
    && 1 <= m.maxHeight <= MAX_HEIGHT
    && (forall n, level :: OnLevel(m, n, level) ==> Linked(m, n, level))
    && (forall i, j :: 0 <= i <= j < MAX_HEIGHT ==> m.linked[j] <= m.linked[i])
    && (forall level :: m.maxHeight <= level < MAX_HEIGHT ==> m.linked[level] == {})
  }

  function Empty(): Memory {
    Memory(map level | 0 <= level < MAX_HEIGHT :: Place(Head, level) := None, seq(MAX_HEIGHT, i => {}), 1)
  }

  lemma EmptyWellFormed()
    ensures WellFormed(Empty())
  {
  }

  // ---- A level as a list ----

  /** Keys of the level after the node. */
  ghost function Rest(m: Memory, n: Node, level: nat): set<real>
    requires level < |m.linked|
  {
    set k | k in m.linked[level] && Below(n, k)
  }

  lemma RestShrinks(m: Memory, n: Node, level: nat)
    requires Linked(m, n, level) && m.next[Place(n, level)].Some?
    ensures var v := m.next[Place(n, level)].value;
              v in Rest(m, n, level) && Rest(m, At(v), level) == Rest(m, n, level) - {v}
  {
  }

  /** The keys met by following the links of a level. */
  ghost function Walk(m: Memory, n: Node, level: nat): seq<real>
    requires WellFormed(m) && OnLevel(m, n, level)
    decreases |Rest(m, n, level)|
  {
    assert Linked(m, n, level);
    match m.next[Place(n, level)]
    case None => []
    case Some(v) =>
      RestShrinks(m, n, level);
      [v] + Walk(m, At(v), level)
  }

  /** Following the links meets every published key after the node, once, in order. */
  lemma {:induction false} WalkIsSorted(m: Memory, n: Node, level: nat)
    requires WellFormed(m) && OnLevel(m, n, level)
    ensures var w := Walk(m, n, level);
              && (forall i, j :: 0 <= i < j < |w| ==> w[i] < w[j])
              && (forall i :: 0 <= i < |w| ==> Below(n, w[i]))
              && (forall k :: k in w <==> k in m.linked[level] && Below(n, k))
    decreases |Rest(m, n, level)|
  {
    if m.next[Place(n, level)].None? {
    } else {
      var v := m.next[Place(n, level)].value;
      RestShrinks(m, n, level);
      WalkIsSorted(m, At(v), level);
    }
  }

  // ---- Searching ----

  ghost predicate IsLeastFrom(s: set<real>, key: real, r: Option<real>) {
    && (r == None ==> forall k :: k in s ==> k < key)
    && (r.Some? ==> r.value in s && r.value >= key && forall k :: k in s && k >= key ==> r.value <= k)
  }

  ghost predicate IsLastBefore(s: set<real>, key: real, x: Node) {
    && (x.At? ==> x.key in s && x.key < key)
    && forall k :: k in s && k < key ==> !Below(x, k)
  }

  ghost predicate IsLast(s: set<real>, x: Node) {
    && (x.At? ==> x.key in s)
    && forall k :: k in s ==> !Below(x, k)
  }

  /** A node before the key whose link is not before the key has the answer in its link. */
  lemma LinkIsAnswer(s: set<real>, x: Node, r: Option<real>, key: real)
    requires IsSuccessor(s, x, r) && Below(x, key) && (r.Some? ==> r.value >= key) && (x.At? ==> x.key in s)
    ensures IsLeastFrom(s, key, r) && IsLastBefore(s, key, x)
  {
  }

  // ---- Linking one level ----

  /** `p` is the node of a level after which a new key belongs. */
  ghost predicate IsPlaceFor(m: Memory, p: Node, level: nat, key: real) {
    OnLevel(m, p, level) && IsLastBefore(m.linked[level], key, p)
  }

  /** The new node's own link is stored first; nobody can reach it yet. */
  function StoreOwn(m: Memory, key: real, level: nat, next: Option<real>): Memory {
    m.(next := m.next[Place(At(key), level) := next])
  }

  /** Then the predecessor's link is stored, which publishes the node at the level. */
  function Publish(m: Memory, key: real, level: nat, p: Node): Memory
    requires level < |m.linked|
  {
    m.(next := m.next[Place(p, level) := Some(key)], linked := m.linked[level := m.linked[level] + {key}])
  }

  ghost predicate SameLink(m: Memory, a: Node, b: Node, level: nat) {
    Place(a, level) in m.next && Place(b, level) in m.next && m.next[Place(a, level)] == m.next[Place(b, level)]
  }

  lemma StoreOwnKeeps(m: Memory, key: real, level: nat, next: Option<real>)
    requires WellFormed(m) && level < MAX_HEIGHT && key !in m.linked[level]
    ensures WellFormed(StoreOwn(m, key, level, next))
  {
    var m' := StoreOwn(m, key, level, next);
    forall n, l | OnLevel(m', n, l) ensures Linked(m', n, l) {
      assert OnLevel(m, n, l) && Linked(m, n, l);
    }
  }

  lemma PublishKeeps(m: Memory, key: real, level: nat, p: Node)
    requires WellFormed(m) && level < m.maxHeight && key !in m.linked[level]
    requires forall i :: 0 <= i < level ==> key in m.linked[i]
    requires IsPlaceFor(m, p, level, key)
    requires SameLink(m, At(key), p, level)
    ensures WellFormed(Publish(m, key, level, p))
  {
    hide IsSuccessor, IsLastBefore;
    var m' := Publish(m, key, level, p);
    forall n, l | OnLevel(m', n, l) ensures Linked(m', n, l) {
      if l != level {
        assert OnLevel(m, n, l) && Linked(m, n, l);
      } else {
        PublishedLink(m, key, level, p, n);
      }
    }
    forall i, j | 0 <= i <= j < MAX_HEIGHT ensures m'.linked[j] <= m'.linked[i] {}
  }

  /** At the published level every link is the successor in the larger set. */
  lemma PublishedLink(m: Memory, key: real, level: nat, p: Node, n: Node)
    requires |m.linked| == MAX_HEIGHT && level < MAX_HEIGHT && key !in m.linked[level]
    requires forall n :: OnLevel(m, n, level) ==> Linked(m, n, level)
    requires IsPlaceFor(m, p, level, key)
    requires SameLink(m, At(key), p, level)
    requires OnLevel(Publish(m, key, level, p), n, level)
    ensures Linked(Publish(m, key, level, p), n, level)
  {
    var s := m.linked[level];
    var r := m.next[Place(p, level)];
    SplitsAt(s, p, r, key);
    if n != At(key) && n != p {
      assert OnLevel(m, n, level) && Linked(m, n, level);
      Elsewhere(s, n, m.next[Place(n, level)], p, key);
    }
  }

  lemma SplitsAt(s: set<real>, p: Node, r: Option<real>, key: real)
    requires IsSuccessor(s, p, r) && IsLastBefore(s, key, p) && key !in s
    ensures IsSuccessor(s + {key}, p, Some(key)) && IsSuccessor(s + {key}, At(key), r)
  {
  }

  lemma Elsewhere(s: set<real>, n: Node, r: Option<real>, p: Node, key: real)
    requires IsSuccessor(s, n, r) && IsLastBefore(s, key, p) && key !in s
    requires n != p && (n.At? ==> n.key in s)
    ensures IsSuccessor(s + {key}, n, r)
  {
  }

  // ---- The list with no reader about ----

  class SkipList {
    var mem: Memory

    ghost predicate Valid()
      reads this
    {
      WellFormed(mem)
    }

    ghost function Keys(): set<real>
      reads this
      requires Valid()
    {
      mem.linked[0]
    }

    constructor ()
      ensures Valid() && Keys() == {}
    {
      mem := Empty();
      EmptyWellFormed();
    }

    /** The first node at or after the key, and the place of the key at every level in use. */
    method FindGreaterOrEqual(key: real) returns (r: Option<real>, prev: map<nat, Node>)
      requires Valid()
      ensures IsLeastFrom(Keys(), key, r)
      ensures forall level :: 0 <= level < mem.maxHeight ==> level in prev && IsPlaceFor(mem, prev[level], level, key)
    {
      hide IsLeastFrom, IsLastBefore, IsSuccessor;
      var x, level := Head, mem.maxHeight - 1;
      prev := map[];
      while true
        invariant 0 <= level < mem.maxHeight && OnLevel(mem, x, level) && Below(x, key)
        invariant forall l :: level < l < mem.maxHeight ==> l in prev && IsPlaceFor(mem, prev[l], l, key)
        decreases level, |Rest(mem, x, level)|
      {
        var next := mem.next[Place(x, level)];
        if next.Some? && next.value < key {
          RestShrinks(mem, x, level);
          NextOnLevel(mem, x, level);
          x := At(next.value);
        } else {
          LinkIsAnswer(mem.linked[level], x, next, key);
          prev := prev[level := x];
          if level == 0 {
            return next, prev;
          }
          level := level - 1;
        }
      }
    }

    /** The last node before the key, or the head. */
    method FindLessThan(key: real) returns (x: Node)
      requires Valid()
      ensures IsLastBefore(Keys(), key, x)
    {
      hide IsLeastFrom, IsLastBefore, IsSuccessor;
      var level := mem.maxHeight - 1;
      x := Head;
      while true
        invariant 0 <= level < mem.maxHeight && OnLevel(mem, x, level) && Below(x, key)
        decreases level, |Rest(mem, x, level)|
      {
        var next := mem.next[Place(x, level)];
        if next == None || next.value >= key {
          LinkIsAnswer(mem.linked[level], x, next, key);
          if level == 0 {
            return;
          }
          level := level - 1;
        } else {
          RestShrinks(mem, x, level);
          NextOnLevel(mem, x, level);
          x := At(next.value);
        }
      }
    }

    /** The last node, or the head. */
    method FindLast() returns (x: Node)
      requires Valid()
      ensures IsLast(Keys(), x)
    {
      var level := mem.maxHeight - 1;
      x := Head;
      while true
        invariant 0 <= level < mem.maxHeight && OnLevel(mem, x, level)
        decreases level, |Rest(mem, x, level)|
      {
        var next := mem.next[Place(x, level)];
        if next == None {
          if level == 0 {
            return;
          }
          level := level - 1;
        } else {
          RestShrinks(mem, x, level);
          x := At(next.value);
        }
      }
    }

    method Contains(key: real) returns (b: bool)
      requires Valid()
      ensures b <==> key in Keys()
    {
      var r, _ := FindGreaterOrEqual(key);
      b := r == Some(key);
    }

    /** Inserts a key at the levels below a random height. */
    method Insert(key: real, height: nat)
      requires Valid() && key !in Keys() && 1 <= height <= MAX_HEIGHT
      modifies this
      ensures Valid() && Keys() == old(Keys()) + {key}
      ensures forall l :: 0 <= l < MAX_HEIGHT ==> mem.linked[l] == old(mem).linked[l] + if l < height then {key} else {}
    {
      hide IsLeastFrom, IsLastBefore, IsSuccessor, Linked;
      var _, prev := FindGreaterOrEqual(key);
      if height > mem.maxHeight {
        prev := FillPrev(mem, prev, key, height);
        RaiseKeeps(mem, height);
        mem := mem.(maxHeight := height);
      }
      ghost var before := mem;
      for i := 0 to height
        invariant Valid() && mem.maxHeight == before.maxHeight
        invariant forall l :: 0 <= l < MAX_HEIGHT ==> mem.linked[l] == before.linked[l] + if l < i then {key} else {}
        invariant forall l :: i <= l < height ==> l in prev && IsPlaceFor(mem, prev[l], l, key)
      {
        LinkLevel(key, i, prev[i]);
      }
    }

    /** The two stores of one level. */
    method LinkLevel(key: real, level: nat, p: Node)
      requires Valid() && level < mem.maxHeight && key !in mem.linked[level]
      requires forall i :: 0 <= i < level ==> key in mem.linked[i]
      requires IsPlaceFor(mem, p, level, key)
      modifies this
      ensures Valid() && mem.maxHeight == old(mem).maxHeight
      ensures mem.linked == old(mem).linked[level := old(mem).linked[level] + {key}]
    {
      hide IsLeastFrom, IsLastBefore, IsSuccessor;
      StoreOwnKeeps(mem, key, level, mem.next[Place(p, level)]);
      mem := StoreOwn(mem, key, level, mem.next[Place(p, level)]);
      PublishKeeps(mem, key, level, p);
      mem := Publish(mem, key, level, p);
    }
  }

  lemma NextOnLevel(m: Memory, x: Node, level: nat)
    requires Linked(m, x, level) && m.next[Place(x, level)].Some?
    ensures OnLevel(m, At(m.next[Place(x, level)].value), level)
  {
  }

  /** New levels start at the head. */
  method FillPrev(m: Memory, prev0: map<nat, Node>, key: real, height: nat) returns (prev: map<nat, Node>)
    requires WellFormed(m) && m.maxHeight <= height <= MAX_HEIGHT
    requires forall l :: 0 <= l < m.maxHeight ==> l in prev0 && IsPlaceFor(m, prev0[l], l, key)
    ensures forall l :: 0 <= l < height ==> l in prev && IsPlaceFor(m, prev[l], l, key)
  {
    prev := prev0;
    for i := m.maxHeight to height
      invariant forall l :: 0 <= l < i ==> l in prev && IsPlaceFor(m, prev[l], l, key)
    {
      assert m.linked[i] == {};
      prev := prev[i := Head];
    }
  }

  lemma RaiseKeeps(m: Memory, height: nat)
    requires WellFormed(m) && m.maxHeight <= height <= MAX_HEIGHT
    ensures WellFormed(m.(maxHeight := height))
  {
    hide IsSuccessor;
    var m' := m.(maxHeight := height);
    forall n, l: nat | OnLevel(m', n, l) ensures Linked(m', n, l) {
      assert OnLevel(m, n, l) && Linked(m, n, l);
    }
  }
}
