/**
 * One shard of the LRU cache (util/cache.cc).  Handles are numbered in the
 * order they are made; the two circular lists are sequences, oldest first.
 */
module LruCache {
  import opened DbFormat
  import opened HandleTable

  datatype Handle = Handle(key: Bytes, charge: nat, refs: nat, inCache: bool)

  /** The live handles, the two lists, and the handles whose deleter has run, in order. */
  datatype Core = Core(entries: map<nat, Handle>, lru: seq<nat>, inUse: seq<nat>, usage: int, deleted: seq<nat>,
                       made: nat)

  // ---- Lists without repetition ----

  ghost predicate NoRepeat(s: seq<nat>) {
    forall i, j :: 0 <= i < j < |s| ==> s[i] != s[j]
  }

  /** LRU_Remove: the list without an element. */
  function Without(s: seq<nat>, x: nat): seq<nat> {
    if s == [] then [] else if s[0] == x then s[1..] else [s[0]] + Without(s[1..], x)
  }

  lemma {:induction false} WithoutIs(s: seq<nat>, x: nat)
    requires NoRepeat(s)
    ensures NoRepeat(Without(s, x))
    ensures forall y :: y in Without(s, x) <==> y in s && y != x
  {
    if s == [] || s[0] == x {
    } else {
      WithoutIs(s[1..], x);
      assert s[0] !in s[1..];
    }
  }

  lemma AppendIs(s: seq<nat>, x: nat)
    requires NoRepeat(s) && x !in s
    ensures NoRepeat(s + [x])
  {
  }

  /** The charges of a list. */
  ghost function Total(entries: map<nat, Handle>, s: seq<nat>): nat {
    if s == [] then 0 else (if s[0] in entries then entries[s[0]].charge else 0) + Total(entries, s[1..])
  }

  lemma {:induction false} TotalWithout(entries: map<nat, Handle>, s: seq<nat>, x: nat)
    requires x in s && x in entries
    ensures Total(entries, Without(s, x)) == Total(entries, s) - entries[x].charge
  {
    if s[0] == x {
    } else {
      TotalWithout(entries, s[1..], x);
    }
  }

  lemma {:induction false} TotalAppend(entries: map<nat, Handle>, s: seq<nat>, x: nat)
    requires x in entries
    ensures Total(entries, s + [x]) == Total(entries, s) + entries[x].charge
  {
    if s == [] {
    } else {
      assert (s + [x])[1..] == s[1..] + [x];
      TotalAppend(entries, s[1..], x);
    }
  }

  /** Only the charges of the listed handles matter. */
  lemma {:induction false} TotalSame(entries: map<nat, Handle>, more: map<nat, Handle>, s: seq<nat>)
    requires forall x :: x in s ==> x in entries && x in more && entries[x].charge == more[x].charge
    ensures Total(entries, s) == Total(more, s)
  {
    if s == [] {
    } else {
      TotalSame(entries, more, s[1..]);
    }
  }

  // ---- The invariant ----

  /** References are the clients' handles and the cache's own. */
  ghost predicate Counted(c: Core, held: multiset<nat>) {
    && (forall id :: id in c.entries ==>
        c.entries[id].refs >= 1 && c.entries[id].refs == held[id] + if c.entries[id].inCache then 1 else 0)
    && (forall id :: id in held ==> id in c.entries)
  }

  /** Cached handles are in exactly one list: the LRU list if only the cache refers to them. */
  ghost predicate Listed(c: Core) {
    && NoRepeat(c.lru) && NoRepeat(c.inUse)
    && (forall id :: id in c.lru <==> id in c.entries && c.entries[id].inCache && c.entries[id].refs == 1)
    && (forall id :: id in c.inUse <==> id in c.entries && c.entries[id].inCache && c.entries[id].refs > 1)
  }

  ghost predicate Charged(c: Core) {
    c.usage == Total(c.entries, c.lru) + Total(c.entries, c.inUse)
  }

  /** A handle made is alive or its deleter has run, once. */
  ghost predicate Accounted(c: Core) {
    && NoRepeat(c.deleted)
    && (forall id :: id in c.entries ==> id < c.made)
    && (forall id :: id in c.deleted <==> 0 <= id < c.made && id !in c.entries)
  }

  /** The table maps the key of every cached handle to it; `skip` has just been taken out of the table. */
  ghost predicate Tabled(c: Core, contents: map<Bytes, nat>, skip: Option<nat>) {
    && (forall id :: id in c.entries ==>
          (c.entries[id].inCache <==>
           skip == Some(id) || (c.entries[id].key in contents && contents[c.entries[id].key] == id)))
    && (forall k :: k in contents ==>
        contents[k] in c.entries && c.entries[contents[k]].key == k && skip != Some(contents[k]))
    && (skip.Some? ==> skip.value in c.entries)
  }

  ghost predicate Inv(c: Core, held: multiset<nat>, contents: map<Bytes, nat>, skip: Option<nat>) {
    Counted(c, held) && Listed(c) && Charged(c) && Accounted(c) && Tabled(c, contents, skip)
  }

  // ---- References ----

  function Ref(c: Core, id: nat): Core
    requires id in c.entries
  {
    var e := c.entries[id];
    var moved := if e.refs == 1 && e.inCache then c.(lru := Without(c.lru, id), inUse := c.inUse + [id]) else c;
    moved.(entries := c.entries[id := e.(refs := e.refs + 1)])
  }

  function Unref(c: Core, id: nat): Core
    requires id in c.entries && c.entries[id].refs > 0
  {
    var e := c.entries[id];
    if e.refs == 1 then c.(entries := c.entries - {id}, deleted := c.deleted + [id])
    else
      var moved := if e.inCache && e.refs == 2 then c.(inUse := Without(c.inUse, id), lru := c.lru + [id]) else c;
      moved.(entries := c.entries[id := e.(refs := e.refs - 1)])
  }

  /** Handles with the same names, keys and standing are tabled alike. */
  lemma TabledSame(c: Core, r: Core, contents: map<Bytes, nat>, skip: Option<nat>)
    requires Tabled(c, contents, skip) && r.entries.Keys == c.entries.Keys
    requires forall id :: id in c.entries ==>
               r.entries[id].key == c.entries[id].key && r.entries[id].inCache == c.entries[id].inCache
    ensures Tabled(r, contents, skip)
  {
  }

  lemma AccountedSame(c: Core, r: Core)
    requires Accounted(c) && r.entries.Keys == c.entries.Keys && r.made == c.made && r.deleted == c.deleted
    ensures Accounted(r)
  {
  }

  /** Moving a handle from one list to the other leaves the total. */
  lemma MovedCharge(entries: map<nat, Handle>, more: map<nat, Handle>, a: seq<nat>, b: seq<nat>, id: nat)
    requires id in a && forall x :: x in a + b ==> x in entries && x in more && entries[x].charge == more[x].charge
    ensures Total(more, Without(a, id)) + Total(more, b + [id]) == Total(entries, a) + Total(entries, b)
  {
    hide Total, Without;
    TotalSame(entries, more, a);
    TotalSame(entries, more, b);
    TotalWithout(more, a, id);
    TotalAppend(more, b, id);
  }

  lemma SameCharge(entries: map<nat, Handle>, more: map<nat, Handle>, a: seq<nat>, b: seq<nat>)
    requires forall x :: x in a + b ==> x in entries && x in more && entries[x].charge == more[x].charge
    ensures Total(more, a) + Total(more, b) == Total(entries, a) + Total(entries, b)
  {
    hide Total;
    TotalSame(entries, more, a);
    TotalSame(entries, more, b);
  }

  lemma RefKeeps(c: Core, held: multiset<nat>, contents: map<Bytes, nat>, skip: Option<nat>, id: nat)
    requires Inv(c, held, contents, skip) && id in c.entries
    ensures Inv(Ref(c, id), held + multiset{id}, contents, skip)
  {
    hide Without, Total, Tabled, Accounted, Listed, Charged;
    RefListed(c, id);
    AccountedSame(c, Ref(c, id));
    TabledSame(c, Ref(c, id), contents, skip);
  }

  lemma RefListed(c: Core, id: nat)
    requires Listed(c) && Charged(c) && id in c.entries && c.entries[id].refs >= 1
    ensures Listed(Ref(c, id)) && Charged(Ref(c, id))
  {
    hide Without, Total;
    var r, e := Ref(c, id), c.entries[id];
    WithoutIs(c.lru, id);
    if e.refs == 1 && e.inCache {
      AppendIs(c.inUse, id);
      MovedCharge(c.entries, r.entries, c.lru, c.inUse, id);
    } else {
      SameCharge(c.entries, r.entries, c.lru, c.inUse);
    }
  }

  lemma UnrefKeeps(c: Core, held: multiset<nat>, contents: map<Bytes, nat>, skip: Option<nat>, id: nat)
    requires Inv(c, held, contents, skip) && id in held
    ensures id in c.entries && c.entries[id].refs > 0
    ensures Inv(Unref(c, id), held - multiset{id}, contents, skip)
    ensures Unref(c, id).deleted == c.deleted + if held[id] == 1 && !c.entries[id].inCache then [id] else []
  {
    hide Without, Total, Tabled, Accounted, Listed, Charged;
    UnrefListed(c, id);
    if c.entries[id].refs == 1 {
      DeleteAccounted(c, id);
      DeleteTabled(c, contents, skip, id);
    } else {
      AccountedSame(c, Unref(c, id));
      TabledSame(c, Unref(c, id), contents, skip);
    }
  }

  lemma UnrefListed(c: Core, id: nat)
    requires Listed(c) && Charged(c) && id in c.entries && c.entries[id].refs >= 1
    requires c.entries[id].inCache ==> c.entries[id].refs >= 2
    ensures Listed(Unref(c, id)) && Charged(Unref(c, id))
  {
    hide Without, Total;
    var r, e := Unref(c, id), c.entries[id];
    WithoutIs(c.inUse, id);
    if e.inCache && e.refs == 2 {
      AppendIs(c.lru, id);
      MovedCharge(c.entries, r.entries, c.inUse, c.lru, id);
    } else {
      SameCharge(c.entries, r.entries, c.lru, c.inUse);
    }
  }

  lemma DeleteAccounted(c: Core, id: nat)
    requires Accounted(c) && id in c.entries
    ensures Accounted(c.(entries := c.entries - {id}, deleted := c.deleted + [id]))
  {
  }

  lemma DeleteTabled(c: Core, contents: map<Bytes, nat>, skip: Option<nat>, id: nat)
    requires Tabled(c, contents, skip) && id in c.entries && !c.entries[id].inCache
    ensures Tabled(c.(entries := c.entries - {id}, deleted := c.deleted + [id]), contents, skip)
  {
  }

  // ---- Leaving and entering the cache ----

  /** FinishErase: out of its list, out of the cache's accounts, and one reference less. */
  function Erase(c: Core, id: nat): Core
    requires id in c.entries && c.entries[id].refs > 0
  {
    Unref(TakeOut(c, id), id)
  }

  /** The handle out of its list and no longer cached. */
  function TakeOut(c: Core, id: nat): Core
    requires id in c.entries
  {
    var e := c.entries[id];
    c.(lru := Without(c.lru, id), inUse := Without(c.inUse, id),
       entries := c.entries[id := e.(inCache := false)], usage := c.usage - e.charge)
  }

  /** Taken out, the cache's reference is like a client's until it is dropped. */
  lemma TakeOutKeeps(c: Core, held: multiset<nat>, contents: map<Bytes, nat>, id: nat)
    requires Inv(c, held, contents, Some(id))
    ensures id in c.entries && Inv(TakeOut(c, id), held + multiset{id}, contents, None)
  {
    hide Without, Total, Accounted, Listed, Charged;
    AccountedSame(c, TakeOut(c, id));
    TakeOutListed(c, id);
  }

  lemma TakeOutListed(c: Core, id: nat)
    requires Listed(c) && Charged(c) && id in c.entries && c.entries[id].inCache && c.entries[id].refs >= 1
    ensures Listed(TakeOut(c, id)) && Charged(TakeOut(c, id))
  {
    hide Without, Total;
    var r := TakeOut(c, id);
    WithoutIs(c.lru, id);
    WithoutIs(c.inUse, id);
    SameCharge(c.entries, r.entries, r.lru, r.inUse);
    if c.entries[id].refs == 1 {
      TotalWithout(c.entries, c.lru, id);
      NotIn(c.inUse, id);
    } else {
      TotalWithout(c.entries, c.inUse, id);
      NotIn(c.lru, id);
    }
  }

  lemma EraseKeeps(c: Core, held: multiset<nat>, contents: map<Bytes, nat>, id: nat)
    requires Inv(c, held, contents, Some(id))
    ensures id in c.entries && c.entries[id].refs > 0
    ensures Inv(Erase(c, id), held, contents, None)
    ensures Erase(c, id).deleted == c.deleted + if held[id] == 0 then [id] else []
    ensures Erase(c, id).made == c.made && Erase(c, id).lru == Without(c.lru, id)
    ensures Erase(c, id).inUse == Without(c.inUse, id) && Erase(c, id).usage == c.usage - c.entries[id].charge
  {
    hide Without, Total, Listed, Charged, Accounted, Tabled;
    TakeOutKeeps(c, held, contents, id);
    UnrefKeeps(TakeOut(c, id), held + multiset{id}, contents, None, id);
    assert held + multiset{id} - multiset{id} == held;
  }

  lemma {:induction false} NotIn(s: seq<nat>, x: nat)
    requires x !in s
    ensures Without(s, x) == s
  {
    if s == [] {
    } else {
      NotIn(s[1..], x);
    }
  }

  /** A new handle held by its maker and, if cached, by the cache. */
  function Add(c: Core, key: Bytes, charge: nat, cached: bool): Core {
    var e := Handle(key, charge, if cached then 2 else 1, cached);
    var more := c.(entries := c.entries[c.made := e], made := c.made + 1);
    if cached then more.(inUse := c.inUse + [c.made], usage := c.usage + charge) else more
  }

  lemma AddKeeps(c: Core, held: multiset<nat>, contents: map<Bytes, nat>, key: Bytes, charge: nat, cached: bool)
    requires Inv(c, held, contents, None)
    ensures var skip := if cached && key in contents then Some(contents[key]) else None;
              Inv(Add(c, key, charge, cached), held + multiset{c.made},
                  if cached then contents[key := c.made] else contents, skip)
  {
    hide Total, Listed, Charged, Tabled;
    AddListed(c, key, charge, cached);
    AddTabled(c, contents, key, charge, cached);
  }

  lemma AddListed(c: Core, key: Bytes, charge: nat, cached: bool)
    requires Listed(c) && Charged(c) && c.made !in c.entries
    ensures Listed(Add(c, key, charge, cached)) && Charged(Add(c, key, charge, cached))
  {
    hide Total;
    var r := Add(c, key, charge, cached);
    SameCharge(c.entries, r.entries, c.lru, c.inUse);
    if cached {
      AppendIs(c.inUse, c.made);
      TotalAppend(r.entries, c.inUse, c.made);
    }
  }

  lemma AddTabled(c: Core, contents: map<Bytes, nat>, key: Bytes, charge: nat, cached: bool)
    requires Tabled(c, contents, None) && c.made !in c.entries
    ensures Tabled(Add(c, key, charge, cached), if cached then contents[key := c.made] else contents,
                   if cached && key in contents then Some(contents[key]) else None)
  {
  }

  /** Taking a key out of the table. */
  lemma RemoveKeeps(c: Core, held: multiset<nat>, contents: map<Bytes, nat>, key: Bytes)
    requires Inv(c, held, contents, None)
    ensures key in contents ==> Inv(c, held, contents - {key}, Some(contents[key]))
    ensures key !in contents ==> contents - {key} == contents
  {
  }

  lemma EmptyInv()
    ensures Inv(Core(map[], [], [], 0, [], 0), multiset{}, map[], None)
  {
    hide Counted, Listed, Charged, Accounted, Tabled;
    EmptyCounts();
    EmptyLists();
    EmptyTables();
  }

  lemma EmptyCounts()
    ensures Counted(Core(map[], [], [], 0, [], 0), multiset{})
  {
  }

  lemma EmptyLists()
    ensures Listed(Core(map[], [], [], 0, [], 0)) && Charged(Core(map[], [], [], 0, [], 0))
  {
  }

  lemma EmptyTables()
    ensures Accounted(Core(map[], [], [], 0, [], 0)) && Tabled(Core(map[], [], [], 0, [], 0), map[], None)
  {
  }

  /** Handles may go, but none comes back or changes its key or charge, or returns to the cache. */
  ghost predicate Stable(c: Core, r: Core) {
    && r.entries.Keys <= c.entries.Keys
    && forall id :: id in r.entries ==>
         r.entries[id].key == c.entries[id].key && r.entries[id].charge == c.entries[id].charge
             && (r.entries[id].inCache ==> c.entries[id].inCache)
  }

  lemma EraseStable(c: Core, id: nat)
    requires id in c.entries && c.entries[id].refs > 0
    ensures Stable(c, Erase(c, id))
  {
  }

  class LRUCache {
    const capacity: nat
    const table: HandleTable
    var c: Core
    /** The handles clients hold, with repetition. */
    ghost var held: multiset<nat>

    ghost predicate Valid()
      reads this, table
    {
      table.Valid() && Inv(c, held, table.contents, None)
    }

    constructor (capacity: nat, hashOf: Bytes -> nat)
      ensures Valid() && c.made == 0 && held == multiset{} && fresh(table) && this.capacity == capacity
    {
      hide Inv;
      this.capacity := capacity;
      table := new HandleTable(hashOf);
      c := Core(map[], [], [], 0, [], 0);
      held := multiset{};
      EmptyInv();
    }

    /** A handle on the entry of a key, if cached. */
    method Lookup(key: Bytes) returns (r: Option<nat>)
      requires Valid()
      modifies this
      ensures Valid() && table.contents == old(table.contents)
      ensures r == if key in table.contents then Some(table.contents[key]) else None
      ensures held == old(held) + (if r.Some? then multiset{r.value} else multiset{})
      ensures r.Some? ==> r.value in c.entries && c.entries[r.value].key == key
      ensures c.deleted == old(c.deleted) && c.usage == old(c.usage) && c.made == old(c.made)
      ensures r.Some? ==> c.lru == Without(old(c.lru), r.value) && Stable(old(c), c)
      ensures r.Some? ==> c.inUse == old(c.inUse) + if r.value in old(c.lru) then [r.value] else []
      ensures r == None ==> c == old(c)
    {
      hide Inv, Without, Ref, Stable;
      r := table.Lookup(key);
      if r.Some? {
        CachedFacts(c, held, table.contents, key);
        RefFacts(c, held, table.contents, r.value);
        RefKeeps(c, held, table.contents, None, r.value);
        c := Ref(c, r.value);
        held := held + multiset{r.value};
      }
    }

    /** Gives a handle back; the last one of an erased entry runs its deleter. */
    method Release(id: nat)
      requires Valid() && id in held
      modifies this
      ensures Valid() && held == old(held) - multiset{id}
      ensures c.deleted == old(c.deleted) + if old(held[id]) == 1 && !old(c.entries[id].inCache) then [id] else []
      ensures c.usage == old(c.usage) && c.made == old(c.made) && Stable(old(c), c)
      ensures if old(held[id]) == 1 && old(c.entries[id].inCache)
              then c.lru == old(c.lru) + [id] && c.inUse == Without(old(c.inUse), id)
              else c.lru == old(c.lru) && c.inUse == old(c.inUse)
    {
      hide Inv, Without, Unref, Stable;
      UnrefFacts(c, held, table.contents, id);
      UnrefKeeps(c, held, table.contents, None, id);
      c := Unref(c, id);
      held := held - multiset{id};
    }

    /** Takes a key out of the cache. */
    method EraseKey(key: Bytes) returns (erased: bool)
      requires Valid()
      modifies this, table
      ensures Valid() && held == old(held) && table.contents == old(table.contents) - {key}
      ensures erased <==> key in old(table.contents)
      ensures c.deleted == old(c.deleted)
                + (if erased && held[old(table.contents[key])] == 0 then [old(table.contents[key])] else [])
      ensures Stable(old(c), c)
      ensures c.made == old(c.made) && (!erased ==> c == old(c))
      ensures erased ==>
                var id := old(table.contents[key]);
                && id in old(c.entries) && c.usage == old(c.usage) - old(c.entries[id].charge)
                && c.lru == Without(old(c.lru), id) && c.inUse == Without(old(c.inUse), id)
    {
      hide Counted, Listed, Charged, Accounted, Tabled, Without;
      RemoveKeeps(c, held, table.contents, key);
      var r := table.Remove(key);
      if r.Some? {
        EraseKeeps(c, held, table.contents, r.value);
        EraseStable(c, r.value);
        c := Erase(c, r.value);
      }
      erased := r.Some?;
    }

    /**
     * Caches an entry under a key, replacing the one there, and then drops the
     * least recently used entries, `n` of them, until the charges fit or none is
     * unused; it stops as soon as they fit.
     */
    method Insert(key: Bytes, charge: nat) returns (id: nat, ghost n: nat)
      requires Valid()
      modifies this, table
      ensures Valid() && id == old(c.made) && c.made == id + 1
      ensures held == old(held) + multiset{id}
      ensures id in c.entries && c.entries[id].key == key && c.entries[id].charge == charge
      ensures if capacity > 0 then key in table.contents && table.contents[key] == id else !c.entries[id].inCache
      ensures var old1 := Previous(capacity, old(table.contents), key);
              && Dropped(old(c.entries), ListWithout(old(c.lru), old1), UsageWith(capacity, old(c), old1, charge),
                  capacity, n, c)
              && ContentsLeft(if capacity > 0 then old(table.contents)[key := id] else old(table.contents),
                              ListWithout(old(c.lru), old1)[..n], table.contents)
      ensures old(c.usage) + charge <= capacity ==> n == 0
    {
      hide Inv, Without, Total, Erase, Stable;
      ghost var before, contents := c, table.contents;
      ghost var old1 := Previous(capacity, contents, key);
      id := Place(key, charge);
      ghost var placed := c;
      HeldIsLive(c, held, table.contents, id);
      n := Evict(capacity);
      HeldIsLive(c, held, table.contents, id);
      SameLists(before, placed, n);
      StillThere(placed, c, id);
    }

    /** The new entry in the table and among those in use; the one it replaces is erased. */
    method Place(key: Bytes, charge: nat) returns (id: nat)
      requires Valid()
      modifies this, table
      ensures Valid() && id == old(c.made) && c.made == id + 1 && held == old(held) + multiset{id}
      ensures id in c.entries && c.entries[id].key == key && c.entries[id].charge == charge
      ensures c.entries[id].inCache <==> capacity > 0
      ensures table.contents == if capacity > 0 then old(table.contents)[key := id] else old(table.contents)
      ensures var old1 := Previous(capacity, old(table.contents), key);
              && (old1.Some? ==> old1.value in old(c.entries))
              && c.lru == ListWithout(old(c.lru), old1) && c.usage == UsageWith(capacity, old(c), old1, charge)
      ensures SameCharges(c.lru, old(c), c)
    {
      hide Inv, Without, Total, Erase, Add, SameCharges, UsageWith;
      PlaceFacts(c, held, table.contents, key, charge, capacity);
      id := c.made;
      c := Add(c, key, charge, capacity > 0);
      held := held + multiset{id};
      if capacity > 0 {
        var previous := table.Insert(key, id);
        if previous.Some? {
          c := Erase(c, previous.value);
        }
      }
    }

    /**
     * Drops entries from the old end of the LRU list while the charges exceed the
     * limit: `n` of them, and no more than needed.
     */
    method Evict(limit: nat) returns (ghost n: nat)
      requires Valid()
      modifies this, table
      ensures Valid() && held == old(held) && c.made == old(c.made) && Stable(old(c), c)
      ensures Dropped(old(c.entries), old(c.lru), old(c.usage), limit, n, c)
      ensures c.inUse == old(c.inUse) && c.deleted == old(c.deleted) + old(c.lru)[..n]
      ensures ContentsLeft(old(table.contents), old(c.lru)[..n], table.contents)
    {
      hide Inv, Without, Total, Stable, Evicting, ContentsLeft;
      n := 0;
      EvictStart(c, table.contents, limit);
      while c.usage > limit && c.lru != []
        invariant Valid() && held == old(held) && c.made == old(c.made)
        invariant Evicting(old(c), old(table.contents), limit, n, c, table.contents)
        decreases |c.lru|
      {
        ghost var was, contents := c, table.contents;
        EvictOldest();
        EvictStep(old(c), old(table.contents), limit, n, was, contents, c, table.contents);
        n := n + 1;
      }
      EvictDone(old(c), old(table.contents), limit, n, c, table.contents);
    }

    method EvictOldest()
      requires Valid() && c.lru != []
      modifies this, table
      ensures Valid() && held == old(held) && c.made == old(c.made) && Stable(old(c), c)
      ensures c.lru == old(c.lru)[1..] && c.inUse == old(c.inUse) && c.deleted == old(c.deleted) + [old(c.lru[0])]
      ensures old(c.lru[0] in c.entries) && c.usage == old(c.usage) - old(c.entries)[old(c.lru[0])].charge
      ensures ContentsLeft(old(table.contents), [old(c.lru[0])], table.contents)
    {
      hide Inv, Without, Stable;
      OldestIsTabled(c, held, table.contents);
      FirstOut(c.lru);
      NotIn(c.inUse, c.lru[0]);
      var _ := EraseKey(c.entries[c.lru[0]].key);
    }

    /** Drops every entry no client holds, and no other. */
    method Prune()
      requires Valid()
      modifies this, table
      ensures Valid() && held == old(held) && c.made == old(c.made) && c.lru == [] && c.inUse == old(c.inUse)
      ensures c.deleted == old(c.deleted) + old(c.lru)
      ensures ContentsLeft(old(table.contents), old(c.lru), table.contents)
    {
      hide Inv, Without, Stable;
      ghost var n := 0;
      NothingDropped(c, table.contents);
      while c.lru != []
        invariant Valid() && held == old(held) && c.made == old(c.made)
        invariant n <= |old(c.lru)| && c.lru == old(c.lru)[n..] && c.inUse == old(c.inUse)
        invariant c.deleted == old(c.deleted) + old(c.lru)[..n]
        invariant ContentsLeft(old(table.contents), old(c.lru)[..n], table.contents)
        decreases |c.lru|
      {
        ghost var contents, x := table.contents, c.lru[0];
        EvictOldest();
        LeftTrans(old(table.contents), old(c.lru)[..n], contents, x, table.contents);
        assert old(c.lru)[..n] + [x] == old(c.lru)[..n + 1];
        n := n + 1;
      }
      assert old(c.lru)[..n] == old(c.lru);
    }
  }

  // ---- What insertion and eviction leave ----

  /** The entry that an insertion replaces. */
  ghost function Previous(capacity: nat, contents: map<Bytes, nat>, key: Bytes): Option<nat> {
    if capacity > 0 && key in contents then Some(contents[key]) else None
  }

  ghost function ListWithout(s: seq<nat>, x: Option<nat>): seq<nat> {
    if x.Some? then Without(s, x.value) else s
  }

  /** The charges with the new entry and without the one it replaces. */
  ghost function UsageWith(capacity: nat, c: Core, replaced: Option<nat>, charge: nat): int {
    c.usage + (if capacity > 0 then charge else 0)
    - (if replaced.Some? && replaced.value in c.entries then c.entries[replaced.value].charge else 0)
  }

  /** The first `n` of the list are gone, and not one more than it took to bring the charges within the limit. */
  ghost predicate Dropped(entries: map<nat, Handle>, lru: seq<nat>, usage: int, limit: nat, n: nat, c: Core) {
    && n <= |lru| && c.lru == lru[n..] && c.usage == usage - Total(entries, lru[..n])
    && (c.usage <= limit || c.lru == [])
    && (n > 0 ==> usage - Total(entries, lru[..n - 1]) > limit)
  }

  /** The table without the entries that were dropped. */
  ghost predicate ContentsLeft(before: map<Bytes, nat>, dropped: seq<nat>, after: map<Bytes, nat>) {
    && (forall k :: k in after <==> k in before && before[k] !in dropped)
    && (forall k :: k in after ==> after[k] == before[k])
  }

  lemma NothingDropped(c: Core, contents: map<Bytes, nat>)
    ensures Stable(c, c) && Total(c.entries, c.lru[..0]) == 0 && ContentsLeft(contents, c.lru[..0], contents)
  {
  }

  lemma LeftTrans(a: map<Bytes, nat>, dropped: seq<nat>, b: map<Bytes, nat>, x: nat, after: map<Bytes, nat>)
    requires ContentsLeft(a, dropped, b) && ContentsLeft(b, [x], after)
    ensures ContentsLeft(a, dropped + [x], after)
  {
  }

  lemma StableTrans(a: Core, b: Core, r: Core, x: nat)
    requires Stable(a, b) && Stable(b, r) && x in b.entries
    ensures Stable(a, r) && x in a.entries && a.entries[x].charge == b.entries[x].charge
  {
  }

  ghost predicate SameCharges(ids: seq<nat>, a: Core, b: Core) {
    forall x :: x in ids ==> x in a.entries && x in b.entries && b.entries[x].charge == a.entries[x].charge
  }

  lemma CachedFacts(c: Core, held: multiset<nat>, contents: map<Bytes, nat>, key: Bytes)
    requires Inv(c, held, contents, None) && key in contents
    ensures contents[key] in c.entries && c.entries[contents[key]].key == key && c.entries[contents[key]].inCache
  {
    hide Counted, Listed, Charged, Accounted;
  }

  /** A reference moves an unused entry out of the LRU list, to the newest end of the other. */
  lemma RefFacts(c: Core, held: multiset<nat>, contents: map<Bytes, nat>, id: nat)
    requires Inv(c, held, contents, None) && id in c.entries && c.entries[id].inCache
    ensures var r := Ref(c, id);
              && r.lru == Without(c.lru, id) && r.inUse == c.inUse + (if id in c.lru then [id] else [])
              && r.deleted == c.deleted && r.usage == c.usage && r.made == c.made && Stable(c, r)
              && id in r.entries && r.entries[id].key == c.entries[id].key
  {
    hide Without, Charged, Accounted, Tabled;
    if id !in c.lru { NotIn(c.lru, id); }
  }

  /** The last reference of a client moves a cached entry to the newest end of the LRU list. */
  lemma UnrefFacts(c: Core, held: multiset<nat>, contents: map<Bytes, nat>, id: nat)
    requires Inv(c, held, contents, None) && id in held
    ensures id in c.entries && c.entries[id].refs > 0
    ensures var r := Unref(c, id);
              && r.usage == c.usage && r.made == c.made && Stable(c, r)
              && if held[id] == 1 && c.entries[id].inCache then r.lru == c.lru + [id] && r.inUse == Without(c.inUse, id)
                 else r.lru == c.lru && r.inUse == c.inUse
  {
    hide Without, Charged, Accounted, Tabled, Listed;
  }

  /** What becomes of the cache when an entry is made and put in the place of another. */
  lemma PlaceFacts(c: Core, held: multiset<nat>, contents: map<Bytes, nat>, key: Bytes, charge: nat, capacity: nat)
    requires Inv(c, held, contents, None)
    ensures var added, old1 := Add(c, key, charge, capacity > 0), Previous(capacity, contents, key);
              && (old1.Some? ==> old1.value in c.entries && old1.value in added.entries
                                 && added.entries[old1.value].refs > 0)
              && var placed := if old1.Some? then Erase(added, old1.value) else added;
                 && Inv(placed, held + multiset{c.made}, if capacity > 0 then contents[key := c.made]
                     else contents, None)
                 && placed.made == c.made + 1 && placed.lru == ListWithout(c.lru, old1)
                 && placed.usage == UsageWith(capacity, c, old1, charge) && SameCharges(placed.lru, c, placed)
                 && c.made in placed.entries && placed.entries[c.made].key == key
                 && placed.entries[c.made].charge == charge && (placed.entries[c.made].inCache <==> capacity > 0)
  {
    hide Inv, Erase, Without, Total;
    var added, old1 := Add(c, key, charge, capacity > 0), Previous(capacity, contents, key);
    var more := held + multiset{c.made};
    var contents' := if capacity > 0 then contents[key := c.made] else contents;
    AddKeeps(c, held, contents, key, charge, capacity > 0);
    AddFacts(c, held, contents);
    if old1.Some? {
      CachedFacts(c, held, contents, key);
      EraseKeeps(added, more, contents', old1.value);
      EraseOther(added, old1.value, c.made);
      EraseStable(added, old1.value);
      ErasedCharges(c, held, contents, added, old1.value, more, contents');
    }
  }

  lemma AddFacts(c: Core, held: multiset<nat>, contents: map<Bytes, nat>)
    requires Inv(c, held, contents, None)
    ensures c.made !in c.entries && forall x :: x in c.lru ==> x in c.entries
  {
    hide Counted, Charged, Tabled;
  }

  lemma EraseOther(c: Core, id: nat, x: nat)
    requires id in c.entries && c.entries[id].refs > 0 && x in c.entries && x != id
    ensures x in Erase(c, id).entries && Erase(c, id).entries[x] == c.entries[x]
  {
  }

  lemma ErasedCharges(c: Core, held: multiset<nat>, contents: map<Bytes, nat>, added: Core, id: nat,
                      more: multiset<nat>, contents': map<Bytes, nat>)
    requires Inv(c, held, contents, None) && id in added.entries && added.entries[id].refs > 0
    requires added.lru == c.lru && forall x :: x in c.entries ==> x in added.entries && added.entries[x] == c.entries[x]
    requires Inv(Erase(added, id), more, contents', None) && Erase(added, id).lru == Without(c.lru, id)
    requires Stable(added, Erase(added, id))
    ensures SameCharges(Without(c.lru, id), c, Erase(added, id))
  {
    hide Without, Erase, Charged, Accounted, Tabled, Counted;
    WithoutIs(c.lru, id);
  }

  /** `n` entries have gone from the old end so far, each while the charges exceeded the limit. */
  ghost predicate Evicting(a: Core, contents: map<Bytes, nat>, limit: nat, n: nat, c: Core, now: map<Bytes, nat>) {
    && Stable(a, c) && n <= |a.lru| && c.lru == a.lru[n..] && c.inUse == a.inUse && c.deleted == a.deleted + a.lru[..n]
    && c.usage == a.usage - Total(a.entries, a.lru[..n])
    && (n > 0 ==> a.usage - Total(a.entries, a.lru[..n - 1]) > limit)
    && ContentsLeft(contents, a.lru[..n], now)
  }

  lemma EvictStart(c: Core, contents: map<Bytes, nat>, limit: nat)
    ensures Evicting(c, contents, limit, 0, c, contents)
  {
    NothingDropped(c, contents);
  }

  lemma EvictStep(a: Core, contents: map<Bytes, nat>, limit: nat, n: nat, b: Core, mid: map<Bytes, nat>,
                  c: Core, now: map<Bytes, nat>)
    requires Evicting(a, contents, limit, n, b, mid) && b.usage > limit && b.lru != [] && b.lru[0] in b.entries
    requires Stable(b, c) && c.lru == b.lru[1..] && c.inUse == b.inUse && c.deleted == b.deleted + [b.lru[0]]
    requires c.usage == b.usage - b.entries[b.lru[0]].charge && ContentsLeft(mid, [b.lru[0]], now)
    ensures Evicting(a, contents, limit, n + 1, c, now)
  {
    hide Total, Stable, ContentsLeft;
    var x := b.lru[0];
    StableTrans(a, b, c, x);
    TotalAppend(a.entries, a.lru[..n], x);
    LeftTrans(contents, a.lru[..n], mid, x, now);
    assert a.lru[..n] + [x] == a.lru[..n + 1];
  }

  lemma EvictDone(a: Core, contents: map<Bytes, nat>, limit: nat, n: nat, c: Core, now: map<Bytes, nat>)
    requires Evicting(a, contents, limit, n, c, now) && (c.usage <= limit || c.lru == [])
    ensures Stable(a, c) && Dropped(a.entries, a.lru, a.usage, limit, n, c) && ContentsLeft(contents, a.lru[..n], now)
    ensures c.inUse == a.inUse && n <= |a.lru| && c.deleted == a.deleted + a.lru[..n]
  {
    hide Total, Stable, ContentsLeft;
  }

  lemma SameLists(before: Core, placed: Core, n: nat)
    requires n <= |placed.lru|
    requires SameCharges(placed.lru, before, placed)
    ensures Total(before.entries, placed.lru[..n]) == Total(placed.entries, placed.lru[..n])
    ensures n > 0 ==> Total(before.entries, placed.lru[..n - 1]) == Total(placed.entries, placed.lru[..n - 1])
  {
    hide Total;
    TotalSame(before.entries, placed.entries, placed.lru[..n]);
    if n > 0 { TotalSame(before.entries, placed.entries, placed.lru[..n - 1]); }
  }

  lemma StillThere(a: Core, r: Core, id: nat)
    requires Stable(a, r) && id in a.entries && id in r.entries
    ensures r.entries[id].key == a.entries[id].key && r.entries[id].charge == a.entries[id].charge
    ensures r.entries[id].inCache ==> a.entries[id].inCache
  {
  }

  lemma OldestIsTabled(c: Core, held: multiset<nat>, contents: map<Bytes, nat>)
    requires Inv(c, held, contents, None) && c.lru != []
    ensures var id := c.lru[0];
              && id in c.entries && c.entries[id].key in contents && contents[c.entries[id].key] == id
              && id !in c.inUse && held[id] == 0
              && forall k :: k in contents && contents[k] == id ==> k == c.entries[id].key
  {
    hide Charged, Accounted;
    assert c.lru[0] in c.lru;
  }

  /** Once no client holds a handle and the unused ones are dropped, every deleter has run exactly once. */
  lemma AllDeletedOnce(c: Core, held: multiset<nat>, contents: map<Bytes, nat>)
    requires Inv(c, held, contents, None) && held == multiset{} && c.lru == []
    ensures c.entries == map[] && NoRepeat(c.deleted) && forall id :: id in c.deleted <==> 0 <= id < c.made
    ensures c.usage == 0
  {
  }

  lemma FirstOut(s: seq<nat>)
    requires s != []
    ensures Without(s, s[0]) == s[1..]
  {
  }

  /** A handle somebody holds is alive and not on the LRU list. */
  lemma HeldIsLive(c: Core, held: multiset<nat>, contents: map<Bytes, nat>, id: nat)
    requires Inv(c, held, contents, None) && id in held
    ensures id in c.entries && id !in c.lru
  {
  }
}
