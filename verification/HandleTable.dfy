/**
 * The hash table of the cache: chains of entries, doubled as it fills
 * (util/cache.cc).
 */
module HandleTable {
  import opened DbFormat

  datatype Elem = Elem(key: Bytes, hash: nat, id: nat)

  type Chains = seq<seq<Elem>>

  /** The bucket of a hash; the number of buckets is a power of two in the source, which masks. */
  function Bucket(hash: nat, length: nat): nat
    requires length > 0
  {
    hash % length
  }

  ghost predicate ChainOk(chain: seq<Elem>, bucket: nat, length: nat, hashOf: Bytes -> nat)
    requires length > 0
  {
    && (forall i :: 0 <= i < |chain| ==>
        chain[i].hash == hashOf(chain[i].key) && Bucket(chain[i].hash, length) == bucket)
    && (forall i, j :: 0 <= i < j < |chain| ==> chain[i].key != chain[j].key)
  }

  ghost predicate ChainsOk(list: Chains, hashOf: Bytes -> nat) {
    |list| > 0 && forall b :: 0 <= b < |list| ==> ChainOk(list[b], b, |list|, hashOf)
  }

  ghost predicate InChain(chain: seq<Elem>, key: Bytes, id: nat) {
    exists i :: 0 <= i < |chain| && chain[i].key == key && chain[i].id == id
  }

  /** The chains hold exactly the pairs of the map. */
  ghost predicate Represents(list: Chains, hashOf: Bytes -> nat, contents: map<Bytes, nat>)
    requires |list| > 0
  {
    forall key, id :: InChain(list[Bucket(hashOf(key), |list|)], key, id) <==> key in contents && contents[key] == id
  }

  /** FindPointer: the index of the key in its chain, or the end of the chain. */
  method FindPointer(chain: seq<Elem>, key: Bytes, hash: nat) returns (n: nat)
    ensures n <= |chain|
    ensures n < |chain| ==> chain[n].key == key && chain[n].hash == hash
    ensures forall i :: 0 <= i < n ==> !(chain[i].key == key && chain[i].hash == hash)
  {
    n := 0;
    while n < |chain| && (chain[n].hash != hash || chain[n].key != key)
      invariant n <= |chain|
      invariant forall i :: 0 <= i < n ==> !(chain[i].key == key && chain[i].hash == hash)
    {
      n := n + 1;
    }
  }

  /** A key not found in its chain is not in the table. */
  lemma Absent(list: Chains, hashOf: Bytes -> nat, contents: map<Bytes, nat>, key: Bytes)
    requires ChainsOk(list, hashOf) && Represents(list, hashOf, contents)
    requires var c := list[Bucket(hashOf(key), |list|)]; forall i :: 0 <= i < |c| ==>
               !(c[i].key == key && c[i].hash == hashOf(key))
    ensures key !in contents
  {
    var b := Bucket(hashOf(key), |list|);
    assert key in contents ==> InChain(list[b], key, contents[key]);
  }

  /** An entry found is the one the table maps its key to. */
  lemma Present(list: Chains, hashOf: Bytes -> nat, contents: map<Bytes, nat>, key: Bytes, n: nat)
    requires ChainsOk(list, hashOf) && Represents(list, hashOf, contents)
    requires n < |list[Bucket(hashOf(key), |list|)]| && list[Bucket(hashOf(key), |list|)][n].key == key
    ensures key in contents && contents[key] == list[Bucket(hashOf(key), |list|)][n].id
  {
    var b := Bucket(hashOf(key), |list|);
    assert InChain(list[b], key, list[b][n].id);
  }

  /** Adding an entry for a new key, at either end of its chain. */
  lemma Added(list: Chains, hashOf: Bytes -> nat, contents: map<Bytes, nat>, e: Elem, front: bool)
    requires ChainsOk(list, hashOf) && Represents(list, hashOf, contents) && e.key !in contents
               && e.hash == hashOf(e.key)
    ensures var b := Bucket(e.hash, |list|);
            var more := list[b := if front then [e] + list[b] else list[b] + [e]];
              ChainsOk(more, hashOf) && Represents(more, hashOf, contents[e.key := e.id])
  {
    hide InChain;
    var b := Bucket(e.hash, |list|);
    var chain := list[b];
    var longer := if front then [e] + chain else chain + [e];
    var more := list[b := longer];
    forall i | 0 <= i < |chain| ensures chain[i].key != e.key {
      ChainHas(chain, i);
    }
    forall key, id
      ensures InChain(more[Bucket(hashOf(key), |more|)], key, id) <==>
                key in contents[e.key := e.id] && contents[e.key := e.id][key] == id
    {
      InLonger(chain, e, front, key, id);
    }
  }

  lemma ChainHas(chain: seq<Elem>, i: nat)
    requires i < |chain|
    ensures InChain(chain, chain[i].key, chain[i].id)
  {
  }

  lemma InLonger(chain: seq<Elem>, e: Elem, front: bool, key: Bytes, id: nat)
    ensures InChain(if front then [e] + chain else chain + [e], key, id) <==>
              InChain(chain, key, id) || (e.key == key && e.id == id)
  {
    var longer := if front then [e] + chain else chain + [e];
    if i :| 0 <= i < |chain| && chain[i].key == key && chain[i].id == id {
      assert longer[if front then i + 1 else i] == chain[i];
    }
    if e.key == key && e.id == id {
      assert longer[if front then 0 else |chain|] == e;
    }
  }

  /** Putting an entry in the place of the one with its key. */
  lemma Replaced(list: Chains, hashOf: Bytes -> nat, contents: map<Bytes, nat>, n: nat, e: Elem)
    requires ChainsOk(list, hashOf) && Represents(list, hashOf, contents) && e.hash == hashOf(e.key)
    requires n < |list[Bucket(e.hash, |list|)]| && list[Bucket(e.hash, |list|)][n].key == e.key
    ensures var b := Bucket(e.hash, |list|);
            var more := list[b := list[b][n := e]];
              ChainsOk(more, hashOf) && Represents(more, hashOf, contents[e.key := e.id])
  {
    var b := Bucket(e.hash, |list|);
    var chain := list[b];
    var more := list[b := chain[n := e]];
    forall key, id
      ensures InChain(more[Bucket(hashOf(key), |more|)], key, id) <==>
                key in contents[e.key := e.id] && contents[e.key := e.id][key] == id
    {
      InUpdated(chain, n, e, key, id);
    }
  }

  lemma InUpdated(chain: seq<Elem>, n: nat, e: Elem, key: Bytes, id: nat)
    requires n < |chain| && chain[n].key == e.key && forall i, j :: 0 <= i < j < |chain| ==>
               chain[i].key != chain[j].key
    ensures InChain(chain[n := e], key, id) <==> if key == e.key then id == e.id else InChain(chain, key, id)
  {
    assert chain[n := e][n] == e;
    if i :| 0 <= i < |chain| && chain[i].key == key && chain[i].id == id {
      assert i != n ==> chain[n := e][i] == chain[i];
    }
  }

  /** Unlinking the entry of a key. */
  lemma Unlinked(list: Chains, hashOf: Bytes -> nat, contents: map<Bytes, nat>, n: nat, key: Bytes)
    requires ChainsOk(list, hashOf) && Represents(list, hashOf, contents)
    requires n < |list[Bucket(hashOf(key), |list|)]| && list[Bucket(hashOf(key), |list|)][n].key == key
    ensures var b := Bucket(hashOf(key), |list|);
            var less := list[b := list[b][..n] + list[b][n + 1..]];
              ChainsOk(less, hashOf) && Represents(less, hashOf, contents - {key})
  {
    var b := Bucket(hashOf(key), |list|);
    var chain := list[b];
    var shorter := chain[..n] + chain[n + 1..];
    var less := list[b := shorter];
    forall k, id
      ensures InChain(less[Bucket(hashOf(k), |less|)], k, id) <==> k in contents - {key} && (contents - {key})[k] == id
    {
      InShorter(chain, n, k, id);
    }
  }

  lemma InShorter(chain: seq<Elem>, n: nat, key: Bytes, id: nat)
    requires n < |chain| && forall i, j :: 0 <= i < j < |chain| ==> chain[i].key != chain[j].key
    ensures InChain(chain[..n] + chain[n + 1..], key, id) <==> key != chain[n].key && InChain(chain, key, id)
  {
    var shorter := chain[..n] + chain[n + 1..];
    if i :| 0 <= i < |chain| && chain[i].key == key && chain[i].id == id && i != n {
      assert shorter[if i < n then i else i - 1] == chain[i];
    }
  }

  /** Moves every entry to the front of its chain in a table of another size. */
  method Rehash(list: Chains, newLength: nat, hashOf: Bytes -> nat, ghost contents: map<Bytes, nat>)
    returns (grown: Chains)
    requires ChainsOk(list, hashOf) && Represents(list, hashOf, contents) && newLength > 0
    ensures |grown| == newLength && ChainsOk(grown, hashOf) && Represents(grown, hashOf, contents)
  {
    hide ChainOk, InChain;
    grown := seq(newLength, i => []);
    ghost var done: map<Bytes, nat> := map[];
    EmptyTable(grown, hashOf);
    for i := 0 to |list|
      invariant |grown| == newLength && ChainsOk(grown, hashOf) && Represents(grown, hashOf, done)
      invariant Moved(list, hashOf, contents, done, i, 0)
    {
      var chain := list[i];
      for j := 0 to |chain|
        invariant |grown| == newLength && ChainsOk(grown, hashOf) && Represents(grown, hashOf, done)
        invariant Moved(list, hashOf, contents, done, i, j)
      {
        var e := chain[j];
        MoveOne(list, hashOf, contents, done, i, j);
        Added(grown, hashOf, done, e, true);
        var b := Bucket(e.hash, newLength);
        grown := grown[b := [e] + grown[b]];
        done := done[e.key := e.id];
      }
      NextChain(list, hashOf, contents, done, i);
    }
    AllMoved(list, hashOf, contents, done);
  }

  lemma EmptyTable(list: Chains, hashOf: Bytes -> nat)
    requires |list| > 0 && forall b :: 0 <= b < |list| ==> list[b] == []
    ensures ChainsOk(list, hashOf) && Represents(list, hashOf, map[])
  {
  }

  /** The entries before place (`i`, `j`) have been moved, and no others. */
  ghost predicate Moved(list: Chains, hashOf: Bytes -> nat, contents: map<Bytes, nat>, done: map<Bytes, nat>, i: nat,
                        j: nat)
    requires |list| > 0
  {
    && (forall k :: k in done ==> k in contents && done[k] == contents[k])
    && (forall b, x :: 0 <= b < |list| && 0 <= x < |list[b]| ==>
                         (list[b][x].key in done <==> b < i || (b == i && x < j)))
  }

  lemma MoveOne(list: Chains, hashOf: Bytes -> nat, contents: map<Bytes, nat>, done: map<Bytes, nat>, i: nat, j: nat)
    requires ChainsOk(list, hashOf) && Represents(list, hashOf, contents) && Moved(list, hashOf, contents, done, i, j)
    requires i < |list| && j < |list[i]|
    ensures var e := list[i][j];
              e.key !in done && e.hash == hashOf(e.key) && Moved(list, hashOf, contents, done[e.key := e.id], i, j + 1)
  {
    var e := list[i][j];
    assert InChain(list[i], e.key, e.id);
    forall b, x | 0 <= b < |list| && 0 <= x < |list[b]| && list[b][x].key == e.key ensures b == i && x == j {}
  }

  lemma NextChain(list: Chains, hashOf: Bytes -> nat, contents: map<Bytes, nat>, done: map<Bytes, nat>, i: nat)
    requires |list| > 0 && i < |list| && Moved(list, hashOf, contents, done, i, |list[i]|)
    ensures Moved(list, hashOf, contents, done, i + 1, 0)
  {
  }

  lemma AllMoved(list: Chains, hashOf: Bytes -> nat, contents: map<Bytes, nat>, done: map<Bytes, nat>)
    requires ChainsOk(list, hashOf) && Represents(list, hashOf, contents)
               && Moved(list, hashOf, contents, done, |list|, 0)
    ensures done == contents
  {
    forall k | k in contents ensures k in done {
      var b := Bucket(hashOf(k), |list|);
      assert InChain(list[b], k, contents[k]);
      var x :| 0 <= x < |list[b]| && list[b][x].key == k;
    }
  }

  /** Four doubled any number of times. */
  predicate FourDoubled(n: nat) {
    n == 4 || (n > 4 && n % 2 == 0 && FourDoubled(n / 2))
  }

  class HandleTable {
    const hashOf: Bytes -> nat
    var list: Chains
    var elems: nat
    ghost var contents: map<Bytes, nat>

    /** The chains hold the mapping, no more entries than chains, and the number of chains can serve as a mask. */
    ghost predicate Valid()
      reads this
    {
      Linked() && elems <= |list|
    }

    ghost predicate Linked()
      reads this
    {
      && ChainsOk(list, hashOf) && Represents(list, hashOf, contents) && elems == |contents| && FourDoubled(|list|)
    }

    constructor (hashOf: Bytes -> nat)
      ensures Valid() && contents == map[] && this.hashOf == hashOf
    {
      this.hashOf := hashOf;
      list, elems, contents := seq(4, i => []), 0, map[];
    }

    method Lookup(key: Bytes) returns (r: Option<nat>)
      requires Valid()
      ensures r == if key in contents then Some(contents[key]) else None
    {
      hide ChainOk, InChain;
      var hash := hashOf(key);
      var b := Bucket(hash, |list|);
      var n := FindPointer(list[b], key, hash);
      if n == |list[b]| {
        Absent(list, hashOf, contents, key);
        return None;
      }
      Present(list, hashOf, contents, key, n);
      return Some(list[b][n].id);
    }

    /** Puts an entry in, in the place of the one with its key if there is one. */
    method Insert(key: Bytes, id: nat) returns (previous: Option<nat>)
      requires Valid()
      modifies this
      ensures Valid() && contents == old(contents)[key := id]
      ensures previous == if key in old(contents) then Some(old(contents)[key]) else None
    {
      hide ChainOk, InChain;
      var hash := hashOf(key);
      var b := Bucket(hash, |list|);
      var n := FindPointer(list[b], key, hash);
      var e := Elem(key, hash, id);
      if n == |list[b]| {
        Absent(list, hashOf, contents, key);
        Added(list, hashOf, contents, e, false);
        previous := None;
        list := list[b := list[b] + [e]];
      } else {
        Present(list, hashOf, contents, key, n);
        Replaced(list, hashOf, contents, n, e);
        previous := Some(list[b][n].id);
        list := list[b := list[b][n := e]];
      }
      contents := contents[key := id];
      if previous == None {
        elems := elems + 1;
        if elems > |list| {
          Resize();
        }
      }
    }

    method Remove(key: Bytes) returns (r: Option<nat>)
      requires Valid()
      modifies this
      ensures Valid() && contents == old(contents) - {key}
      ensures r == if key in old(contents) then Some(old(contents)[key]) else None
    {
      hide ChainOk, InChain;
      var hash := hashOf(key);
      var b := Bucket(hash, |list|);
      var n := FindPointer(list[b], key, hash);
      if n < |list[b]| {
        Present(list, hashOf, contents, key, n);
        Unlinked(list, hashOf, contents, n, key);
        r := Some(list[b][n].id);
        list := list[b := list[b][..n] + list[b][n + 1..]];
        elems := elems - 1;
        assert contents.Keys == (contents - {key}).Keys + {key};
        contents := contents - {key};
      } else {
        Absent(list, hashOf, contents, key);
        assert contents - {key} == contents;
        r := None;
      }
    }

    /** Moves every entry to the front of its chain in the smallest table that has a chain for each. */
    method Resize()
      requires Linked()
      modifies this
      ensures Valid() && contents == old(contents) && (|list| > 4 ==> |list| / 2 < elems)
    {
      var newLength := 4;
      while newLength < elems
        invariant newLength >= 4 && FourDoubled(newLength) && (newLength > 4 ==> newLength / 2 < elems)
        decreases elems - newLength
      {
        newLength := newLength * 2;
      }
      list := Rehash(list, newLength, hashOf, contents);
    }
  }
}
