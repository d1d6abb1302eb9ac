/**
 * The bloom filter policy (util/bloom.cc).  The hash function is a parameter:
 * the filter owes nothing to its quality except speed.
 */
module Bloom {
  import opened DbFormat
  import opened Coding

  type HashFunction = Bytes -> Word

  /** The bit array of a filter: bit `p` is bit `p % 8` of byte `p / 8`. */
  predicate BitAt(bits: Bytes, p: nat)
    requires p / 8 < |bits|
  {
    HasBit(bits[p / 8], p % 8)
  }

  function WithBit(bits: Bytes, p: nat): (r: Bytes)
    requires p / 8 < |bits|
    ensures |r| == |bits|
  {
    SetBitRange(bits[p / 8], p % 8, 8);
    bits[p / 8 := SetBit(bits[p / 8], p % 8)]
  }

  lemma WithBitKeeps(bits: Bytes, p: nat, q: nat)
    requires p / 8 < |bits| && q / 8 < |bits|
    ensures BitAt(WithBit(bits, p), q) <==> p == q || BitAt(bits, q)
  {
    if p / 8 == q / 8 {
      SetBitKeeps(bits[p / 8], p % 8, q % 8);
    }
  }

  // ---- Probes ----

  /** Rotation right by 17 bits. */
  function Delta(h: Word): Word {
    h / 0x2_0000 + h % 0x2_0000 * 0x8000
  }

  /** The hash of probe `j`: double hashing in 32-bit arithmetic. */
  function Probe(h: Word, j: nat): Word {
    (h + j * Delta(h)) % WORD
  }

  lemma ProbeStep(h: Word, j: nat)
    ensures (Probe(h, j) + Delta(h)) % WORD == Probe(h, j + 1)
  {
    var a := h + j * Delta(h);
    ModAdds(a / WORD, a % WORD + Delta(h));
  }

  lemma ModAdds(q: nat, r: nat)
    ensures (q * WORD + r) % WORD == r % WORD
  {
  }

  /** Bit `q` of an array of `size` bytes is one of the first `k` probes of the hash. */
  ghost predicate Hits(h: Word, k: nat, size: nat, q: nat)
    requires size > 0
  {
    exists j: nat :: j < k && q == Probe(h, j) % (8 * size)
  }

  lemma HitsStep(h: Word, k: nat, size: nat, q: nat)
    requires size > 0
    ensures Hits(h, k + 1, size, q) <==> Hits(h, k, size, q) || q == Probe(h, k) % (8 * size)
  {
  }

  /** Some key probes bit `q`. */
  ghost predicate Probed(hash: HashFunction, keys: seq<Bytes>, k: nat, size: nat, q: nat)
    requires size > 0
  {
    exists i :: 0 <= i < |keys| && Hits(hash(keys[i]), k, size, q)
  }

  lemma ProbedStep(hash: HashFunction, keys: seq<Bytes>, key: Bytes, k: nat, size: nat, q: nat)
    requires size > 0
    ensures Probed(hash, keys + [key], k, size, q) <==> Probed(hash, keys, k, size, q) || Hits(hash(key), k, size, q)
  {
    hide Hits;
    var all := keys + [key];
    if i :| 0 <= i < |keys| && Hits(hash(keys[i]), k, size, q) {
      assert all[i] == keys[i];
    }
    if Hits(hash(key), k, size, q) {
      assert all[|keys|] == key;
    }
  }

  /** Number of bytes in the bit array for `n` keys. */
  function FilterBytes(n: nat, bitsPerKey: nat): nat {
    var bits := n * bitsPerKey;
    ((if bits < 64 then 64 else bits) + 7) / 8
  }

  /** A filter built for `keys`: its bits are exactly the probes of the keys, followed by the probe count. */
  ghost predicate FilterOf(hash: HashFunction, filter: Bytes, keys: seq<Bytes>, k: nat) {
    && |filter| >= 9
    && filter[|filter| - 1] == k
    && var bits := filter[..|filter| - 1];
       forall q: nat :: q / 8 < |bits| ==> (BitAt(bits, q) <==> Probed(hash, keys, k, |bits|, q))
  }

  /** CreateFilter appends the filter of the keys to `dst`. */
  method CreateFilter(hash: HashFunction, keys: seq<Bytes>, bitsPerKey: nat, k: nat, dst: Bytes) returns (r: Bytes)
    requires 1 <= k <= 30
    ensures dst <= r && |r| == |dst| + FilterBytes(|keys|, bitsPerKey) + 1
    ensures FilterOf(hash, r[|dst|..], keys, k)
  {
    hide BitAt, Hits, Probe, WithBit;
    var bytes := FilterBytes(|keys|, bitsPerKey);
    var bits := seq(bytes, i => 0);
    forall q: nat | q / 8 < bytes ensures !BitAt(bits, q) { NoBits(bits, q); }
    for i := 0 to |keys|
      invariant |bits| == bytes
      invariant forall q: nat :: q / 8 < bytes ==> (BitAt(bits, q) <==> Probed(hash, keys[..i], k, bytes, q))
    {
      bits := AddProbes(hash(keys[i]), k, bits);
      forall q: nat | q / 8 < bytes
        ensures BitAt(bits, q) <==> Probed(hash, keys[..i + 1], k, bytes, q)
      {
        ProbedStep(hash, keys[..i], keys[i], k, bytes, q);
      }
    }
    r := dst + bits + [k];
    assert r[|dst|..] == bits + [k];
  }

  lemma NoBits(bits: Bytes, q: nat)
    requires q / 8 < |bits| && bits[q / 8] == 0
    ensures !BitAt(bits, q)
  {
    ZeroHasNoBit(q % 8);
  }

  /** The probe loop for one key. */
  method AddProbes(h0: Word, k: nat, bits0: Bytes) returns (bits: Bytes)
    requires bits0 != []
    ensures |bits| == |bits0|
    ensures forall q: nat :: q / 8 < |bits| ==> (BitAt(bits, q) <==> BitAt(bits0, q) || Hits(h0, k, |bits|, q))
  {
    hide BitAt, Hits, Probe, WithBit, Delta;
    var size := |bits0|;
    var h, delta := h0, Delta(h0);
    bits := bits0;
    FirstProbe(h0, size);
    for j := 0 to k
      invariant h == Probe(h0, j) && |bits| == size
      invariant forall q: nat :: q / 8 < size ==> (BitAt(bits, q) <==> BitAt(bits0, q) || Hits(h0, j, size, q))
    {
      var p := h % (8 * size);
      forall q: nat | q / 8 < size
        ensures BitAt(WithBit(bits, p), q) <==> BitAt(bits0, q) || Hits(h0, j + 1, size, q)
      {
        WithBitKeeps(bits, p, q);
        HitsStep(h0, j, size, q);
      }
      bits := WithBit(bits, p);
      ProbeStep(h0, j);
      h := (h + delta) % WORD;
    }
  }

  lemma FirstProbe(h: Word, size: nat)
    requires size > 0
    ensures Probe(h, 0) == h
    ensures forall q :: !Hits(h, 0, size, q)
  {
  }

  /** What the policy answers for a key and stored filter bytes. */
  ghost predicate MayMatch(hash: HashFunction, key: Bytes, filter: Bytes) {
    && |filter| >= 2
    && var bits, k := filter[..|filter| - 1], filter[|filter| - 1];
       k > 30 || forall j: nat :: j < k ==> BitAt(bits, Probe(hash(key), j) % (8 * |bits|))
  }

  method KeyMayMatch(hash: HashFunction, key: Bytes, filter: Bytes) returns (r: bool)
    ensures r <==> MayMatch(hash, key, filter)
  {
    hide Probe, Delta, HasBit;
    if |filter| < 2 { return false; }
    var size, k := |filter| - 1, filter[|filter| - 1];
    if k > 30 { return true; }
    var h0 := hash(key);
    var h, delta := h0, Delta(h0);
    FirstProbe(h0, size);
    for j := 0 to k
      invariant h == Probe(h0, j)
      invariant forall i: nat :: i < j ==> BitAt(filter[..size], Probe(h0, i) % (8 * size))
    {
      var p := h % (8 * size);
      if !HasBit(filter[p / 8], p % 8) {
        return false;
      }
      ProbeStep(h0, j);
      h := (h + delta) % WORD;
    }
    return true;
  }

  /** No false negatives: a filter admits every key it was built for. */
  lemma NoFalseNegatives(hash: HashFunction, filter: Bytes, keys: seq<Bytes>, k: nat, key: Bytes)
    requires FilterOf(hash, filter, keys, k) && key in keys
    ensures MayMatch(hash, key, filter)
  {
  }

}
