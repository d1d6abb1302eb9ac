/**
 * Fixed-width integers, varints, length-prefixed slices and single bits, and the
 * CRC32C checksum with its mask (util/coding.cc, util/crc32c.h; CRC32C is
 * section 12.1 of RFC 3720).
 */
module Coding {
  import opened DbFormat

  const WORD := 0x1_0000_0000
  const WORD64 := 0x1_0000_0000_0000_0000

  type Word = x: int | 0 <= x < WORD

  /** Little-endian 32-bit encoding. */
  function Fixed32(n: nat): (r: Bytes)
    requires n < WORD
    ensures |r| == 4
  {
    [n % 256, n / 256 % 256, n / 65536 % 256, n / 16777216]
  }

  function DecodeFixed32(b: Bytes): nat
    requires |b| == 4
  {
    (b[0] as int) + 256 * (b[1] as int) + 65536 * (b[2] as int) + 16777216 * (b[3] as int)
  }

  lemma Fixed32RoundTrip(n: nat)
    requires n < WORD
    ensures DecodeFixed32(Fixed32(n)) == n
  {
    var a := n / 256;
    var b := a / 256;
    assert n / 65536 == b && n / 16777216 == b / 256;
  }

  /** Little-endian 64-bit encoding. */
  function Fixed64(n: nat): (r: Bytes)
    ensures |r| == 8
  {
    Fixed32(n % WORD) + Fixed32(n / WORD % WORD)
  }

  function DecodeFixed64(b: Bytes): nat
    requires |b| == 8
  {
    DecodeFixed32(b[..4]) + WORD * DecodeFixed32(b[4..])
  }

  lemma Fixed64RoundTrip(n: nat)
    requires n < WORD64
    ensures DecodeFixed64(Fixed64(n)) == n
  {
    hide Fixed32, DecodeFixed32;
    Fixed32RoundTrip(n % WORD);
    Fixed32RoundTrip(n / WORD % WORD);
  }

  predicate Small(ns: seq<nat>) {
    forall i :: 0 <= i < |ns| ==> ns[i] < WORD
  }

  function Words(ns: seq<nat>): (r: Bytes)
    requires Small(ns)
    ensures |r| == 4 * |ns|
  {
    if ns == [] then [] else Words(ns[..|ns| - 1]) + Fixed32(ns[|ns| - 1])
  }

  lemma WordsAppend(ns: seq<nat>, n: nat)
    requires n < WORD && Small(ns)
    ensures Words(ns + [n]) == Words(ns) + Fixed32(n)
  {
    hide Fixed32;
  }

  lemma {:induction false} WordAt(ns: seq<nat>, i: nat)
    requires i < |ns| && Small(ns)
    ensures Words(ns)[4 * i..4 * i + 4] == Fixed32(ns[i])
  {
    hide Fixed32;
    var n := |ns| - 1;
    if i >= n {
    } else {
      WordAt(ns[..n], i);
    }
  }

  /** The loop that appends a list of numbers, each cut to 32 bits. */
  method PutWords(dst: Bytes, ns: seq<nat>) returns (r: Bytes)
    ensures dst <= r && |r| == |dst| + 4 * |ns|
    ensures Small(ns) ==> r == dst + Words(ns)
  {
    hide Fixed32;
    r := dst;
    for i := 0 to |ns|
      invariant dst <= r && |r| == |dst| + 4 * i
      invariant Small(ns) ==> r == dst + Words(ns[..i])
    {
      r := r + Fixed32(ns[i] % WORD);
      assert ns[..i] + [ns[i]] == ns[..i + 1];
      if Small(ns) { WordsAppend(ns[..i], ns[i]); }
    }
    assert ns[..|ns|] == ns;
  }

  // ---- CRC32C, one bit at a time ----

  function CrcBit(c: bv32): bv32 {
    if c & 1 == 1 then (c >> 1) ^ 0x82f63b78 else c >> 1
  }

  function CrcByte(c: bv32, b: byte): bv32 {
    CrcBit(CrcBit(CrcBit(CrcBit(CrcBit(CrcBit(CrcBit(CrcBit(c ^ (b as bv32)))))))))
  }

  function CrcFold(c: bv32, data: Bytes): bv32 {
    if data == [] then c else CrcByte(CrcFold(c, data[..|data| - 1]), data[|data| - 1])
  }

  function Invert(c: bv32): bv32 {
    c ^ 0xffff_ffff
  }

  function CrcExtend(crc: bv32, data: Bytes): bv32 {
    Invert(CrcFold(Invert(crc), data))
  }

  function CrcValue(data: Bytes): bv32 {
    CrcExtend(0, data)
  }

  lemma {:induction false} CrcFoldAppend(c: bv32, a: Bytes, b: Bytes)
    ensures CrcFold(CrcFold(c, a), b) == CrcFold(c, a + b)
  {
    hide CrcByte;
    if b == [] {
      assert a + b == a;
    } else {
      var n := |b| - 1;
      CrcFoldAppend(c, a, b[..n]);
      assert (a + b)[..|a + b| - 1] == a + b[..n];
    }
  }

  /** Extending a checksum is checksumming the concatenation. */
  lemma CrcExtendAppend(a: Bytes, b: Bytes)
    ensures CrcExtend(CrcValue(a), b) == CrcValue(a + b)
  {
    hide CrcFold, Invert;
    CrcFoldAppend(Invert(0), a, b);
    InvertTwice(CrcFold(Invert(0), a));
  }

  lemma InvertTwice(c: bv32)
    ensures Invert(Invert(c)) == c
  {
  }

  const MASK_DELTA := 0xa282_ead8

  /** crc32c::Mask: rotate right by 15 and add a constant. */
  function Mask(crc: nat): (m: nat)
    requires crc < WORD
    ensures m < WORD
  {
    (crc / 0x8000 + crc % 0x8000 * 0x2_0000 + MASK_DELTA) % WORD
  }

  function Unmask(m: nat): nat
    requires m < WORD
  {
    var rot := (m + WORD - MASK_DELTA) % WORD;
    rot / 0x2_0000 + rot % 0x2_0000 * 0x8000
  }

  lemma MaskRoundTrip(crc: nat)
    requires crc < WORD
    ensures Unmask(Mask(crc)) == crc
  {
    var hi, lo := crc / 0x8000, crc % 0x8000;
    var rot := hi + lo * 0x2_0000;
    assert 0 <= rot < WORD;
    var m := Mask(crc);
    assert (m + WORD - MASK_DELTA) % WORD == rot;
    assert rot / 0x2_0000 == lo && rot % 0x2_0000 == hi;
  }

  lemma UnmaskRoundTrip(m: nat)
    requires m < WORD
    ensures Unmask(m) < WORD && Mask(Unmask(m)) == m
  {
    var rot := (m + WORD - MASK_DELTA) % WORD;
    var lo, hi := rot / 0x2_0000, rot % 0x2_0000;
    var crc := Unmask(m);
    assert crc == lo + hi * 0x8000 && crc / 0x8000 == hi && crc % 0x8000 == lo;
  }

  lemma WordOfBytes(b: Bytes)
    requires |b| == 4
    ensures DecodeFixed32(b) < WORD && Fixed32(DecodeFixed32(b)) == b
  {
    var n, c, d := DecodeFixed32(b), (b[2] as int) + 256 * (b[3] as int), b[3] as int;
    var a := (b[1] as int) + 256 * c;
    assert n == (b[0] as int) + 256 * a && n / 256 == a && a / 256 == c && c / 256 == d;
    assert n / 65536 == c && n / 16777216 == d;
  }

  // ---- Varints ----

  /** Base-128 digits, least significant first, each but the last marked by 128. */
  function Varint(n: nat): (r: Bytes)
    ensures |r| >= 1
  {
    if n < 128 then [n] else [n % 128 + 128] + Varint(n / 128)
  }

  /** EncodeVarint64 (and, unrolled, EncodeVarint32). */
  method EncodeVarint(dst: Bytes, n: nat) returns (r: Bytes)
    ensures r == dst + Varint(n)
  {
    var v := n;
    r := dst;
    while v >= 128
      invariant r + Varint(v) == dst + Varint(n)
    {
      r := r + [v % 128 + 128];
      v := v / 128;
    }
    r := r + [v];
  }

  function Zeros(n: nat): Bytes {
    seq(n, i => 0)
  }

  /** A slice with its length before it. */
  function Prefixed(b: Bytes): Bytes {
    Varint(|b|) + b
  }

  /** A width of at most `digits` digits, the top one below `top`. */
  datatype Width = Width(digits: nat, top: nat)

  const VARINT32 := Width(5, 16)
  const VARINT64 := Width(10, 2)

  predicate ValidWidth(w: Width) {
    w.digits >= 1 && 1 <= w.top <= 128
  }

  /** The numbers of a width. */
  function Limit(w: Width): nat
    requires ValidWidth(w)
    decreases w.digits
  {
    if w.digits == 1 then w.top else 128 * Limit(Width(w.digits - 1, w.top))
  }

  lemma LimitsOfWidths()
    ensures Limit(VARINT32) == WORD && Limit(VARINT64) == WORD64
  {
  }

  /** A decoded number and the position after it. */
  datatype Parsed = Parsed(value: nat, next: nat)

  /** What a byte contributes as the first of the digits left. */
  function Digit(b: byte, w: Width): (d: nat)
    requires ValidWidth(w)
    ensures b < (if w.digits == 1 then w.top else 128) ==> d == b
    ensures w.digits > 1 ==> d == b % 128
  {
    if w.digits > 1 then b % 128 else if b < w.top then b else b % w.top
  }

  /** The digits from `p` on; bits shifted out at the top are lost. */
  function ParseVarint(data: Bytes, p: nat, w: Width): (r: Option<Parsed>)
    requires ValidWidth(w) && p <= |data|
    ensures r.Some? ==> p < r.value.next <= |data|
    decreases w.digits
  {
    if p == |data| then None
    else if data[p] < 128 then Some(Parsed(Digit(data[p], w), p + 1))
    else if w.digits == 1 then None
    else Scaled(data[p] % 128, 128, ParseVarint(data, p + 1, Width(w.digits - 1, w.top)))
  }

  /** `low + scale * rest`. */
  function Scaled(low: nat, scale: nat, rest: Option<Parsed>): Option<Parsed> {
    match rest
    case None => None
    case Some(r) => Some(Parsed(low + scale * r.value, r.next))
  }

  lemma ScaledTwice(low: nat, scale: nat, digit: nat, rest: Option<Parsed>)
    ensures Scaled(low, scale, Scaled(digit, 128, rest)) == Scaled(low + digit * scale, scale * 128, rest)
  {
  }

  /** GetVarint32Ptr and GetVarint64Ptr: the shift loop computes the digits' value. */
  method GetVarint(data: Bytes, p0: nat, w: Width) returns (r: Option<Parsed>)
    requires ValidWidth(w) && p0 <= |data|
    ensures r == ParseVarint(data, p0, w)
  {
    hide ParseVarint, Digit;
    var result, scale, p, left := 0, 1, p0, w.digits;
    ghost var goal := ParseVarint(data, p0, w);
    while left > 0 && p < |data|
      invariant 0 <= left <= w.digits && p0 <= p <= |data| && result >= 0 && scale >= 0
      invariant left > 0 ==> goal == Scaled(result, scale, ParseVarint(data, p, Width(left, w.top)))
      invariant left == 0 ==> goal == None
    {
      var b := data[p];
      ParseStep(data, p, Width(left, w.top));
      if b < 128 {
        assert Digit(b, Width(left, w.top)) * scale == scale * Digit(b, Width(left, w.top));
        return Some(Parsed(result + Digit(b, Width(left, w.top)) * scale, p + 1));
      }
      if left > 1 { ScaledTwice(result, scale, b % 128, ParseVarint(data, p + 1, Width(left - 1, w.top))); }
      result := result + Digit(b, Width(left, w.top)) * scale;
      p, left, scale := p + 1, left - 1, scale * 128;
    }
    if left > 0 { ParseEnd(data, p, Width(left, w.top)); }
    return None;
  }

  lemma ParseStep(data: Bytes, p: nat, w: Width)
    requires ValidWidth(w) && p < |data|
    ensures data[p] < 128 ==> ParseVarint(data, p, w) == Some(Parsed(Digit(data[p], w), p + 1))
    ensures data[p] >= 128 && w.digits == 1 ==> ParseVarint(data, p, w) == None
    ensures data[p] >= 128 && w.digits > 1 ==>
              ParseVarint(data, p, w) == Scaled(data[p] % 128, 128,
                  ParseVarint(data, p + 1, Width(w.digits - 1, w.top)))
  {
  }

  lemma ParseEnd(data: Bytes, p: nat, w: Width)
    requires ValidWidth(w) && p == |data|
    ensures ParseVarint(data, p, w) == None
  {
  }

  /** Every number of the width is read back, whatever follows it. */
  lemma {:induction false} VarintRoundTrip(n: nat, data: Bytes, p: nat, w: Width)
    requires ValidWidth(w) && n < Limit(w)
    requires p + |Varint(n)| <= |data| && data[p..p + |Varint(n)|] == Varint(n)
    ensures ParseVarint(data, p, w) == Some(Parsed(n, p + |Varint(n)|))
    decreases w.digits
  {
    hide ParseVarint, Digit;
    var v := Varint(n);
    assert data[p] == v[0] by { assert data[p] == data[p..p + |v|][0]; }
    ParseStep(data, p, w);
    if n < 128 {
    } else {
      var u := Varint(n / 128);
      assert data[p + 1..p + 1 + |u|] == data[p..p + |v|][1..] == u;
      VarintRoundTrip(n / 128, data, p + 1, Width(w.digits - 1, w.top));
    }
  }

  /** PutLengthPrefixedSlice. */
  method PutPrefixed(dst: Bytes, b: Bytes) returns (r: Bytes)
    ensures r == dst + Prefixed(b)
  {
    r := EncodeVarint(dst, |b|);
    r := r + b;
  }

  /** The input starts with a varint of `value`, in some number of digits, and goes on with `rest`. */
  ghost predicate ReadsNumber(input: Bytes, w: Width, value: nat, rest: Bytes)
    requires ValidWidth(w)
  {
    && |rest| < |input| && rest == input[|input| - |rest|..]
    && ParseVarint(input, 0, w) == Some(Parsed(value, |input| - |rest|))
  }

  /** The input starts with a length and that many bytes. */
  ghost predicate ReadsSlice(input: Bytes, slice: Bytes, rest: Bytes) {
    ReadsNumber(input, VARINT32, |slice|, slice + rest)
  }

  /** GetLengthPrefixedSlice from the front of the input. */
  method GetPrefixed(input: Bytes, ghost b: Bytes, ghost tail: Bytes) returns (ok: bool, slice: Bytes, rest: Bytes)
    ensures ok ==> |rest| < |input|
    ensures |input| < WORD && input == Prefixed(b) + tail ==> ok && slice == b && rest == tail
    ensures if ok then ReadsSlice(input, slice, rest) && |slice| + |rest| < |input|
            else forall s, r :: !ReadsSlice(input, s, r)
    ensures forall s, r :: ok && ReadsSlice(input, s, r) ==> s == slice && r == rest
  {
    hide Varint, ParseVarint;
    var len := GetVarint(input, 0, VARINT32);
    if |input| < WORD && input == Prefixed(b) + tail {
      LimitsOfWidths();
      assert input[0..|Varint(|b|)|] == Varint(|b|);
      VarintRoundTrip(|b|, input, 0, VARINT32);
    }
    if len == None {
      return false, [], input;
    }
    var n := len.value.value;
    rest := input[len.value.next..];
    if n > |rest| {
      return false, [], input;
    }
    slice, rest := rest[..n], rest[n..];
    SliceUnique(input, slice, rest);
    return true, slice, rest;
  }

  lemma SliceUnique(input: Bytes, slice: Bytes, rest: Bytes)
    requires var len := ParseVarint(input, 0, VARINT32);
               len.Some? && |slice| == len.value.value && slice + rest == input[len.value.next..]
    ensures ReadsSlice(input, slice, rest)
    ensures forall s, r :: ReadsSlice(input, s, r) ==> s == slice && r == rest
  {
    hide ParseVarint;
    forall s, r | ReadsSlice(input, s, r) ensures s == slice && r == rest {
      assert s + r == slice + rest;
      assert s == (s + r)[..|s|] && r == (s + r)[|s|..];
    }
  }

  // ---- Bits ----

  predicate HasBit(n: nat, i: nat) {
    if i == 0 then n % 2 == 1 else HasBit(n / 2, i - 1)
  }

  /** `n | (1 << i)`. */
  function SetBit(n: nat, i: nat): nat {
    if i == 0 then n / 2 * 2 + 1 else n % 2 + 2 * SetBit(n / 2, i - 1)
  }

  /** Setting a bit sets it and changes no other. */
  lemma {:induction false} SetBitKeeps(n: nat, i: nat, j: nat)
    ensures HasBit(SetBit(n, i), j) <==> i == j || HasBit(n, j)
  {
    if i == 0 || j == 0 {
    } else {
      SetBitKeeps(n / 2, i - 1, j - 1);
    }
  }

  function Power(k: nat): nat {
    if k == 0 then 1 else 2 * Power(k - 1)
  }

  lemma PowerStep(k: nat)
    requires k > 0
    ensures Power(k) == 2 * Power(k - 1)
  {
  }

  /** `a | b`. */
  function BitOr(a: nat, b: nat): nat {
    if a == 0 then b
    else if b == 0 then a
    else (if a % 2 == 1 || b % 2 == 1 then 1 else 0) + 2 * BitOr(a / 2, b / 2)
  }

  /** Or-ing in bits above all that are set adds them. */
  lemma {:induction false} OrAbove(a: nat, d: nat, k: nat)
    requires a < Power(k)
    ensures BitOr(a, d * Power(k)) == a + d * Power(k)
  {
    if a == 0 || k == 0 || d == 0 {
    } else {
      PowerStep(k);
      hide Power;
      var x, y := d * Power(k - 1), d * Power(k);
      assert y == 2 * x;
      OrAbove(a / 2, d, k - 1);
      assert y % 2 == 0 && y / 2 == x;
    }
  }

  lemma PowersOf7()
    ensures Power(7) == 128 && Power(14) == 16384 && Power(21) == 2097152 && Power(28) == 268435456
  {
    assert Power(7) == 128;
    PowerSteps(7);
    PowerSteps(14);
    PowerSteps(21);
  }

  lemma PowerSteps(k: nat)
    ensures Power(k + 7) == 128 * Power(k)
  {
    assert Power(k + 7) == 2 * Power(k + 6) && Power(k + 6) == 2 * Power(k + 5) && Power(k + 5) == 2 * Power(k + 4);
    assert Power(k + 4) == 2 * Power(k + 3) && Power(k + 3) == 2 * Power(k + 2) && Power(k + 2) == 2 * Power(k + 1);
  }

  lemma {:induction false} SetBitRange(n: nat, i: nat, k: nat)
    requires i < k && n < Power(k)
    ensures SetBit(n, i) < Power(k)
  {
    PowerStep(k);
    hide Power;
    var half, top := n / 2, Power(k - 1);
    assert half < top;
    if i == 0 {
      assert SetBit(n, 0) == 2 * half + 1;
    } else {
      SetBitRange(half, i - 1, k - 1);
      var rest := SetBit(half, i - 1);
      assert SetBit(n, i) == n % 2 + 2 * rest;
    }
  }

  lemma {:induction false} ZeroHasNoBit(i: nat)
    ensures !HasBit(0, i)
  {
    if i == 0 {
    } else {
      ZeroHasNoBit(i - 1);
    }
  }

  // ---- What the bytes of numbers spell ----

  /** The number that bytes spell in base 256, the first one counting least. */
  function LittleEndian(b: Bytes): nat {
    if b == [] then 0 else b[0] + 256 * LittleEndian(b[1..])
  }

  lemma FourBytes(b: Bytes)
    requires |b| == 4
    ensures LittleEndian(b)
            == (b[0] as int) + 0x100 * (b[1] as int) + 0x1_0000 * (b[2] as int) + 0x100_0000 * (b[3] as int)
  {
    OneByte(b);
    OneByte(b[1..]);
    OneByte(b[2..]);
    OneByte(b[3..]);
    assert b[1..][1..] == b[2..] && b[2..][1..] == b[3..] && b[3..][1..] == [];
  }

  lemma OneByte(b: Bytes)
    requires b != []
    ensures LittleEndian(b) == b[0] + 256 * LittleEndian(b[1..])
    ensures LittleEndian([]) == 0
  {
  }

  lemma LittleEndianAppend(a: Bytes, b: Bytes)
    requires |a| == 4
    ensures LittleEndian(a + b) == LittleEndian(a) + 0x1_0000_0000 * LittleEndian(b)
  {
    FourBytes(a);
    var r := a + b;
    OneByte(r);
    OneByte(r[1..]);
    OneByte(r[2..]);
    OneByte(r[3..]);
    assert r[1..][1..] == r[2..] && r[2..][1..] == r[3..] && r[3..][1..] == b;
  }

  lemma Fixed32Format(n: nat)
    requires n < WORD
    ensures |Fixed32(n)| == 4 && LittleEndian(Fixed32(n)) == n
  {
    FourBytes(Fixed32(n));
    var a := n / 256;
    var b := a / 256;
    assert n / 65536 == b && n / 16777216 == b / 256;
  }

  lemma DecodeFixed32Format(b: Bytes)
    requires |b| == 4
    ensures DecodeFixed32(b) == LittleEndian(b)
  {
    FourBytes(b);
  }

  lemma Fixed64Format(n: nat)
    requires n < WORD64
    ensures |Fixed64(n)| == 8 && LittleEndian(Fixed64(n)) == n
  {
    hide Fixed32;
    Fixed32Format(n % WORD);
    Fixed32Format(n / WORD % WORD);
    LittleEndianAppend(Fixed32(n % WORD), Fixed32(n / WORD % WORD));
  }

  /** The number that the low seven bits of each byte spell, the first counting least. */
  function Groups(b: Bytes): nat {
    if b == [] then 0 else b[0] % 128 + 128 * Groups(b[1..])
  }

  /** A varint spells its number in groups of seven bits; all bytes but the last have the top bit, none is wasted. */
  lemma {:induction false} VarintFormat(n: nat)
    ensures var b := Varint(n);
              && Groups(b) == n && b[|b| - 1] < 128 && (|b| > 1 ==> b[|b| - 1] != 0)
              && forall i :: 0 <= i < |b| - 1 ==> b[i] >= 128
  {
    var b := Varint(n);
    if n < 128 {
      assert b[1..] == [];
    } else {
      VarintFormat(n / 128);
      assert b[1..] == Varint(n / 128);
    }
  }
}
