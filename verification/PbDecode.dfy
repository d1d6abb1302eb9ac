/**
 * The protobuf decoder (pb_decode.c) with the wrapping field iterator
 * (pb_common.c).  Every decoder takes, as ghosts, a value and what follows its
 * wire form in the stream; where the stream holds exactly that, the value comes
 * back and the stream is left at what follows.
 */
module PbDecode {
  import opened DbFormat
  import opened Coding
  import opened PbModel
  import PbEncode

  // ---- Messages that fit the storage they are decoded into ----

  ghost predicate Storable(kind: Kind, v: Value)
    decreases v
  {
    match kind
    case Bool => v.Flag?
    case BytesKind(max) => v.Blob? && |v.bytes| <= max
    case StringKind(dataSize) => v.Blob? && NoZero(v.bytes) && |v.bytes| < dataSize
    case FixedBytes(length) => v.Blob? && |v.bytes| == length
    case Submessage(d) => v.Msg? && StorableMessage(d, v.m)
    case _ => v.Int? && IntRange(kind, v.n)
  }

  ghost predicate SlotStorable(f: Field, s: Slot)
    decreases s
  {
    && CountOk(f.rule, |s.items|)
    && (f.rule.Repeated? ==> |s.items| <= f.rule.max)
    && forall j :: 0 <= j < |s.items| ==> Storable(f.kind, s.items[j])
  }

  ghost predicate StorableMessage(d: Descriptor, m: Message)
    decreases m
  {
    && |m.slots| == |d.fields|
    && (forall i :: 0 <= i < |m.slots| ==> SlotStorable(d.fields[i], m.slots[i]))
    && Exclusive(d, m)
  }

  /** A storable message is one the encoder takes. */
  lemma {:induction false} StorableIsTyped(kind: Kind, v: Value)
    requires Storable(kind, v)
    ensures HasType(kind, v) && PbEncode.ValueFits(kind, v)
    decreases v
  {
    if kind.Submessage? {
      MessageIsTyped(kind.d, v.m);
    }
  }

  lemma {:induction false} MessageIsTyped(d: Descriptor, m: Message)
    requires StorableMessage(d, m)
    ensures Typed(d, m) && PbEncode.Fits(d, m)
    decreases m
  {
    forall i | 0 <= i < |m.slots|
      ensures SlotTyped(d.fields[i], m.slots[i]) && PbEncode.SlotFits(d.fields[i], m.slots[i])
    {
      var f, s := d.fields[i], m.slots[i];
      forall j | 0 <= j < |s.items| ensures HasType(f.kind, s.items[j]) && PbEncode.ValueFits(f.kind, s.items[j]) {
        StorableIsTyped(f.kind, s.items[j]);
      }
    }
  }

  // ---- What the storage can hold ----

  /** The value lies within the room its field has. */
  ghost predicate Held(kind: Kind, v: Value)
    decreases v
  {
    match kind
    case Bool => v.Flag?
    case BytesKind(max) => v.Blob? && |v.bytes| <= max
    case StringKind(dataSize) => v.Blob? && (v.bytes == [] || |v.bytes| < dataSize)
    case FixedBytes(length) => v.Blob? && |v.bytes| == length
    case Submessage(d) => v.Msg? && HeldMessage(d, v.m)
    case _ => v.Int? && IntRange(kind, v.n)
  }

  ghost predicate SlotHeld(f: Field, s: Slot)
    decreases s
  {
    && |s.items| <= (if f.rule.Repeated? then f.rule.max else 1)
    && forall j :: 0 <= j < |s.items| ==> Held(f.kind, s.items[j])
  }

  /** No array, string or integer of the message exceeds its storage, at any depth, and a oneof has one member. */
  ghost predicate HeldMessage(d: Descriptor, m: Message)
    decreases m
  {
    && |m.slots| == |d.fields|
    && (forall i :: 0 <= i < |m.slots| ==> SlotHeld(d.fields[i], m.slots[i]))
    && Exclusive(d, m)
  }

  lemma {:induction false} DefaultHeld(kind: Kind)
    ensures Held(kind, DefaultValue(kind))
    decreases kind
  {
    if kind.Submessage? {
      InitialHeld(kind.d);
    }
  }

  lemma {:induction false} InitialHeld(d: Descriptor)
    ensures HeldMessage(d, Initial(d))
    decreases d
  {
    var m := Initial(d);
    forall i | 0 <= i < |m.slots| ensures SlotHeld(d.fields[i], m.slots[i]) {
      DefaultHeld(d.fields[i].kind);
      InitialSlotHeld(d.fields[i]);
    }
  }

  lemma InitialSlotHeld(f: Field)
    requires Held(f.kind, DefaultValue(f.kind))
    ensures SlotHeld(f, InitialSlot(f))
  {
    hide Held, DefaultValue;
  }

  /** A slot of a field that is in no oneof is replaced. */
  lemma SlotReplaced(d: Descriptor, m: Message, i: nat, slot: Slot)
    requires HeldMessage(d, m) && i < |d.fields| && SlotHeld(d.fields[i], slot) && !d.fields[i].rule.Oneof?
    ensures HeldMessage(d, m.(slots := m.slots[i := slot]))
  {
    hide SlotHeld;
  }

  /** A member of a oneof is set and the others cleared. */
  lemma MemberSet(d: Descriptor, m: Message, i: nat, slot: Slot)
    requires HeldMessage(d, m) && i < |d.fields| && SlotHeld(d.fields[i], slot) && d.fields[i].rule.Oneof?
    ensures var cleared := ClearGroup(d, m, i); HeldMessage(d, cleared.(slots := cleared.slots[i := slot]))
  {
    var cleared := ClearGroup(d, m, i);
    var r := cleared.(slots := cleared.slots[i := slot]);
    forall h | 0 <= h < |r.slots| ensures SlotHeld(d.fields[h], r.slots[h]) {
      assert SlotHeld(d.fields[h], m.slots[h]);
    }
    hide SlotHeld;
  }

  /** The message a submessage is decoded into is within its storage. */
  lemma BaseHeld(f: Field, slot: Slot)
    requires SlotHeld(f, slot) && f.kind.Submessage?
    ensures HeldMessage(f.kind.d, BaseOf(f.kind, slot))
  {
    hide Initial;
    InitialHeld(f.kind.d);
    if |slot.items| == 1 {
      assert Held(f.kind, slot.items[0]);
    }
  }

  // ---- Streams ----

  /** pb_istream_t over a buffer. */
  class IStream {
    const data: Bytes
    var at: nat
    var bytesLeft: nat

    ghost predicate Valid()
      reads this
    {
      at + bytesLeft <= |data|
    }

    function Rest(): Bytes
      reads this
      requires Valid()
    {
      data[at..at + bytesLeft]
    }

    constructor (data: Bytes, at: nat, bytesLeft: nat)
      requires at + bytesLeft <= |data|
      ensures Valid() && this.data == data && this.at == at && this.bytesLeft == bytesLeft
    {
      this.data, this.at, this.bytesLeft := data, at, bytesLeft;
    }

    /** The stream holds `b` and then `tail`. */
    ghost predicate Holds(b: Bytes, tail: Bytes)
      reads this
      requires Valid()
    {
      |data| < WORD && Rest() == b + tail
    }

    /** Some bytes may have been taken from the front. */
    twostate predicate Advanced()
      reads this
    {
      Valid() && bytesLeft <= old(bytesLeft) && at + bytesLeft == old(at) + old(bytesLeft)
    }

    method Read(count: nat) returns (ok: bool, b: Bytes)
      requires Valid()
      modifies this
      ensures Advanced() && (ok <==> count <= old(bytesLeft))
      ensures ok ==> |b| == count && old(Rest()) == b + Rest() && bytesLeft == old(bytesLeft) - count
    {
      if bytesLeft < count {
        return false, [];
      }
      b := data[at..at + count];
      at, bytesLeft := at + count, bytesLeft - count;
      ok := true;
    }
  }

  lemma SplitEqual(a: Bytes, b: Bytes, x: Bytes, y: Bytes)
    requires a + b == x + y && |a| == |x|
    ensures a == x && b == y
  {
    assert b == (a + b)[|a|..] && y == (x + y)[|x|..];
  }

  // ---- Varints ----

  /** pb_decode_varint: at most ten digits; bits past the 64th are lost. */
  method DecodeVarint(s: IStream, ghost n: nat, ghost tail: Bytes) returns (ok: bool, value: nat)
    requires s.Valid()
    modifies s
    ensures s.Advanced() && (ok ==> s.bytesLeft < old(s.bytesLeft))
    ensures n < WORD64 && old(s.Holds(Varint(n), tail)) ==> ok && value == n && s.Rest() == tail
    ensures forall u, rest :: ReadsNumber(old(s.Rest()), VARINT64, u, rest) <==> ok && u == value && rest == s.Rest()
  {
    hide ParseVarint, Varint;
    var rest := s.Rest();
    var r := GetVarint(rest, 0, VARINT64);
    if n < WORD64 && s.Holds(Varint(n), tail) {
      LimitsOfWidths();
      VarintRoundTrip(n, rest, 0, VARINT64);
    }
    if r == None {
      return false, 0;
    }
    var _, _ := s.Read(r.value.next);
    return true, r.value.value;
  }

  /** The next digit or-ed in at its position, in 32 bits. */
  function AddDigit(result: nat, b: byte, bitpos: nat): nat {
    BitOr(result, b % 128 * Power(bitpos) % WORD)
  }

  /** A digit past the 32nd bit that is neither zero nor a sign extension. */
  predicate Overflows(result: nat, b: byte, bitpos: nat) {
    b % 128 != 0 && (result < 0x8000_0000 || b != if bitpos < 63 then 255 else 1)
  }

  /** Of a fifth digit only four bits fit. */
  predicate TooBig(b: byte, bitpos: nat) {
    bitpos == 35 && b / 16 % 8 != 0
  }

  /** The digit at a position, from the 35th bit on, is zero or extends the sign of the low 32 bits. */
  ghost predicate Padding(n: nat, scale: nat)
    requires scale > 0
  {
    n / scale % 128 == 0 || (n / scale % 128 == 127 && n % WORD >= 0x8000_0000)
  }

  /**
   * The 64-bit numbers taken for a 32-bit one: those below 2^32, and the negative
   * ones whose digits from the 35th bit on are padding.
   */
  ghost predicate Fits32(n: nat) {
    || n < WORD
    || (&& 0x8000_0000_0000_0000 <= n < WORD64 && n % WORD >= 0x8000_0000
        && Padding(n, 0x8_0000_0000) && Padding(n, 0x400_0000_0000) && Padding(n, 0x2_0000_0000_0000)
        && Padding(n, 0x100_0000_0000_0000))
  }

  /** Every negative 32-bit number is taken in its 64-bit form. */
  lemma NegativeFits(n: int)
    requires -0x8000_0000 <= n < 0
    ensures Fits32(n % WORD64) && n % WORD64 % WORD == n % WORD
  {
    var u := n + WORD64;
    assert u == n % WORD64;
    assert u / 0x8_0000_0000 == 0x1fff_ffff && u / 0x400_0000_0000 == 0x3f_ffff;
    assert u / 0x2_0000_0000_0000 == 0x7fff && u / 0x100_0000_0000_0000 == 0xff;
  }

  /** pb_decode_varint32_eof, with its overflow checks. */
  method DecodeVarint32(s: IStream, ghost n: nat, ghost tail: Bytes) returns (ok: bool, eof: bool, value: nat)
    requires s.Valid()
    modifies s
    ensures s.Advanced() && (ok ==> s.bytesLeft < old(s.bytesLeft))
    ensures n < WORD64 && old(s.Holds(Varint(n), tail)) ==>
              (ok <==> Fits32(n)) && (ok ==> value == n % WORD && s.Rest() == tail)
  {
    hide Varint;
    if n < WORD64 && s.Holds(Varint(n), tail) { FirstDigit(n, s.Rest(), tail); }
    var got, first := s.Read(1);
    if !got {
      return false, true, 0;
    }
    eof := false;
    if first[0] < 128 {
      ok, value := true, first[0];
    } else {
      ok, value := DecodeMore(s, first[0] % 128, n, tail);
    }
  }

  /** The digits after the first. */
  method DecodeMore(s: IStream, first: nat, ghost n: nat, ghost tail: Bytes) returns (ok: bool, value: nat)
    requires s.Valid()
    modifies s
    ensures s.Advanced()
    ensures 128 <= n < WORD64 && first == n % 128 && old(s.Holds(Varint(n / 128), tail)) ==>
              (ok <==> Fits32(n)) && (ok ==> value == n % WORD && s.Rest() == tail)
  {
    hide Varint, AddDigit, Overflows, TooBig, Fits32, Digits;
    ghost var good := 128 <= n < WORD64 && first == n % 128 && s.Holds(Varint(n / 128), tail);
    var bitpos, result := 7, first;
    ghost var left: nat := n / 128;
    if good { DigitsStart(n); }
    while true
      invariant s.Advanced() && 0 <= bitpos < 256 && 0 <= result
      invariant good ==> s.Rest() == Varint(left) + tail && Digits(bitpos, result, left, n)
      decreases s.bytesLeft
    {
      if good {
        FirstDigit(left, s.Rest(), tail);
        if bitpos < 32 { LowDigit(bitpos, result, left, n); } else { HighDigit(bitpos, result, left, n); }
      }
      var more, next := s.Read(1);
      if !more {
        return false, 0;
      }
      var b := next[0];
      if bitpos >= 32 {
        if Overflows(result, b, bitpos) {
          return false, 0;
        }
      } else {
        result := AddDigit(result, b, bitpos);
      }
      bitpos := (bitpos + 7) % 256;
      if b < 128 {
        return !TooBig(b, bitpos), result;
      }
      left := left / 128;
    }
  }

  /** The digits read so far, up to 32 bits of them, and those left make the number. */
  ghost predicate Digits(bitpos: nat, result: nat, left: nat, n: nat) {
    && n < WORD64 && left > 0
    && match bitpos
       case 7 => left == n / 128 && result == n % 128
       case 14 => left == n / 16384 && result == n % 16384
       case 21 => left == n / 2097152 && result == n % 2097152
       case 28 => left == n / 268435456 && result == n % 268435456
       case _ => result == n % WORD && HighDigits(bitpos, left, n)
  }

  ghost predicate HighDigits(bitpos: nat, left: nat, n: nat) {
    match bitpos
    case 35 => left == n / 0x8_0000_0000
    case 42 => left == n / 0x400_0000_0000 && Padding(n, 0x8_0000_0000)
    case 49 => left == n / 0x2_0000_0000_0000 && Padding(n, 0x8_0000_0000) && Padding(n, 0x400_0000_0000)
    case 56 => left == n / 0x100_0000_0000_0000 && Padding(n, 0x8_0000_0000) && Padding(n, 0x400_0000_0000)
               && Padding(n, 0x2_0000_0000_0000)
    case 63 => left == n / 0x8000_0000_0000_0000 && Padding(n, 0x8_0000_0000) && Padding(n, 0x400_0000_0000)
               && Padding(n, 0x2_0000_0000_0000) && Padding(n, 0x100_0000_0000_0000)
    case _ => false
  }

  lemma DigitsStart(n: nat)
    requires 128 <= n < WORD64
    ensures Digits(7, n % 128, n / 128, n)
  {
  }

  /** The byte that stands for the next digit. */
  ghost function DigitByte(left: nat): byte {
    if left < 128 then left else left % 128 + 128
  }

  /** A digit that starts within 32 bits. */
  lemma LowDigit(bitpos: nat, result: nat, left: nat, n: nat)
    requires Digits(bitpos, result, left, n) && bitpos < 32
    ensures bitpos <= 28
    ensures var r := AddDigit(result, DigitByte(left), bitpos);
              if left < 128 then (!TooBig(left, bitpos + 7) <==> Fits32(n)) && (Fits32(n) ==> r == n % WORD)
              else Digits(bitpos + 7, r, left / 128, n)
  {
    if left < 128 { LowLast(bitpos, result, left, n); } else { LowMore(bitpos, result, left, n); }
  }

  lemma LowLast(bitpos: nat, result: nat, left: nat, n: nat)
    requires Digits(bitpos, result, left, n) && bitpos < 32 && left < 128
    ensures !TooBig(left, bitpos + 7) <==> Fits32(n)
    ensures Fits32(n) ==> AddDigit(result, DigitByte(left), bitpos) == n % WORD
  {
    FitsBelow(n);
    hide AddDigit, Fits32, DigitByte, Padding;
    match bitpos
    case 7 => Low7(n, left);
    case 14 => Low14(n, left);
    case 21 => Low21(n, left);
    case 28 => Low28(n, left);
  }

  lemma LowMore(bitpos: nat, result: nat, left: nat, n: nat)
    requires Digits(bitpos, result, left, n) && bitpos < 32 && left >= 128
    ensures Digits(bitpos + 7, AddDigit(result, DigitByte(left), bitpos), left / 128, n)
  {
    hide AddDigit, DigitByte, Padding;
    match bitpos
    case 7 => Low7(n, left);
    case 14 => Low14(n, left);
    case 21 => Low21(n, left);
    case 28 => Low28(n, left);
  }

  lemma FitsBelow(n: nat)
    ensures n < 0x8000_0000_0000_0000 ==> (Fits32(n) <==> n < WORD)
  {
  }

  /** A digit joins the lower ones; only its bits below the 32nd stay. */
  lemma DigitAdded(low: nat, left: nat, bitpos: nat, digit: nat, scale: nat)
    requires (bitpos == 7 && scale == 128) || (bitpos == 14 && scale == 16384) || (bitpos == 21 && scale == 2097152)
             || (bitpos == 28 && scale == 268435456)
    requires low < scale && digit == if bitpos == 28 then left % 16 else left % 128
    ensures AddDigit(low, DigitByte(left), bitpos) == low + digit * scale
  {
    hide Power, BitOr, DigitByte;
    PowersOf7();
    LowSeven(left);
    DigitBits(left % 128);
    OrAbove(low, digit, bitpos);
  }

  lemma LowSeven(left: nat)
    ensures DigitByte(left) % 128 == left % 128 && left % 128 % 16 == left % 16
  {
  }

  lemma DigitBits(d: nat)
    requires d < 128
    ensures d * 128 % WORD == d * 128 && d * 16384 % WORD == d * 16384 && d * 2097152 % WORD == d * 2097152
    ensures d * 268435456 % WORD == d % 16 * 268435456
  {
    Modulo(0, d * 128);
    Modulo(0, d * 16384);
    Modulo(0, d * 2097152);
    Modulo(d / 16, d % 16 * 268435456);
  }

  lemma Modulo(q: nat, r: nat)
    requires r < WORD
    ensures (q * WORD + r) % WORD == r
  {
  }

  lemma Low7(n: nat, left: nat)
    requires left == n / 128
    ensures AddDigit(n % 128, DigitByte(left), 7) == n % 16384 && left / 128 == n / 16384
    ensures left < 128 ==> n == n % 16384 == n % WORD < WORD
  {
    hide AddDigit, DigitByte;
    Above7(n, left);
    DigitAdded(n % 128, left, 7, left % 128, 128);
  }

  lemma Above7(n: nat, left: nat)
    requires left == n / 128
    ensures n % 128 + left % 128 * 128 == n % 16384 && left / 128 == n / 16384
  {
    var q, x := left / 128, n % 128 + left % 128 * 128;
    assert n == 16384 * q + x && 0 <= x < 16384;
  }

  lemma Low14(n: nat, left: nat)
    requires left == n / 16384
    ensures AddDigit(n % 16384, DigitByte(left), 14) == n % 2097152 && left / 128 == n / 2097152
    ensures left < 128 ==> n == n % 2097152 == n % WORD < WORD
  {
    hide AddDigit, DigitByte;
    Above14(n, left);
    DigitAdded(n % 16384, left, 14, left % 128, 16384);
  }

  lemma Above14(n: nat, left: nat)
    requires left == n / 16384
    ensures n % 16384 + left % 128 * 16384 == n % 2097152 && left / 128 == n / 2097152
  {
    var q, x := left / 128, n % 16384 + left % 128 * 16384;
    assert n == 2097152 * q + x && 0 <= x < 2097152;
  }

  lemma Low21(n: nat, left: nat)
    requires left == n / 2097152
    ensures AddDigit(n % 2097152, DigitByte(left), 21) == n % 268435456 && left / 128 == n / 268435456
    ensures left < 128 ==> n == n % 268435456 == n % WORD < WORD
  {
    hide AddDigit, DigitByte;
    Above21(n, left);
    DigitAdded(n % 2097152, left, 21, left % 128, 2097152);
  }

  lemma Above21(n: nat, left: nat)
    requires left == n / 2097152
    ensures n % 2097152 + left % 128 * 2097152 == n % 268435456 && left / 128 == n / 268435456
  {
    var q, x := left / 128, n % 2097152 + left % 128 * 2097152;
    assert n == 268435456 * q + x && 0 <= x < 268435456;
  }

  lemma Low28(n: nat, left: nat)
    requires left == n / 268435456
    ensures AddDigit(n % 268435456, DigitByte(left), 28) == n % WORD && left / 128 == n / 0x8_0000_0000
    ensures left < 128 ==> (TooBig(left, 35) <==> n >= WORD) && n < 0x8_0000_0000
  {
    hide AddDigit, DigitByte;
    Above28(n, left);
    DigitAdded(n % 268435456, left, 28, left % 16, 268435456);
  }

  lemma Above28(n: nat, left: nat)
    requires left == n / 268435456
    ensures n % 268435456 + left % 16 * 268435456 == n % WORD
    ensures left / 16 == n / WORD && left / 128 == n / 0x8_0000_0000
  {
    var q, x := left / 16, n % 268435456 + left % 16 * 268435456;
    assert n == WORD * q + x && 0 <= x < WORD;
  }

  /** A digit past 32 bits is dropped, if it is only padding. */
  lemma HighDigit(bitpos: nat, result: nat, left: nat, n: nat)
    requires Digits(bitpos, result, left, n) && bitpos >= 32
    ensures bitpos <= 63
    ensures var fine := !Overflows(result, DigitByte(left), bitpos);
              if left < 128 then (fine && !TooBig(left, bitpos + 7) <==> Fits32(n)) && result == n % WORD
              else (fine ==> Digits(bitpos + 7, result, left / 128, n)) && (!fine ==> !Fits32(n))
  {
  }

  /** The first byte of a varint, and the rest. */
  lemma FirstDigit(n: nat, rest: Bytes, tail: Bytes)
    requires rest == Varint(n) + tail
    ensures rest != []
    ensures n < 128 ==> rest[0] == n && rest[1..] == tail
    ensures n >= 128 ==> rest[0] == n % 128 + 128 && rest[1..] == Varint(n / 128) + tail
  {
  }

  /** pb_decode_tag: field number and wire type. */
  method DecodeTag(s: IStream, ghost tag: nat, ghost wireType: nat, ghost tail: Bytes)
    returns (ok: bool, eof: bool, t: nat, w: nat)
    requires s.Valid()
    modifies s
    ensures s.Advanced() && (ok ==> s.bytesLeft < old(s.bytesLeft))
    ensures 1 <= tag < 0x2000_0000 && wireType < 8 && old(s.Holds(Tag(tag, wireType), tail)) ==>
              ok && t == tag && w == wireType && s.Rest() == tail
  {
    hide Varint;
    var temp;
    ok, eof, temp := DecodeVarint32(s, tag * 8 + wireType, tail);
    if !ok {
      return false, eof, 0, 0;
    }
    if temp == 0 {
      return false, true, 0, 0;
    }
    t, w := temp / 8, temp % 8;
  }

  // ---- The field iterator ----

  function RequiredCount(d: Descriptor, n: nat): nat
    requires n <= |d.fields|
  {
    if n == 0 then 0 else RequiredCount(d, n - 1) + if d.fields[n - 1].rule.Required? then 1 else 0
  }

  /** Position in the descriptor, and how many required fields precede it. */
  datatype Iter = Iter(pos: nat, requiredIndex: nat)

  predicate IterOk(d: Descriptor, iter: Iter) {
    if d.fields == [] then iter == Iter(0, 0)
    else iter.pos < |d.fields| && iter.requiredIndex == RequiredCount(d, iter.pos)
  }

  /** pb_field_iter_next: wraps to the beginning. */
  function IterNext(d: Descriptor, iter: Iter): (r: (bool, Iter))
    requires IterOk(d, iter)
    ensures IterOk(d, r.1)
    ensures r.0 <==> iter.pos + 1 < |d.fields|
    ensures r.1.pos == if iter.pos + 1 < |d.fields| then iter.pos + 1 else 0
  {
    if d.fields == [] || iter.pos + 1 == |d.fields| then (false, Iter(0, 0))
    else (true, Iter(iter.pos + 1, iter.requiredIndex + if d.fields[iter.pos].rule.Required? then 1 else 0))
  }

  /** pb_field_iter_find: one turn round the descriptor from the current position. */
  method IterFind(d: Descriptor, iter0: Iter, tag: nat) returns (found: bool, iter: Iter)
    requires IterOk(d, iter0)
    ensures IterOk(d, iter)
    ensures found <==> exists i :: 0 <= i < |d.fields| && d.fields[i].tag == tag
    ensures found ==> iter.pos < |d.fields| && d.fields[iter.pos].tag == tag
  {
    iter := iter0;
    if d.fields == [] {
      return false, iter;
    }
    var n, start := |d.fields|, iter0.pos;
    ghost var k := 0;
    while true
      invariant IterOk(d, iter) && 0 <= k < n
      invariant iter.pos == if start + k < n then start + k else start + k - n
      invariant forall i :: start <= i < n && i < start + k ==> d.fields[i].tag != tag
      invariant forall i :: 0 <= i < start + k - n ==> d.fields[i].tag != tag
      decreases n - k
    {
      if d.fields[iter.pos].tag == tag {
        return true, iter;
      }
      iter := IterNext(d, iter).1;
      k := k + 1;
      if iter.pos == start {
        break;
      }
    }
    found := false;
  }

  // ---- Required fields ----

  const MAX_REQUIRED: nat := 64
  const ALL_BITS: nat := 0xffff_ffff

  /** Marks a required field. */
  function MarkSeen(seen: (nat, nat), index: nat): (nat, nat) {
    if index >= MAX_REQUIRED then seen
    else if index < 32 then (SetBit(seen.0, index), seen.1)
    else (seen.0, SetBit(seen.1, index - 32))
  }

  /** A word with exactly its first `k` bits set. */
  lemma {:induction false} WordOfOnes(w: nat, k: nat)
    requires forall b: nat :: HasBit(w, b) <==> b < k
    ensures w == Power(k) - 1
    decreases w + k
  {
    assert HasBit(w, 0) <==> 0 < k;
    if w == 0 && k == 0 {
    } else {
      forall b: nat ensures HasBit(w / 2, b) <==> b + 1 < k {
        assert HasBit(w, b + 1) <==> HasBit(w / 2, b);
      }
      if k > 0 {
        WordOfOnes(w / 2, k - 1);
      } else {
        WordOfOnes(w / 2, 0);
      }
    }
  }

  /** The word-by-word test that the first `count` required fields were seen. */
  predicate AllSeen(seen: (nat, nat), total: nat) {
    var count := if total > MAX_REQUIRED then MAX_REQUIRED else total;
    && (count / 32 > 0 ==> seen.0 == ALL_BITS)
    && (count / 32 > 1 ==> seen.1 == ALL_BITS)
    && (count % 32 != 0 ==> (if count / 32 == 0 then seen.0 else seen.1) == Power(count % 32) - 1)
  }

  /** Whether the required field with this index was marked. */
  predicate SeenBit(seen: (nat, nat), b: nat) {
    if b < 32 then HasBit(seen.0, b) else HasBit(seen.1, b - 32)
  }

  /** Only the marks of the first `n` required fields are set. */
  ghost predicate MarksBelow(seen: (nat, nat), n: nat) {
    && (forall b: nat :: HasBit(seen.0, b) ==> b < 32 && b < n)
    && (forall b: nat :: HasBit(seen.1, b) ==> b < 32 && b + 32 < n)
  }

  /** The bits of a word of ones. */
  lemma {:induction false} OnesHaveBits(k: nat, b: nat)
    ensures Power(k) >= 1 && (HasBit(Power(k) - 1, b) <==> b < k)
  {
    if k == 0 {
      ZeroHasNoBit(b);
    } else {
      PowerStep(k);
      OnesHaveBits(k - 1, if b > 0 then b - 1 else 0);
      assert (Power(k) - 1) / 2 == Power(k - 1) - 1;
    }
  }

  /** The word-by-word test passes exactly when every one of the first 64 required fields was seen. */
  lemma AllSeenExactly(seen: (nat, nat), total: nat)
    requires MarksBelow(seen, if total > MAX_REQUIRED then MAX_REQUIRED else total)
    ensures AllSeen(seen, total) <==> forall b: nat :: b < total && b < MAX_REQUIRED ==> SeenBit(seen, b)
  {
    hide HasBit, Power;
    var n := if total > MAX_REQUIRED then MAX_REQUIRED else total;
    PowerOf32();
    if AllSeen(seen, total) {
      forall b: nat | b < n ensures SeenBit(seen, b) {
        OnesHaveBits(32, b % 32);
        OnesHaveBits(n % 32, b % 32);
      }
    }
    if forall b: nat :: b < total && b < MAX_REQUIRED ==> SeenBit(seen, b) {
      FirstWordFull(seen, n);
      SecondWordFull(seen, n);
    }
  }

  lemma FirstWordFull(seen: (nat, nat), n: nat)
    requires MarksBelow(seen, n) && forall b: nat :: b < n && b < MAX_REQUIRED ==> SeenBit(seen, b)
    ensures seen.0 == Power(if n < 32 then n else 32) - 1
  {
    hide HasBit, Power;
    forall b: nat ensures HasBit(seen.0, b) <==> b < if n < 32 then n else 32 {
      assert b < 32 && b < n ==> SeenBit(seen, b);
    }
    WordOfOnes(seen.0, if n < 32 then n else 32);
  }

  lemma SecondWordFull(seen: (nat, nat), n: nat)
    requires n <= MAX_REQUIRED && MarksBelow(seen, n) && forall b: nat :: b < n && b < MAX_REQUIRED ==> SeenBit(seen, b)
    ensures seen.1 == Power(if n < 32 then 0 else n - 32) - 1
  {
    hide HasBit, Power;
    forall b: nat ensures HasBit(seen.1, b) <==> b < if n < 32 then 0 else n - 32 {
      assert b + 32 < n ==> SeenBit(seen, b + 32);
    }
    WordOfOnes(seen.1, if n < 32 then 0 else n - 32);
  }

  lemma PowerOf32()
    ensures Power(32) == 0x1_0000_0000
  {
    assert Power(8) == 256;
    assert Power(16) == 65536;
    assert Power(24) == 16777216;
  }

  // ---- Integers ----

  /** The low bits as a signed number of twice `half` values. */
  function ToSigned(u: nat, half: int): int
    requires half > 0
  {
    var low := u % (2 * half);
    if low < half then low else low - 2 * half
  }

  /** pb_decode_svarint undoes the zigzag in 64 bits. */
  function FromZigzag(u: nat): int {
    if u % 2 == 1 then -(u / 2) - 1 else u / 2
  }

  /** The checked conversion of a decoded number to the field's width. */
  function Narrow(kind: Kind, u: nat): Option<int> {
    match kind
    case Signed(size) =>
      var svalue := ToSigned(u, if size == 8 then Half(8) else Half(4));
      if IntRange(kind, svalue) then Some(svalue) else None
    case Unsigned(size) => if IntRange(kind, u) then Some(u) else None
    case Zigzag(size) => if IntRange(kind, FromZigzag(u)) then Some(FromZigzag(u)) else None
    case _ => None
  }

  /** The number the encoder writes for `n`. */
  function OnWire(kind: Kind, n: int): nat {
    if kind.Zigzag? then ZigzagOf(n) else n % WORD64
  }

  /** Every number in range survives widening, zigzag and narrowing. */
  lemma NarrowRoundTrip(kind: Kind, n: int)
    requires ValidKind(kind) && IntRange(kind, n) && (kind.Signed? || kind.Unsigned? || kind.Zigzag?)
    ensures OnWire(kind, n) < WORD64 && Narrow(kind, OnWire(kind, n)) == Some(n)
  {
    if kind.Signed? {
      SignedRoundTrip(n, if kind.size == 8 then Half(8) else Half(4));
    }
  }

  /**
   * The conversion succeeds exactly on what fits the field: an unsigned number by
   * its value, a zigzag one by its code, a signed one modulo 2^64, or, of less
   * than eight bytes, modulo 2^32.
   */
  lemma NarrowExactly(kind: Kind, u: nat, n: int)
    requires u < WORD64 && ValidKind(kind) && (kind.Signed? || kind.Unsigned? || kind.Zigzag?)
    ensures Narrow(kind, u) == Some(n) <==>
              && IntRange(kind, n)
              && if kind.Zigzag? then ZigzagOf(n) == u
                 else if kind.Unsigned? then n == u
                 else (n - u) % (if kind.size == 8 then 0x1_0000_0000_0000_0000 else 0x1_0000_0000) == 0
  {
    if !IntRange(kind, n) {
    } else if kind.Signed? && kind.size == 8 {
      LowBits64(u, n);
    } else if kind.Signed? {
      LowBits32(u, n);
    }
  }

  lemma LowBits32(u: nat, n: int)
    requires -0x8000_0000 <= n < 0x8000_0000
    ensures ToSigned(u, 0x8000_0000) == n <==> (n - u) % 0x1_0000_0000 == 0
  {
  }

  lemma LowBits64(u: nat, n: int)
    requires -0x8000_0000_0000_0000 <= n < 0x8000_0000_0000_0000
    ensures ToSigned(u, 0x8000_0000_0000_0000) == n <==> (n - u) % 0x1_0000_0000_0000_0000 == 0
  {
  }

  lemma SignedRoundTrip(n: int, half: int)
    requires half == 0x8000_0000 || half == 0x8000_0000_0000_0000
    requires -half <= n < half
    ensures ToSigned(n % WORD64, half) == n
  {
  }

  // ---- Values ----

  /** The input starts with a varint that stands for `n` in a field of that kind. */
  ghost predicate ReadsInt(kind: Kind, input: Bytes, n: int, rest: Bytes) {
    exists u :: ReadsNumber(input, VARINT64, u, rest) && Narrow(kind, u) == Some(n)
  }

  method DecodeInt(s: IStream, kind: Kind, ghost n: int, ghost tail: Bytes) returns (ok: bool, r: int)
    requires s.Valid()
    modifies s
    ensures s.Advanced() && (ok ==> s.bytesLeft < old(s.bytesLeft))
    ensures ok ==> IntRange(kind, r)
    ensures kind.Signed? || kind.Unsigned? || kind.Zigzag? ==>
              forall x, rest :: ReadsInt(kind, old(s.Rest()), x, rest) <==> ok && x == r && rest == s.Rest()
    ensures ValidKind(kind) && IntRange(kind, n) && old(s.Holds(IntBytes(kind, n), tail)) ==>
              ok && r == n && s.Rest() == tail
  {
    hide Varint, Narrow, ToSigned, Fixed32, DecodeFixed32, ReadsNumber;
    ghost var good := ValidKind(kind) && IntRange(kind, n) && s.Holds(IntBytes(kind, n), tail);
    if kind.Word32? {
      var got, b := s.Read(4);
      if !got { return false, 0; }
      if good {
        SplitEqual(b, s.Rest(), Fixed32(n % WORD), tail);
        Fixed32RoundTrip(n);
      }
      WordOfBytes(b);
      return true, DecodeFixed32(b);
    }
    if kind.Word64? {
      var got, b := s.Read(8);
      if !got { return false, 0; }
      if good {
        SplitEqual(b, s.Rest(), Fixed64(n % WORD64), tail);
        Fixed64RoundTrip(n);
      }
      WordOfBytes(b[..4]);
      WordOfBytes(b[4..]);
      return true, DecodeFixed64(b);
    }
    if good { NarrowRoundTrip(kind, n); }
    var value;
    ok, value := DecodeVarint(s, OnWire(kind, n), tail);
    if !ok || Narrow(kind, value) == None {
      return false, 0;
    }
    NarrowInRange(kind, value);
    assert ReadsNumber(old(s.Rest()), VARINT64, value, s.Rest());
    r := Narrow(kind, value).value;
  }

  /** The conversion succeeds exactly on what fits the field. */
  lemma NarrowInRange(kind: Kind, u: nat)
    ensures Narrow(kind, u).Some? ==> IntRange(kind, Narrow(kind, u).value)
    ensures kind.Unsigned? ==> (Narrow(kind, u) == Some(u) <==> u < 2 * Half(kind.size))
  {
  }

  /** pb_dec_bytes, pb_dec_string and pb_dec_fixed_length_bytes. */
  method DecodeBlob(s: IStream, kind: Kind, ghost b: Bytes, ghost tail: Bytes) returns (ok: bool, r: Bytes)
    requires s.Valid()
    modifies s
    ensures s.Advanced() && (ok ==> s.bytesLeft < old(s.bytesLeft))
    ensures ok && (kind.BytesKind? || kind.StringKind? || kind.FixedBytes?) ==> Held(kind, Blob(r))
    ensures Storable(kind, Blob(b)) && old(s.Holds(Prefixed(b), tail)) ==> ok && r == b && s.Rest() == tail
  {
    hide Varint;
    ghost var good := Storable(kind, Blob(b)) && s.Holds(Prefixed(b), tail);
    var got, _, size := DecodeVarint32(s, |b|, b + tail);
    if !got { return false, []; }
    if kind.BytesKind? && size > kind.max { return false, []; }
    if kind.StringKind? && size + 1 > kind.dataSize { return false, []; }
    if kind.FixedBytes? {
      if size == 0 {
        return true, Zeros(kind.length);
      }
      if size != kind.length { return false, []; }
    }
    ok, r := s.Read(size);
    if good { SplitEqual(r, s.Rest(), b, tail); }
  }

  // ---- A message half decoded ----

  /** The slot after `j` of its entries have been decoded. */
  ghost function PartialSlot(f: Field, s: Slot, j: nat): Slot
    requires j <= |s.items|
  {
    if j == 0 then InitialSlot(f) else Slot(s.items[..j])
  }

  /** The message after the fields before `i` and `j` entries of field `i`. */
  ghost function Partial(d: Descriptor, m: Message, i: nat, j: nat): Message
    requires |m.slots| == |d.fields| && (i < |m.slots| ==> j <= |m.slots[i].items|)
  {
    Message(seq(|d.fields|, h requires 0 <= h < |d.fields| =>
      if h < i then m.slots[h] else if h == i then PartialSlot(d.fields[h], m.slots[h], j)
          else InitialSlot(d.fields[h])))
  }

  /** The wire form of what is left of a field. */
  ghost function SlotRest(f: Field, s: Slot, j: nat): Bytes {
    if j == 0 then SlotBytes(f, s) else if Packed(f) then [] else Tagged(f, s, j)
  }

  ghost function MessageRest(d: Descriptor, m: Message, i: nat, j: nat): Bytes
    requires |m.slots| == |d.fields|
  {
    if i >= |d.fields| then [] else SlotRest(d.fields[i], m.slots[i], j) + MessageBytes(d, m, i + 1)
  }

  /** Where a decoder stands: entry `j` of field `i`, with all entries of a packed field taken at once. */
  ghost predicate Stage(d: Descriptor, m: Message, i: nat, j: nat) {
    && |m.slots| == |d.fields| && i <= |d.fields|
    && (i < |d.fields| ==> j <= |m.slots[i].items| && (Packed(d.fields[i]) ==> j == 0 || j == |m.slots[i].items|))
    && (i == |d.fields| ==> j == 0)
  }

  lemma TagNonempty(f: Field, s: Slot, j: nat)
    requires SlotStorable(f, s) && j <= |s.items| && !(j == 0 && Omitted(f, s))
    ensures j < |s.items| && !Packed(f) ==> SlotRest(f, s, j) != []
    ensures j == 0 ==> SlotRest(f, s, j) != []
  {
    hide ValueBytes, IsZero, Storable, Varint;
    if j < |s.items| {
      assert Tagged(f, s, j) == Tag(f.tag, WireType(f.kind)) + ValueBytes(f.kind, s.items[j]) + Tagged(f, s, j + 1);
    }
  }

  /** A field with nothing left is as in the message. */
  lemma SlotFinished(f: Field, s: Slot, j: nat)
    requires SlotStorable(f, s) && j <= |s.items| && (Packed(f) ==> j == 0 || j == |s.items|)
    requires SlotRest(f, s, j) == []
    ensures PartialSlot(f, s, j) == s
    ensures f.rule.Required? ==> j > 0
  {
    hide ValueBytes, IsZero, Storable;
    if j == 0 && Omitted(f, s) {
      OmittedIsInitial(f, s);
    } else {
      TagNonempty(f, s, j);
    }
  }

  lemma OmittedIsInitial(f: Field, s: Slot)
    requires SlotStorable(f, s) && Omitted(f, s)
    ensures s == InitialSlot(f) && !f.rule.Required?
  {
    hide IsZero;
    if s.items != [] {
      StorableIsTyped(f.kind, s.items[0]);
      ZeroIsDefault(f.kind, s.items[0]);
    }
  }

  /** Moves over fields with nothing left, to the next entry on the wire or to the end. */
  lemma {:induction false} NextEntry(d: Descriptor, m: Message, i: nat, j: nat) returns (i': nat, j': nat)
    requires StorableMessage(d, m) && Stage(d, m, i, j)
    ensures Stage(d, m, i', j') && Partial(d, m, i', j') == Partial(d, m, i, j)
    ensures MessageRest(d, m, i', j') == MessageRest(d, m, i, j)
    ensures i <= i' && (if i' == i then j' == j else j' == 0)
    ensures forall h :: i <= h < i' && d.fields[h].rule.Required? ==> h == i && j > 0
    ensures i' < |d.fields| ==> SlotRest(d.fields[i'], m.slots[i'], j') != []
    ensures MessageRest(d, m, i, j) == [] <==> i' == |d.fields|
    decreases |d.fields| - i
  {
    hide SlotStorable, SlotBytes, Tagged, Exclusive;
    if i < |d.fields| && SlotRest(d.fields[i], m.slots[i], j) == [] {
      var f, s := d.fields[i], m.slots[i];
      SlotFinished(f, s, j);
      assert Partial(d, m, i + 1, 0) == Partial(d, m, i, j) by { PartialMoves(d, m, i, j); }
      i', j' := NextEntry(d, m, i + 1, 0);
    } else {
      i', j' := i, j;
    }
  }

  lemma PartialMoves(d: Descriptor, m: Message, i: nat, j: nat)
    requires |m.slots| == |d.fields| && i < |d.fields| && j <= |m.slots[i].items|
    requires PartialSlot(d.fields[i], m.slots[i], j) == m.slots[i]
    ensures Partial(d, m, i + 1, 0) == Partial(d, m, i, j)
  {
  }

  lemma PartialEnds(d: Descriptor, m: Message)
    requires |m.slots| == |d.fields|
    ensures Partial(d, m, |d.fields|, 0) == m
    ensures Partial(d, m, 0, 0) == Initial(d)
  {
  }

  /** The wire form of the entries taken at this stage, after the tag. */
  ghost function Payload(f: Field, s: Slot, j: nat): Bytes
    requires j < |s.items|
  {
    if Packed(f) then Prefixed(Items(f.kind, s, 0)) else ValueBytes(f.kind, s.items[j])
  }

  ghost function NextStage(f: Field, s: Slot, j: nat): nat {
    if Packed(f) then |s.items| else j + 1
  }

  function FieldWireType(f: Field): nat {
    if Packed(f) then WT_STRING else WireType(f.kind)
  }

  ghost function FieldTag(f: Field): Bytes {
    Tag(f.tag, FieldWireType(f))
  }

  lemma SlotShape(f: Field, s: Slot, j: nat)
    requires j <= |s.items| && (Packed(f) ==> j == 0 || j == |s.items|) && SlotRest(f, s, j) != []
    ensures j < |s.items|
    ensures SlotRest(f, s, j) == FieldTag(f) + (Payload(f, s, j) + SlotRest(f, s, NextStage(f, s, j)))
  {
    hide IsZero, Tag, ValueBytes, Prefixed, Items;
    if !Packed(f) {
      assert SlotRest(f, s, j) == Tagged(f, s, j);
    }
  }

  /** What is left of a message starts with a tag and a payload. */
  lemma EntryShape(d: Descriptor, m: Message, i: nat, j: nat)
    requires Stage(d, m, i, j) && i < |d.fields| && SlotRest(d.fields[i], m.slots[i], j) != []
    ensures var f, s := d.fields[i], m.slots[i];
              && j < |s.items| && Stage(d, m, i, NextStage(f, s, j))
              && MessageRest(d, m, i, j) == FieldTag(f) + (Payload(f, s, j) + MessageRest(d, m, i, NextStage(f, s, j)))
  {
    hide SlotRest, FieldTag, Payload, MessageBytes;
    var f, s := d.fields[i], m.slots[i];
    SlotShape(f, s, j);
  }

  // ---- Values, fields and messages ----

  method DecodeValue(s: IStream, kind: Kind, base: Message, ghost v: Value, ghost tail: Bytes)
    returns (ok: bool, r: Value)
    requires s.Valid() && (kind.Submessage? ==> |base.slots| == |kind.d.fields|)
    modifies s
    ensures s.Advanced() && (ok ==> s.bytesLeft < old(s.bytesLeft))
    ensures ok && (kind.Submessage? ==> HeldMessage(kind.d, base)) ==> Held(kind, r)
    ensures ValidKind(kind) && Storable(kind, v) && (kind.Submessage? ==>
              base == Initial(kind.d)) && old(s.Holds(ValueBytes(kind, v), tail)) ==>
              ok && r == v && s.Rest() == tail
    decreases s.bytesLeft, 1
  {
    hide Varint, ValidDescriptor, StorableMessage, MessageBytes, Initial, IntRange, IntBytes, HeldMessage;
    match kind
    case Bool =>
      var got, _, n := DecodeVarint32(s, if v.Flag? && v.b then 1 else 0, tail);
      return got, Flag(n != 0);
    case Submessage(d) =>
      var got, m := DecodeSubmessage(s, d, base, if v.Msg? then v.m else base, tail);
      return got, Msg(m);
    case BytesKind(_) =>
      var got, b := DecodeBlob(s, kind, if v.Blob? then v.bytes else [], tail);
      return got, Blob(b);
    case StringKind(_) =>
      var got, b := DecodeBlob(s, kind, if v.Blob? then v.bytes else [], tail);
      return got, Blob(b);
    case FixedBytes(_) =>
      var got, b := DecodeBlob(s, kind, if v.Blob? then v.bytes else [], tail);
      return got, Blob(b);
    case _ =>
      var got, n := DecodeInt(s, kind, if v.Int? then v.n else 0, tail);
      return got, Int(n);
  }

  /** A substream of the length that comes first; the parent is left after it. */
  method OpenSubstream(s: IStream, ghost b: Bytes, ghost tail: Bytes) returns (ok: bool, sub: IStream)
    requires s.Valid()
    modifies s
    ensures fresh(sub) && sub.Valid() && sub.data == s.data && s.Advanced()
    ensures sub.bytesLeft < old(s.bytesLeft) || !ok
    ensures ok ==> s.bytesLeft < old(s.bytesLeft)
    ensures old(s.Holds(Prefixed(b), tail)) ==> ok && sub.Rest() == b && s.Rest() == tail
  {
    hide Varint;
    ghost var good := s.Holds(Prefixed(b), tail);
    var got, _, size := DecodeVarint32(s, |b|, b + tail);
    if !got || s.bytesLeft < size {
      sub := new IStream(s.data, 0, 0);
      return false, sub;
    }
    sub := new IStream(s.data, s.at, size);
    s.at, s.bytesLeft := s.at + size, s.bytesLeft - size;
    if good { SplitEqual(sub.Rest(), s.Rest(), b, tail); }
    return true, sub;
  }

  method DecodeSubmessage(s: IStream, d: Descriptor, base: Message, ghost m: Message, ghost tail: Bytes)
    returns (ok: bool, r: Message)
    requires s.Valid() && |base.slots| == |d.fields|
    modifies s
    ensures s.Advanced() && (ok ==> s.bytesLeft < old(s.bytesLeft)) && |r.slots| == |d.fields|
    ensures ok && HeldMessage(d, base) ==> HeldMessage(d, r)
    ensures ValidDescriptor(d) && StorableMessage(d, m) && base == Initial(d)
              && old(s.Holds(Prefixed(MessageBytes(d, m, 0)), tail)) ==>
              ok && r == m && s.Rest() == tail
    decreases s.bytesLeft, 0
  {
    hide Varint, ValidDescriptor, StorableMessage, MessageBytes, Initial, Prefixed, HeldMessage;
    var got, sub := OpenSubstream(s, MessageBytes(d, m, 0), tail);
    if !got {
      return false, base;
    }
    if StorableMessage(d, m) {
      StorableShape(d, m);
      SelectsAll(d, m);
    }
    ok, r := DecodeMessage(sub, d, base, d, m, Everything(|d.fields|));
  }

  lemma StorableShape(d: Descriptor, m: Message)
    requires StorableMessage(d, m)
    ensures |m.slots| == |d.fields|
  {
  }

  /** What a submessage is decoded into: the value already there, or a fresh one. */
  function BaseOf(kind: Kind, slot: Slot): (r: Message)
    ensures kind.Submessage? ==> |r.slots| == |kind.d.fields|
  {
    if !kind.Submessage? then Message([])
    else if |slot.items| == 1 && slot.items[0].Msg? && |slot.items[0].m.slots| == |kind.d.fields| then slot.items[0].m
    else Initial(kind.d)
  }

  /** Setting one member of a oneof clears the others. */
  function ClearGroup(d: Descriptor, msg: Message, i: nat): (r: Message)
    requires |msg.slots| == |d.fields| && i < |d.fields|
    ensures |r.slots| == |msg.slots|
  {
    Message(seq(|msg.slots|, h requires 0 <= h < |msg.slots| =>
      if h != i && d.fields[h].rule == d.fields[i].rule then Slot([]) else msg.slots[h]))
  }

  ghost predicate ItemsHeld(kind: Kind, max: nat, items: seq<Value>) {
    |items| <= max && forall j :: 0 <= j < |items| ==> Held(kind, items[j])
  }

  ghost predicate ItemsStorable(kind: Kind, max: nat, slot: Slot) {
    ValidKind(kind) && |slot.items| <= max && forall j :: 0 <= j < |slot.items| ==> Storable(kind, slot.items[j])
  }

  /** The loop over a packed array. */
  method DecodeItems(sub: IStream, kind: Kind, max: nat, have: seq<Value>, ghost slot: Slot)
    returns (ok: bool, items: seq<Value>)
    requires sub.Valid() && Packable(kind)
    modifies sub
    ensures sub.Valid()
    ensures ok && ItemsHeld(kind, max, have) ==> ItemsHeld(kind, max, items)
    ensures ItemsStorable(kind, max, slot) && have == [] && old(sub.Holds(Items(kind, slot, 0), [])) ==>
              ok && items == slot.items
    decreases sub.bytesLeft, 2
  {
    hide ValidKind, Storable, ValueBytes, Held;
    ghost var good := ItemsStorable(kind, max, slot) && have == [] && sub.Holds(Items(kind, slot, 0), []);
    items := have;
    ok := true;
    while sub.bytesLeft > 0 && |items| < max
      invariant sub.Valid() && sub.bytesLeft <= old(sub.bytesLeft)
      invariant ItemsHeld(kind, max, have) ==> ItemsHeld(kind, max, items)
      invariant good ==>
                  && |items| <= |slot.items| && items == slot.items[..|items|]
                  && sub.Rest() == Items(kind, slot, |items|) && ok
      decreases sub.bytesLeft
    {
      ghost var j := |items|;
      ghost var v := if good && j < |slot.items| then slot.items[j] else Flag(false);
      var got, value := DecodeValue(sub, kind, Message([]), v, Items(kind, slot, j + 1));
      if !got {
        ok := false;
        break;
      }
      items := items + [value];
    }
    if good { AllRead(kind, slot, |items|); }
    if sub.bytesLeft != 0 {
      return false, items;
    }
  }

  /** Every packed entry takes up room, so an empty rest means all were read. */
  lemma AllRead(kind: Kind, slot: Slot, j: nat)
    requires Packable(kind) && j <= |slot.items| && forall j :: 0 <= j < |slot.items| ==> Storable(kind, slot.items[j])
    ensures Items(kind, slot, j) == [] <==> j == |slot.items|
  {
  }

  /** The next entry of the slot `target` is the next thing in the stream, `j` entries of it being decoded. */
  ghost predicate FieldAhead(s: IStream, d: Descriptor, i: nat, msg: Message, target: Slot, j: nat, tail: Bytes)
    reads s
    requires s.Valid()
  {
    && i < |d.fields| && |msg.slots| == |d.fields|
    && var f := d.fields[i];
       && ValidKind(f.kind) && SlotStorable(f, target) && j < |target.items| && (Packed(f) ==> j == 0)
       && msg.slots[i] == PartialSlot(f, target, j) && (f.rule.Oneof? ==> ClearGroup(d, msg, i) == msg)
       && s.Holds(Payload(f, target, j), tail)
  }

  /** A required field just decoded has its value, and no other required field loses its own. */
  ghost predicate KeepsRequired(d: Descriptor, i: nat, msg: Message, r: Message) {
    && |msg.slots| == |r.slots| == |d.fields|
    && forall h :: 0 <= h < |d.fields| && d.fields[h].rule.Required? && (h == i || msg.slots[h].items != []) ==>
                     r.slots[h].items != []
  }

  /** decode_static_field. */
  method DecodeField(s: IStream, d: Descriptor, i: nat, wireType: nat, msg: Message, ghost target: Slot, ghost j: nat,
                     ghost tail: Bytes)
    returns (ok: bool, r: Message)
    requires s.Valid() && i < |d.fields| && |msg.slots| == |d.fields|
    modifies s
    ensures s.Advanced() && |r.slots| == |d.fields|
    ensures ok ==> KeepsRequired(d, i, msg, r)
    ensures ok && HeldMessage(d, msg) ==> HeldMessage(d, r)
    ensures old(FieldAhead(s, d, i, msg, target, j, tail)) && wireType == FieldWireType(d.fields[i]) ==>
              && ok && s.Rest() == tail && NextStage(d.fields[i], target, j) <= |target.items|
              && r == msg.(slots := msg.slots[i := PartialSlot(d.fields[i], target, NextStage(d.fields[i], target, j))])
    decreases s.bytesLeft, 3
  {
    hide Varint, ValueBytes, Items, Prefixed, Initial, InitialSlot, ValidKind, Storable, ClearGroup, BaseOf,
        HeldMessage,
         Held;
    var f, slot := d.fields[i], msg.slots[i];
    ghost var good := FieldAhead(s, d, i, msg, target, j, tail) && wireType == FieldWireType(f);
    ghost var v := if good then target.items[j] else Flag(false);
    if good { FieldFacts(f, slot, target, j); }
    ghost var held := HeldMessage(d, msg);
    if held { HeldBefore(d, msg, i); }
    if f.rule.Repeated? && wireType == WT_STRING && Packable(f.kind) {
      if good { assert Packed(f); }
      var got, sub := OpenSubstream(s, Items(f.kind, if good then target else Slot([]), 0), tail);
      if !got { return false, msg; }
      var items;
      ok, items := DecodeItems(sub, f.kind, f.rule.max, slot.items, if good then target else Slot([]));
      if ok && held { SlotReplaced(d, msg, i, Slot(items)); }
      r := msg.(slots := msg.slots[i := Slot(items)]);
    } else if f.rule.Repeated? {
      if |slot.items| >= f.rule.max { return false, msg; }
      var value;
      ok, value := DecodeValue(s, f.kind, if f.kind.Submessage? then Initial(f.kind.d) else Message([]), v, tail);
      if ok && held { SlotReplaced(d, msg, i, Slot(slot.items + [value])); }
      r := msg.(slots := msg.slots[i := Slot(slot.items + [value])]);
    } else if f.rule.Oneof? {
      var value;
      ok, value := DecodeValue(s, f.kind, BaseOf(f.kind, slot), v, tail);
      var cleared := ClearGroup(d, msg, i);
      if !good && ok { ClearKeeps(d, msg, i); }
      if ok && held { MemberSet(d, msg, i, Slot([value])); }
      r := cleared.(slots := cleared.slots[i := Slot([value])]);
    } else {
      var value;
      ok, value := DecodeValue(s, f.kind, BaseOf(f.kind, slot), v, tail);
      if ok && held { SlotReplaced(d, msg, i, Slot([value])); }
      r := msg.(slots := msg.slots[i := Slot([value])]);
    }
  }

  lemma HeldBefore(d: Descriptor, msg: Message, i: nat)
    requires HeldMessage(d, msg) && i < |d.fields|
    ensures SlotHeld(d.fields[i], msg.slots[i])
    ensures d.fields[i].kind.Submessage? ==> HeldMessage(d.fields[i].kind.d, BaseOf(d.fields[i].kind, msg.slots[i]))
    ensures d.fields[i].kind.Submessage? ==> HeldMessage(d.fields[i].kind.d, Initial(d.fields[i].kind.d))
  {
    hide SlotHeld, BaseOf, Initial;
    if d.fields[i].kind.Submessage? {
      BaseHeld(d.fields[i], msg.slots[i]);
      InitialHeld(d.fields[i].kind.d);
    }
  }

  lemma ClearKeeps(d: Descriptor, msg: Message, i: nat)
    requires |msg.slots| == |d.fields| && i < |d.fields| && d.fields[i].rule.Oneof?
    ensures forall h :: 0 <= h < |d.fields| && d.fields[h].rule.Required? ==>
              ClearGroup(d, msg, i).slots[h] == msg.slots[h]
  {
  }

  /** What is known of an entry about to be decoded. */
  lemma FieldFacts(f: Field, slot: Slot, target: Slot, j: nat)
    requires SlotStorable(f, target) && j < |target.items| && (Packed(f) ==>
               j == 0) && slot == PartialSlot(f, target, j)
    ensures forall h :: 0 <= h < |target.items| ==> Storable(f.kind, target.items[h])
    ensures NextStage(f, target, j) <= |target.items|
    ensures PartialSlot(f, target, j + 1) == Slot(target.items[..j] + [target.items[j]])
    ensures PartialSlot(f, target, |target.items|) == target
    ensures f.rule.Repeated? ==> |target.items| <= f.rule.max && slot.items == target.items[..j]
    ensures !f.rule.Repeated? ==>
              |target.items| == 1 && j == 0 && target.items[..j] + [target.items[j]] == [target.items[j]]
    ensures !f.rule.Repeated? && f.kind.Submessage? ==> BaseOf(f.kind, slot) == Initial(f.kind.d)
  {
    hide Initial, BaseOf, Storable;
    var items := target.items;
    assert items[..j + 1] == items[..j] + [items[j]] && items[..|items|] == items;
    if !f.rule.Repeated? && f.kind.Submessage? { BaseIsInitial(f, slot); }
  }

  lemma BaseIsInitial(f: Field, slot: Slot)
    requires slot == InitialSlot(f) && f.kind.Submessage? && !f.rule.Repeated?
    ensures BaseOf(f.kind, slot) == Initial(f.kind.d)
  {
  }

  // ---- Unknown fields ----

  /** Bytes with the top bit set, and one without. */
  ghost predicate VarintForm(b: Bytes) {
    b != [] && b[|b| - 1] < 128 && forall i :: 0 <= i < |b| - 1 ==> b[i] >= 128
  }

  lemma {:induction false} VarintHasForm(n: nat)
    ensures VarintForm(Varint(n))
  {
    if n < 128 {
    } else {
      VarintHasForm(n / 128);
      assert Varint(n)[1..] == Varint(n / 128);
    }
  }

  /** What a wire type says of the value: 0 a varint, 1 eight bytes, 2 a length and as many bytes, 5 four bytes. */
  ghost predicate Skippable(wireType: nat, payload: Bytes) {
    || (wireType == 0 && VarintForm(payload))
    || (wireType == 1 && |payload| == 8)
    || (wireType == 2 && exists b :: payload == Prefixed(b))
    || (wireType == 5 && |payload| == 4)
  }

  /** pb_skip_field: exactly the value goes. */
  method SkipField(s: IStream, wireType: nat, ghost payload: Bytes, ghost tail: Bytes) returns (ok: bool)
    requires s.Valid()
    modifies s
    ensures s.Advanced() && (ok ==> wireType == 0 || wireType == 1 || wireType == 2 || wireType == 5)
    ensures Skippable(wireType, payload) && old(s.Holds(payload, tail)) ==> ok && s.Rest() == tail
  {
    hide Varint, Prefixed, Skippable;
    ghost var good := Skippable(wireType, payload) && s.Holds(payload, tail);
    if good { SkippableSize(wireType, payload); }
    if wireType == WT_VARINT {
      ok := SkipVarint(s, payload, tail, good);
    } else if wireType == WT_64BIT {
      var got, b := s.Read(8);
      ok := got;
      if good { SplitEqual(b, s.Rest(), payload, tail); }
    } else if wireType == WT_STRING {
      ok := SkipString(s, payload, tail, good);
    } else if wireType == WT_32BIT {
      var got, b := s.Read(4);
      ok := got;
      if good { SplitEqual(b, s.Rest(), payload, tail); }
    } else {
      ok := false;
    }
  }

  method SkipVarint(s: IStream, ghost payload: Bytes, ghost tail: Bytes, ghost good: bool) returns (ok: bool)
    requires s.Valid() && (good ==> Skippable(0, payload) && s.Holds(payload, tail))
    modifies s
    ensures s.Advanced() && (good ==> ok && s.Rest() == tail)
  {
    ghost var k := 0;
    while true
      invariant s.Advanced() && 0 <= k
      invariant good ==> k < |payload| && s.Rest() == payload[k..] + tail
      decreases s.bytesLeft
    {
      var got, b := s.Read(1);
      if !got { return false; }
      if good { SplitEqual(b, s.Rest(), [payload[k]], payload[k + 1..] + tail); }
      if b[0] < 128 { return true; }
      k := k + 1;
    }
  }

  method SkipString(s: IStream, ghost payload: Bytes, ghost tail: Bytes, ghost good: bool) returns (ok: bool)
    requires s.Valid() && (good ==> Skippable(2, payload) && s.Holds(payload, tail))
    modifies s
    ensures s.Advanced() && (good ==> ok && s.Rest() == tail)
  {
    hide Varint;
    ghost var b: Bytes := [];
    if good { b :| payload == Prefixed(b); }
    var got, _, size := DecodeVarint32(s, |b|, b + tail);
    if !got { return false; }
    var read, gone := s.Read(size);
    if good { SplitEqual(gone, s.Rest(), b, tail); }
    ok := read;
  }

  lemma SkippableSize(wireType: nat, payload: Bytes)
    requires Skippable(wireType, payload)
    ensures wireType == 0 || wireType == 1 || wireType == 2 || wireType == 5
    ensures (wireType == 1 ==> |payload| == 8) && (wireType == 5 ==> |payload| == 4)
  {
    hide Prefixed, VarintForm;
  }

  /** What the encoder writes after a tag can be skipped by its wire type. */
  lemma PayloadSkips(f: Field, target: Slot, j: nat)
    requires j < |target.items| && SlotStorable(f, target)
    ensures Skippable(FieldWireType(f), Payload(f, target, j))
  {
    hide Varint, Items, MessageBytes, StorableMessage;
    if !Packed(f) {
      var v := target.items[j];
      assert Storable(f.kind, v);
      if v.Flag? { VarintHasForm(if v.b then 1 else 0); }
      if v.Int? { IntSkips(f.kind, v.n); }
    }
  }

  lemma IntSkips(kind: Kind, n: int)
    requires IntRange(kind, n)
    ensures Skippable(WireType(kind), IntBytes(kind, n))
  {
    hide Varint;
    VarintHasForm(n % WORD64);
    VarintHasForm(ZigzagOf(n));
  }

  /** Walks the iterator to the end of the descriptor to count the required fields. */
  method RequiredTotal(d: Descriptor, iter0: Iter) returns (total: nat)
    requires IterOk(d, iter0)
    ensures total == RequiredCount(d, |d.fields|)
  {
    if d.fields == [] {
      return 0;
    }
    var iter := iter0;
    while iter.pos + 1 < |d.fields|
      invariant IterOk(d, iter)
      decreases |d.fields| - iter.pos
    {
      iter := IterNext(d, iter).1;
    }
    total := iter.requiredIndex + if d.fields[iter.pos].rule.Required? then 1 else 0;
  }

  // ---- Required fields are all there ----

  /** Every required field the decoder keeps count of has its value. */
  ghost predicate HasRequired(d: Descriptor, r: Message) {
    && |r.slots| == |d.fields|
    && forall i :: 0 <= i < |d.fields| && Tracked(d, i) ==> r.slots[i].items != []
  }

  predicate Tracked(d: Descriptor, i: nat)
    requires i < |d.fields|
  {
    d.fields[i].rule.Required? && RequiredCount(d, i) < MAX_REQUIRED
  }

  function Counted(d: Descriptor): nat {
    var n := RequiredCount(d, |d.fields|);
    if n > MAX_REQUIRED then MAX_REQUIRED else n
  }

  /** A marked required field has its value. */
  ghost predicate Marked(d: Descriptor, seen: (nat, nat), r: Message) {
    && |r.slots| == |d.fields|
    && MarksBelow(seen, Counted(d))
    && forall i :: 0 <= i < |d.fields| && Tracked(d, i) && SeenBit(seen, RequiredCount(d, i)) ==> r.slots[i].items != []
  }

  lemma {:induction false} CountRises(d: Descriptor, i: nat, j: nat)
    requires i < j <= |d.fields| && d.fields[i].rule.Required?
    ensures RequiredCount(d, i) < RequiredCount(d, j)
    decreases j
  {
    if i >= j - 1 {
    } else {
      CountRises(d, i, j - 1);
    }
  }

  lemma MarkedAtFirst(d: Descriptor, init: Message)
    requires |init.slots| == |d.fields|
    ensures Marked(d, (0, 0), init)
  {
    forall b: nat ensures !HasBit(0, b) { ZeroHasNoBit(b); }
  }

  /** What a mark changes. */
  lemma MarkSets(seen: (nat, nat), k: nat, b: nat)
    requires b < MAX_REQUIRED
    ensures SeenBit(MarkSeen(seen, k), b) <==> b == k || SeenBit(seen, b)
  {
    hide HasBit, SetBit;
    if k < 32 && b < 32 {
      SetBitKeeps(seen.0, k, b);
    } else if 32 <= k < MAX_REQUIRED && b >= 32 {
      SetBitKeeps(seen.1, k - 32, b - 32);
    }
  }

  lemma MarksStayBelow(seen: (nat, nat), k: nat, n: nat)
    requires MarksBelow(seen, n) && n <= MAX_REQUIRED && (k < MAX_REQUIRED ==> k < n)
    ensures MarksBelow(MarkSeen(seen, k), n)
  {
    hide HasBit, SetBit;
    var after := MarkSeen(seen, k);
    forall b: nat
      ensures HasBit(after.0, b) ==> b < 32 && b < n
      ensures HasBit(after.1, b) ==> b < 32 && b + 32 < n
    {
      if k < 32 {
        SetBitKeeps(seen.0, k, b);
      } else if k < MAX_REQUIRED {
        SetBitKeeps(seen.1, k - 32, b);
      }
    }
  }

  /** Marking a field once it is decoded. */
  lemma MarkedNext(d: Descriptor, seen: (nat, nat), i: nat, msg: Message, r: Message)
    requires Marked(d, seen, msg) && i < |d.fields| && KeepsRequired(d, i, msg, r)
    ensures Marked(d, if d.fields[i].rule.Required? then MarkSeen(seen, RequiredCount(d, i)) else seen, r)
  {
    hide SeenBit, MarkSeen, MarksBelow, RequiredCount;
    if d.fields[i].rule.Required? {
      var k := RequiredCount(d, i);
      CountRises(d, i, |d.fields|);
      MarksStayBelow(seen, k, Counted(d));
      forall h | 0 <= h < |d.fields| && Tracked(d, h) && SeenBit(MarkSeen(seen, k), RequiredCount(d, h))
        ensures r.slots[h].items != []
      {
        MarkSets(seen, k, RequiredCount(d, h));
        if h < i { CountRises(d, h, i); } else if i < h { CountRises(d, i, h); }
      }
    }
  }

  lemma AllMarked(d: Descriptor, seen: (nat, nat), r: Message)
    requires Marked(d, seen, r) && AllSeen(seen, RequiredCount(d, |d.fields|))
    ensures HasRequired(d, r)
  {
    hide SeenBit, MarksBelow, AllSeen, RequiredCount;
    AllSeenExactly(seen, RequiredCount(d, |d.fields|));
    forall i | 0 <= i < |d.fields| && Tracked(d, i) ensures r.slots[i].items != []
    {
      CountRises(d, i, |d.fields|);
    }
  }

  // ---- Decoding with some of the fields ----

  /** Field k of `d` is field `pick[k]` of `w`. */
  ghost predicate Selects(d: Descriptor, w: Descriptor, pick: seq<nat>) {
    && |pick| == |d.fields|
    && (forall k :: 0 <= k < |pick| ==> pick[k] < |w.fields| && d.fields[k] == w.fields[pick[k]])
    && (forall k, l :: 0 <= k < l < |pick| ==> pick[k] != pick[l])
  }

  /** The slots of the selected fields. */
  ghost function Picked(m: Message, pick: seq<nat>): (r: Message)
    requires forall k :: 0 <= k < |pick| ==> pick[k] < |m.slots|
    ensures |r.slots| == |pick| && forall k :: 0 <= k < |pick| ==> r.slots[k] == m.slots[pick[k]]
  {
    Message(seq(|pick|, k requires 0 <= k < |pick| => m.slots[pick[k]]))
  }

  ghost function Everything(n: nat): (pick: seq<nat>)
    ensures |pick| == n && forall k :: 0 <= k < n ==> pick[k] == k
  {
    seq(n, k requires 0 <= k => k)
  }

  lemma SelectsAll(d: Descriptor, m: Message)
    requires |m.slots| == |d.fields|
    ensures Selects(d, d, Everything(|d.fields|)) && Picked(m, Everything(|d.fields|)) == m
  {
  }

  lemma SelectedIsValid(d: Descriptor, w: Descriptor, pick: seq<nat>, k: nat, i: nat)
    requires ValidDescriptor(w) && Selects(d, w, pick) && k < |d.fields| && i < |w.fields|
    ensures d.fields[k].tag == w.fields[i].tag ==> pick[k] == i
    ensures ValidKind(d.fields[k].kind)
  {
    hide ValidKind;
  }

  /** Required fields of `d` that lie before entry `j` of field `i` of `w` are marked. */
  ghost predicate DoneSeen(d: Descriptor, pick: seq<nat>, i: nat, j: nat, seen: (nat, nat)) {
    |pick| == |d.fields|
    && forall k :: 0 <= k < |d.fields| && Tracked(d, k) && (pick[k] < i || (pick[k] == i && j > 0)) ==>
                     SeenBit(seen, RequiredCount(d, k))
  }

  /** What is decoded is what the message has at this stage, in the fields of `d`. */
  ghost predicate Known(w: Descriptor, m: Message, d: Descriptor, pick: seq<nat>, i: nat, j: nat, r: Message,
                        seen: (nat, nat)) {
    && ValidDescriptor(w) && StorableMessage(w, m) && Selects(d, w, pick) && Stage(w, m, i, j)
    && r == Picked(Partial(w, m, i, j), pick)
    && DoneSeen(d, pick, i, j, seen)
  }

  /** The stream holds the rest of the message. */
  ghost predicate Progress(s: IStream, w: Descriptor, m: Message, d: Descriptor, pick: seq<nat>, i: nat, j: nat,
                           r: Message, seen: (nat, nat))
    reads s
    requires s.Valid()
  {
    |s.data| < WORD && Known(w, m, d, pick, i, j, r, seen) && s.Rest() == MessageRest(w, m, i, j)
  }

  lemma StartOfMessage(s: IStream, w: Descriptor, m: Message, d: Descriptor, pick: seq<nat>, init: Message)
    requires s.Valid() && Readable(s, d, init, w, m, pick)
    ensures Progress(s, w, m, d, pick, 0, 0, init, (0, 0))
  {
    hide ValidDescriptor, SlotBytes, Partial, InitialSlot, SeenBit;
    PartialEnds(w, m);
    assert Initial(d) == Picked(Initial(w), pick);
  }

  /** While bytes are left, a tag comes next and then the payload of its field. */
  lemma EntryAhead(s: IStream, w: Descriptor, m: Message, d: Descriptor, pick: seq<nat>, i0: nat, j0: nat, r: Message,
                   seen: (nat, nat))
    returns (i: nat, j: nat, tail: Bytes)
    requires s.Valid() && s.bytesLeft > 0 && Progress(s, w, m, d, pick, i0, j0, r, seen)
    ensures Progress(s, w, m, d, pick, i, j, r, seen) && i < |w.fields| == |m.slots| && j < |m.slots[i].items|
    ensures var f := w.fields[i];
              && 1 <= f.tag < 0x2000_0000
              && s.Holds(FieldTag(f), Payload(f, m.slots[i], j) + tail)
              && (Packed(f) ==> j == 0)
              && Stage(w, m, i, NextStage(f, m.slots[i], j))
              && tail == MessageRest(w, m, i, NextStage(f, m.slots[i], j))
  {
    hide MessageRest, Partial, SlotRest, FieldTag, Payload, SeenBit, Tracked, RequiredCount, Picked;
    i, j := NextEntry(w, m, i0, j0);
    EntryShape(w, m, i, j);
    StillSeen(d, w, pick, i0, j0, i, j, seen);
    tail := MessageRest(w, m, i, NextStage(w.fields[i], m.slots[i], j));
  }

  /** Passing fields with nothing left passes no required one that was not seen. */
  lemma StillSeen(d: Descriptor, w: Descriptor, pick: seq<nat>, i0: nat, j0: nat, i: nat, j: nat, seen: (nat, nat))
    requires Selects(d, w, pick) && DoneSeen(d, pick, i0, j0, seen) && i0 <= i <= |w.fields|
    requires if i == i0 then j == j0 else j == 0
    requires forall h :: i0 <= h < i && w.fields[h].rule.Required? ==> h == i0 && j0 > 0
    ensures DoneSeen(d, pick, i, j, seen)
  {
    hide SeenBit, RequiredCount;
  }

  /** With the stream used up, the message is complete and all required fields were seen. */
  lemma EndOfMessage(s: IStream, w: Descriptor, m: Message, d: Descriptor, pick: seq<nat>, i: nat, j: nat, r: Message,
                     seen: (nat, nat))
    requires s.Valid() && s.bytesLeft == 0 && Progress(s, w, m, d, pick, i, j, r, seen)
    requires MarksBelow(seen, Counted(d))
    ensures r == Picked(m, pick) && AllSeen(seen, RequiredCount(d, |d.fields|))
  {
    hide MessageRest, Partial, SlotRest, AllSeen, ValidDescriptor, SeenBit, RequiredCount, MarksBelow, Picked;
    var i', j' := NextEntry(w, m, i, j);
    PartialEnds(w, m);
    StillSeen(d, w, pick, i, j, i', j', seen);
    var total := RequiredCount(d, |d.fields|);
    forall b: nat | b < total && b < MAX_REQUIRED ensures SeenBit(seen, b) {
      var k := CountHits(d, |d.fields|, b);
    }
    AllSeenExactly(seen, total);
  }

  /** Every index below the number of required fields is that of one of them. */
  lemma {:induction false} CountHits(d: Descriptor, n: nat, b: nat) returns (k: nat)
    requires n <= |d.fields| && b < RequiredCount(d, n)
    ensures k < n && d.fields[k].rule.Required? && RequiredCount(d, k) == b
  {
    if b < RequiredCount(d, n - 1) {
      k := CountHits(d, n - 1, b);
    } else {
      k := n - 1;
    }
  }

  /** The field the decoder found is ready to take the entry. */
  lemma KnownField(w: Descriptor, m: Message, d: Descriptor, pick: seq<nat>, i: nat, j: nat, r: Message,
                   seen: (nat, nat), k: nat)
    requires Known(w, m, d, pick, i, j, r, seen) && i < |w.fields| && j < |m.slots[i].items|
    requires k < |d.fields| && d.fields[k].tag == w.fields[i].tag
    ensures pick[k] == i && d.fields[k] == w.fields[i] && |r.slots| == |d.fields|
    ensures ValidKind(d.fields[k].kind) && SlotStorable(d.fields[k], m.slots[i])
    ensures r.slots[k] == PartialSlot(d.fields[k], m.slots[i], j)
    ensures d.fields[k].rule.Oneof? ==> ClearGroup(d, r, k) == r
  {
    SelectedIsValid(d, w, pick, k, i);
    hide ValidDescriptor, SlotStorable, SeenBit, RequiredCount, ValidKind;
    if d.fields[k].rule.Oneof? {
      forall h | 0 <= h < |d.fields| && h != k && d.fields[h].rule == d.fields[k].rule ensures r.slots[h] == Slot([]) {
        OthersEmpty(w, m, i, j, pick[h]);
      }
    }
  }

  /** The entry of a known field is taken. */
  lemma TakeStep(w: Descriptor, m: Message, d: Descriptor, pick: seq<nat>, i: nat, j: nat, n: nat, r: Message,
                 seen: (nat, nat), k: nat)
    requires Known(w, m, d, pick, i, j, r, seen) && i < |w.fields| && j < |m.slots[i].items| && Stage(w, m, i, n)
    requires k < |d.fields| && d.fields[k].tag == w.fields[i].tag
    ensures |r.slots| == |d.fields|
    ensures Known(w, m, d, pick, i, n, r.(slots := r.slots[k := PartialSlot(d.fields[k], m.slots[i], n)]),
                  if d.fields[k].rule.Required? then MarkSeen(seen, RequiredCount(d, k)) else seen)
  {
    SelectedIsValid(d, w, pick, k, i);
    hide ValidDescriptor, StorableMessage, Partial, DoneSeen, MarkSeen, RequiredCount, PartialSlot;
    PickedStep(w, m, d, pick, i, j, n, k);
    SeenNext(d, w, pick, i, j, n, k, seen);
  }

  /** The entry of an unknown field is passed. */
  lemma PassStep(w: Descriptor, m: Message, d: Descriptor, pick: seq<nat>, i: nat, j: nat, n: nat, r: Message,
                 seen: (nat, nat))
    requires Known(w, m, d, pick, i, j, r, seen) && i < |w.fields| && j < |m.slots[i].items| && Stage(w, m, i, n)
    requires forall k :: 0 <= k < |d.fields| ==> d.fields[k].tag != w.fields[i].tag
    ensures Known(w, m, d, pick, i, n, r, seen) && SlotStorable(w.fields[i], m.slots[i])
  {
    hide ValidDescriptor, Partial, DoneSeen, SlotStorable;
    UnknownIsUnpicked(w, d, pick, i);
    UnknownStep(w, m, d, pick, i, j, n);
    SeenStays(d, pick, i, j, n, seen);
  }

  /** While a member of a oneof is decoded, the others have nothing. */
  lemma OthersEmpty(w: Descriptor, m: Message, i: nat, j: nat, h: nat)
    requires StorableMessage(w, m) && i < |w.fields| && j < |m.slots[i].items| && h < |w.fields| && h != i
    requires w.fields[i].rule.Oneof? && w.fields[h].rule == w.fields[i].rule
    ensures Partial(w, m, i, j).slots[h] == Slot([])
  {
    hide SlotStorable;
    if h < i {
      assert m.slots[h].items == [];
    }
  }

  /** One more entry of a known field. */
  lemma PickedStep(w: Descriptor, m: Message, d: Descriptor, pick: seq<nat>, i: nat, j: nat, n: nat, k: nat)
    requires |m.slots| == |w.fields| && Selects(d, w, pick) && i < |w.fields| && k < |d.fields| && pick[k] == i
    requires j <= |m.slots[i].items| && n <= |m.slots[i].items|
    ensures var r := Picked(Partial(w, m, i, j), pick);
              r.(slots := r.slots[k := PartialSlot(d.fields[k], m.slots[i], n)]) == Picked(Partial(w, m, i, n), pick)
  {
    hide PartialSlot, InitialSlot;
  }

  /** One more entry of a field the decoder does not know. */
  lemma UnknownStep(w: Descriptor, m: Message, d: Descriptor, pick: seq<nat>, i: nat, j: nat, n: nat)
    requires |m.slots| == |w.fields| && Selects(d, w, pick) && i < |w.fields| && i !in pick
    requires j <= |m.slots[i].items| && n <= |m.slots[i].items|
    ensures Picked(Partial(w, m, i, j), pick) == Picked(Partial(w, m, i, n), pick)
  {
    hide PartialSlot, InitialSlot;
  }

  lemma UnknownIsUnpicked(w: Descriptor, d: Descriptor, pick: seq<nat>, i: nat)
    requires Selects(d, w, pick) && i < |w.fields| && forall k :: 0 <= k < |d.fields| ==>
               d.fields[k].tag != w.fields[i].tag
    ensures i !in pick
  {
  }

  /** Marks after a field of `d` is done. */
  lemma SeenNext(d: Descriptor, w: Descriptor, pick: seq<nat>, i: nat, j: nat, n: nat, k: nat, seen: (nat, nat))
    requires Selects(d, w, pick) && DoneSeen(d, pick, i, j, seen) && k < |d.fields| && pick[k] == i
    ensures DoneSeen(d, pick, i, n, if d.fields[k].rule.Required? then MarkSeen(seen, RequiredCount(d, k)) else seen)
  {
    hide SeenBit, MarkSeen, RequiredCount;
    var after := if d.fields[k].rule.Required? then MarkSeen(seen, RequiredCount(d, k)) else seen;
    forall l | 0 <= l < |d.fields| && Tracked(d, l) && (pick[l] < i || (pick[l] == i && n > 0))
      ensures SeenBit(after, RequiredCount(d, l))
    {
      MarkSets(seen, RequiredCount(d, k), RequiredCount(d, l));
    }
  }

  lemma SeenStays(d: Descriptor, pick: seq<nat>, i: nat, j: nat, n: nat, seen: (nat, nat))
    requires DoneSeen(d, pick, i, j, seen) && i !in pick
    ensures DoneSeen(d, pick, i, n, seen)
  {
    hide SeenBit, RequiredCount;
  }

  /**
   * pb_decode_noinit: decoding the wire form of a storable message of `w`, of
   * whose fields the descriptor has some, into an initialised message succeeds
   * and restores those fields; the others are skipped.  Whatever the input, a
   * message is accepted only with all its required fields (the first 64), and
   * what is accepted stays within its storage.
   */
  method DecodeMessage(s: IStream, d: Descriptor, init: Message, ghost w: Descriptor, ghost m: Message,
                       ghost pick: seq<nat>)
    returns (ok: bool, r: Message)
    requires s.Valid() && |init.slots| == |d.fields|
    modifies s
    ensures s.Advanced() && |r.slots| == |d.fields|
    ensures ok ==> HasRequired(d, r)
    ensures ok && HeldMessage(d, init) ==> HeldMessage(d, r)
    ensures old(Readable(s, d, init, w, m, pick)) ==> ok && r == Picked(m, pick)
    decreases s.bytesLeft, 4
  {
    hide Marked, HasRequired, KeepsRequired, RequiredCount, MarkSeen, AllSeen, Payload, MessageBytes, MessageRest,
        Initial,
         Known, PartialSlot, SlotStorable, Skippable, ValidKind, ClearGroup, FieldTag, Stage, NextStage, Readable,
         HeldMessage;
    ghost var good := Readable(s, d, init, w, m, pick);
    r := init;
    var iter, seen := Iter(0, 0), (0, 0);
    ghost var i, j := 0, 0;
    if good { StartOfMessage(s, w, m, d, pick, init); }
    IterStarts(d);
    MarkedAtFirst(d, init);
    while s.bytesLeft > 0
      invariant s.Advanced() && |r.slots| == |d.fields| && IterOk(d, iter) && Marked(d, seen, r)
      invariant HeldMessage(d, init) ==> HeldMessage(d, r)
      invariant good ==> Progress(s, w, m, d, pick, i, j, r, seen)
      decreases s.bytesLeft
    {
      ghost var tail: Bytes, n := [], 0;
      ghost var f, target, payload := Field(1, Required, Bool), Slot([]), [];
      if good {
        i, j, tail := EntryAhead(s, w, m, d, pick, i, j, r, seen);
        f, target := w.fields[i], m.slots[i];
        payload, n := Payload(f, target, j), NextStage(f, target, j);
        TagOf(f);
      }
      var got, eof, tag, wireType := DecodeTag(s, f.tag, FieldWireType(f), payload + tail);
      if !got {
        if eof { break; }
        return false, r;
      }
      var found;
      found, iter := IterFind(d, iter, tag);
      if !found {
        if good {
          PassStep(w, m, d, pick, i, j, n, r, seen);
          PayloadSkips(f, target, j);
        }
        var skipped := SkipField(s, wireType, payload, tail);
        if !skipped { return false, r; }
        j := n;
        continue;
      }
      if good {
        KnownField(w, m, d, pick, i, j, r, seen, iter.pos);
        TakeStep(w, m, d, pick, i, j, n, r, seen, iter.pos);
      }
      ghost var before, marks := r, seen;
      if d.fields[iter.pos].rule.Required? {
        seen := MarkSeen(seen, iter.requiredIndex);
      }
      var decoded;
      decoded, r := DecodeField(s, d, iter.pos, wireType, r, target, j, tail);
      if !decoded { return false, r; }
      MarkedNext(d, marks, iter.pos, before, r);
      j := n;
    }
    MarkedBelow(d, seen, r);
    if good { EndOfMessage(s, w, m, d, pick, i, j, r, seen); }
    var total := RequiredTotal(d, iter);
    ok := AllSeen(seen, total);
    if ok { AllMarked(d, seen, r); }
  }

  lemma TagOf(f: Field)
    ensures FieldTag(f) == Tag(f.tag, FieldWireType(f)) && FieldWireType(f) < 8
  {
  }

  lemma MarkedBelow(d: Descriptor, seen: (nat, nat), r: Message)
    requires Marked(d, seen, r)
    ensures MarksBelow(seen, Counted(d))
  {
  }

  /** The stream holds a message of a descriptor that has all fields of this one. */
  ghost predicate Readable(s: IStream, d: Descriptor, init: Message, w: Descriptor, m: Message, pick: seq<nat>)
    reads s
    requires s.Valid()
  {
    && ValidDescriptor(w) && StorableMessage(w, m) && Selects(d, w, pick) && init == Initial(d)
    && s.Holds(MessageBytes(w, m, 0), [])
  }

  lemma IterStarts(d: Descriptor)
    ensures IterOk(d, Iter(0, 0))
  {
  }

  /** pb_decode of any bytes at all: what is accepted has its required fields and stays within its storage. */
  method DecodeAnything(data: Bytes, d: Descriptor) returns (ok: bool, r: Message)
    ensures ok ==> HasRequired(d, r) && HeldMessage(d, r)
  {
    hide HasRequired, HeldMessage, Initial;
    InitialHeld(d);
    var s := new IStream(data, 0, |data|);
    ok, r := DecodeMessage(s, d, Initial(d), d, Initial(d), Everything(|d.fields|));
  }

  /** What was encoded with more fields is decoded to the fields that are known. */
  method DecodeSome(w: Descriptor, m: Message, d: Descriptor, ghost pick: seq<nat>, capacity: nat)
    returns (encoded: bool, decoded: bool, r: Message)
    requires ValidDescriptor(w) && StorableMessage(w, m) && Selects(d, w, pick) && capacity < WORD
    ensures encoded <==> |Encoded(w, m)| <= capacity
    ensures |m.slots| == |w.fields| && |r.slots| == |d.fields|
    ensures encoded ==> decoded && forall k :: 0 <= k < |d.fields| ==> r.slots[k] == m.slots[pick[k]]
  {
    hide ValidDescriptor, StorableMessage, MessageBytes, Typed, PbEncode.Fits, HeldMessage, HasRequired, Selects;
    StorableShape(w, m);
    MessageIsTyped(w, m);
    var out := new PbEncode.OStream(false, capacity, []);
    encoded := PbEncode.EncodeMessage(out, w, m);
    decoded, r := false, Initial(d);
    if encoded {
      var bytes := out.out;
      var s := new IStream(bytes, 0, |bytes|);
      decoded, r := DecodeMessage(s, d, Initial(d), w, m, pick);
    }
  }

  /** pb_decode of what pb_encode wrote gives back the message, whatever its nesting. */
  method RoundTrip(d: Descriptor, m: Message, capacity: nat) returns (encoded: bool, decoded: bool, r: Message)
    requires ValidDescriptor(d) && StorableMessage(d, m) && capacity < WORD
    ensures encoded <==> |Encoded(d, m)| <= capacity
    ensures encoded ==> decoded && r == m
  {
    hide ValidDescriptor, StorableMessage, MessageBytes, Typed, PbEncode.Fits, HeldMessage, HasRequired, Selects,
        Picked, Everything;
    MessageIsTyped(d, m);
    var out := new PbEncode.OStream(false, capacity, []);
    encoded := PbEncode.EncodeMessage(out, d, m);
    decoded, r := false, m;
    if encoded {
      var bytes := out.out;
      var s := new IStream(bytes, 0, |bytes|);
      SelectsAll(d, m);
      decoded, r := DecodeMessage(s, d, Initial(d), d, m, Everything(|d.fields|));
    }
  }
}
