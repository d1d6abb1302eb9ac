/**
 * The protobuf encoder (pb_encode.c): output streams that write or only count,
 * packed arrays and submessages sized in a first pass.
 */
module PbEncode {
  import opened DbFormat
  import opened Coding
  import opened PbModel

  // ---- What the encoder refuses ----

  /** Byte strings and arrays must fit their storage. */
  ghost predicate ValueFits(kind: Kind, v: Value)
    decreases v
  {
    match v
    case Blob(b) => kind.BytesKind? ==> |b| <= kind.max
    case Msg(m) => kind.Submessage? && Fits(kind.d, m)
    case _ => true
  }

  ghost predicate SlotFits(f: Field, s: Slot)
    decreases s
  {
    || Omitted(f, s)
    || ((f.rule.Repeated? ==> |s.items| <= f.rule.max) && forall j :: 0 <= j < |s.items| ==>
        ValueFits(f.kind, s.items[j]))
  }

  ghost predicate Fits(d: Descriptor, m: Message)
    decreases m
  {
    forall i :: 0 <= i < |m.slots| && i < |d.fields| ==> SlotFits(d.fields[i], m.slots[i])
  }

  // ---- Streams ----

  /** pb_ostream_t: without a callback it only counts. */
  class OStream {
    const sizing: bool
    const maxSize: nat
    var bytesWritten: nat
    var out: Bytes

    ghost predicate Valid()
      reads this
    {
      sizing || bytesWritten <= maxSize
    }

    ghost predicate Room(n: nat)
      reads this
    {
      sizing || bytesWritten + n <= maxSize
    }

    constructor (sizing: bool, maxSize: nat, out: Bytes)
      ensures Valid() && this.sizing == sizing && this.maxSize == maxSize && bytesWritten == 0 && this.out == out
    {
      this.sizing, this.maxSize, bytesWritten, this.out := sizing, maxSize, 0, out;
    }

    /** The stream after writing `b`. */
    twostate predicate Wrote(b: Bytes)
      reads this
    {
      && bytesWritten == old(bytesWritten) + |b|
      && out == old(out) + if sizing then [] else b
    }

    /** pb_write. */
    method Write(b: Bytes) returns (ok: bool)
      requires Valid()
      modifies this
      ensures Valid() && (ok <==> old(Room(|b|))) && (ok ==> Wrote(b))
    {
      if |b| > 0 && !sizing {
        if bytesWritten + |b| > maxSize {
          return false;
        }
        out := out + b;
      }
      bytesWritten := bytesWritten + |b|;
      return true;
    }

    /** pb_write with no data, on a counting stream. */
    method Count(n: nat)
      requires Valid() && sizing
      modifies this
      ensures Valid() && bytesWritten == old(bytesWritten) + n && out == old(out)
    {
      bytesWritten := bytesWritten + n;
    }
  }

  /** The digits of a varint: marks every byte, then unmarks the last. */
  method VarintBuffer(n: nat) returns (buffer: Bytes)
    ensures buffer == Varint(n)
  {
    if n <= 0x7f {
      return [n];
    }
    var v: nat := n;
    buffer := [];
    while v > 0
      invariant v > 0 ==> buffer + Varint(v) == Varint(n)
      invariant v == 0 ==> buffer != [] && buffer[|buffer| - 1] >= 128
                           && buffer[..|buffer| - 1] + [buffer[|buffer| - 1] - 128] == Varint(n)
    {
      ghost var before := buffer;
      buffer := buffer + [v % 128 + 128];
      assert buffer[..|before|] == before;
      v := v / 128;
    }
    var last := |buffer| - 1;
    buffer := buffer[last := buffer[last] - 128];
  }

  method EncodeVarint(s: OStream, n: nat) returns (ok: bool)
    requires s.Valid()
    modifies s
    ensures s.Valid() && (ok <==> old(s.Room(|Varint(n)|))) && (ok ==> s.Wrote(Varint(n)))
  {
    var buffer := VarintBuffer(n);
    ok := s.Write(buffer);
  }

  /** pb_encode_svarint: shift and complement in 64 bits. */
  method EncodeSvarint(s: OStream, n: int) returns (ok: bool)
    requires s.Valid() && -0x8000_0000_0000_0000 <= n < 0x8000_0000_0000_0000
    modifies s
    ensures s.Valid() && (ok <==> old(s.Room(|Varint(ZigzagOf(n))|))) && (ok ==> s.Wrote(Varint(ZigzagOf(n))))
  {
    var shifted := 2 * (n % WORD64) % WORD64;
    var zigzagged := if n < 0 then WORD64 - 1 - shifted else shifted;
    assert zigzagged == ZigzagOf(n);
    ok := EncodeVarint(s, zigzagged);
  }

  method EncodeTag(s: OStream, wireType: nat, tag: nat) returns (ok: bool)
    requires s.Valid()
    modifies s
    ensures s.Valid() && (ok <==> old(s.Room(|Tag(tag, wireType)|))) && (ok ==> s.Wrote(Tag(tag, wireType)))
  {
    ok := EncodeVarint(s, tag * 8 + wireType);
  }

  method EncodeString(s: OStream, b: Bytes) returns (ok: bool)
    requires s.Valid()
    modifies s
    ensures s.Valid() && (ok <==> old(s.Room(|Prefixed(b)|))) && (ok ==> s.Wrote(Prefixed(b)))
  {
    hide Varint;
    ok := EncodeVarint(s, |b|);
    if !ok { return; }
    ok := s.Write(b);
  }

  // ---- Values ----

  method EncodeValue(s: OStream, kind: Kind, v: Value) returns (ok: bool)
    requires s.Valid() && HasType(kind, v)
    modifies s
    ensures s.Valid()
    ensures ok <==> ValueFits(kind, v) && old(s.Room(|ValueBytes(kind, v)|))
    ensures ok ==> s.Wrote(ValueBytes(kind, v))
    decreases v, 1
  {
    hide Varint, Typed, Fits, MessageBytes;
    match v
    case Flag(b) => ok := EncodeVarint(s, if b then 1 else 0);
    case Int(n) => ok := EncodeInt(s, kind, n);
    case Blob(b) =>
      if kind.BytesKind? && |b| > kind.max {
        return false;
      }
      ok := EncodeString(s, b);
    case Msg(m) => ok := EncodeSubmessage(s, kind.d, m);
  }

  method EncodeInt(s: OStream, kind: Kind, n: int) returns (ok: bool)
    requires s.Valid() && IntRange(kind, n)
    modifies s
    ensures s.Valid() && (ok <==> old(s.Room(|IntBytes(kind, n)|))) && (ok ==> s.Wrote(IntBytes(kind, n)))
  {
    hide Varint, Fixed32;
    if kind.Zigzag? {
      ok := EncodeSvarint(s, n);
    } else if kind.Word32? {
      ok := s.Write(Fixed32(n % WORD));
    } else if kind.Word64? {
      ok := s.Write(Fixed64(n % WORD64));
    } else {
      ok := EncodeVarint(s, n % WORD64);
    }
  }

  /**
   * pb_encode_submessage: sizes the message, writes the size, then the message
   * through a stream of exactly that size.  The size never changes in between, so
   * the last test never fails a message that fits.
   */
  method EncodeSubmessage(s: OStream, d: Descriptor, m: Message) returns (ok: bool)
    requires s.Valid() && Typed(d, m)
    modifies s
    ensures s.Valid()
    ensures ok <==> Fits(d, m) && old(s.Room(|Prefixed(MessageBytes(d, m, 0))|))
    ensures ok ==> s.Wrote(Prefixed(MessageBytes(d, m, 0)))
    decreases m, 1
  {
    hide Varint, Typed, Fits, MessageBytes;
    var sizes := new OStream(true, 0, []);
    ok := EncodeMessage(sizes, d, m);
    if !ok {
      return false;
    }
    var size := sizes.bytesWritten;
    ok := EncodeVarint(s, size);
    if !ok {
      return false;
    }
    if s.sizing {
      s.Count(size);
      return true;
    }
    if s.bytesWritten + size > s.maxSize {
      return false;
    }
    var sub := new OStream(false, size, s.out);
    ok := EncodeMessage(sub, d, m);
    s.bytesWritten := s.bytesWritten + sub.bytesWritten;
    s.out := sub.out;
    if sub.bytesWritten != size {
      ok := false;
    }
  }

  // ---- Fields ----

  /** The entries of an array, end to end. */
  method EncodeItems(s: OStream, kind: Kind, slot: Slot) returns (ok: bool)
    requires s.Valid() && forall j :: 0 <= j < |slot.items| ==> HasType(kind, slot.items[j])
    modifies s
    ensures s.Valid()
    ensures ok <==> (forall j :: 0 <= j < |slot.items| ==>
              ValueFits(kind, slot.items[j])) && old(s.Room(|Items(kind, slot, 0)|))
    ensures ok ==> s.Wrote(Items(kind, slot, 0))
    decreases slot, 0
  {
    hide HasType, ValueFits, ValueBytes;
    ghost var all := Items(kind, slot, 0);
    var i := 0;
    while i < |slot.items|
      invariant 0 <= i <= |slot.items| && s.Valid()
      invariant forall j :: 0 <= j < i ==> ValueFits(kind, slot.items[j])
      invariant s.bytesWritten + |Items(kind, slot, i)| == old(s.bytesWritten) + |all|
      invariant if s.sizing then s.out == old(s.out) else s.out + Items(kind, slot, i) == old(s.out) + all
    {
      ok := EncodeValue(s, kind, slot.items[i]);
      if !ok { return; }
      i := i + 1;
    }
    ok := true;
  }

  /** The entries of a field, each behind its tag. */
  method EncodeTagged(s: OStream, f: Field, slot: Slot) returns (ok: bool)
    requires s.Valid() && forall j :: 0 <= j < |slot.items| ==> HasType(f.kind, slot.items[j])
    modifies s
    ensures s.Valid()
    ensures ok <==> (forall j :: 0 <= j < |slot.items| ==>
              ValueFits(f.kind, slot.items[j])) && old(s.Room(|Tagged(f, slot, 0)|))
    ensures ok ==> s.Wrote(Tagged(f, slot, 0))
    decreases slot, 0
  {
    hide HasType, ValueFits, ValueBytes, Tag;
    ghost var all := Tagged(f, slot, 0);
    var i := 0;
    while i < |slot.items|
      invariant 0 <= i <= |slot.items| && s.Valid()
      invariant forall j :: 0 <= j < i ==> ValueFits(f.kind, slot.items[j])
      invariant s.bytesWritten + |Tagged(f, slot, i)| == old(s.bytesWritten) + |all|
      invariant if s.sizing then s.out == old(s.out) else s.out + Tagged(f, slot, i) == old(s.out) + all
    {
      ok := EncodeTag(s, WireType(f.kind), f.tag);
      if !ok { return; }
      ok := EncodeValue(s, f.kind, slot.items[i]);
      if !ok { return; }
      i := i + 1;
    }
    ok := true;
  }

  /** The packed form: fixed-width entries are sized by their count, others by a counting pass. */
  method EncodePacked(s: OStream, f: Field, slot: Slot) returns (ok: bool)
    requires s.Valid() && Packable(f.kind) && forall j :: 0 <= j < |slot.items| ==> HasType(f.kind, slot.items[j])
    modifies s
    ensures s.Valid()
    ensures var b := Tag(f.tag, WT_STRING) + Prefixed(Items(f.kind, slot, 0));
              && (ok <==> (forall j :: 0 <= j < |slot.items| ==> ValueFits(f.kind, slot.items[j])) && old(s.Room(|b|)))
              && (ok ==> s.Wrote(b))
    decreases slot, 1
  {
    hide HasType, ValueFits, Items, Tag, Varint;
    ok := EncodeTag(s, WT_STRING, f.tag);
    if !ok { return; }
    var size;
    if f.kind.Word32? || f.kind.Word64? {
      FixedItems(f.kind, slot, 0);
      size := (if f.kind.Word32? then 4 else 8) * |slot.items|;
    } else {
      var sizes := new OStream(true, 0, []);
      ok := EncodeItems(sizes, f.kind, slot);
      if !ok { return; }
      size := sizes.bytesWritten;
    }
    ok := EncodeVarint(s, size);
    if !ok { return; }
    if s.sizing {
      PackableFits(f.kind, slot);
      s.Count(size);
      return true;
    }
    ok := EncodeItems(s, f.kind, slot);
  }

  lemma {:induction false} FixedItems(kind: Kind, slot: Slot, j: nat)
    requires (kind.Word32? || kind.Word64?) && j <= |slot.items|
    requires forall j :: 0 <= j < |slot.items| ==> HasType(kind, slot.items[j])
    ensures |Items(kind, slot, j)| == (if kind.Word32? then 4 else 8) * (|slot.items| - j)
    decreases |slot.items| - j
  {
    if j >= |slot.items| {
    } else {
      FixedItems(kind, slot, j + 1);
    }
  }

  lemma PackableFits(kind: Kind, slot: Slot)
    requires Packable(kind) && forall j :: 0 <= j < |slot.items| ==> HasType(kind, slot.items[j])
    ensures forall j :: 0 <= j < |slot.items| ==> ValueFits(kind, slot.items[j])
  {
  }

  /** encode_basic_field with encode_array. */
  method EncodeField(s: OStream, f: Field, slot: Slot) returns (ok: bool)
    requires s.Valid() && SlotTyped(f, slot)
    modifies s
    ensures s.Valid()
    ensures ok <==> SlotFits(f, slot) && old(s.Room(|SlotBytes(f, slot)|))
    ensures ok ==> s.Wrote(SlotBytes(f, slot))
    decreases slot, 2
  {
    hide HasType, ValueFits, Items, Tag, Tagged, Prefixed, IsZero;
    if Omitted(f, slot) {
      return true;
    }
    if f.rule.Repeated? && |slot.items| > f.rule.max {
      return false;
    }
    if Packed(f) {
      ok := EncodePacked(s, f, slot);
    } else {
      ok := EncodeTagged(s, f, slot);
    }
  }

  /**
   * pb_encode: writes the wire form of the message, exactly when the message fits
   * its storage and the wire form fits the stream.
   */
  method EncodeMessage(s: OStream, d: Descriptor, m: Message) returns (ok: bool)
    requires s.Valid() && Typed(d, m)
    modifies s
    ensures s.Valid()
    ensures ok <==> Fits(d, m) && old(s.Room(|MessageBytes(d, m, 0)|))
    ensures ok ==> s.Wrote(MessageBytes(d, m, 0))
    decreases m, 0
  {
    hide SlotTyped, SlotFits, SlotBytes, Exclusive;
    ghost var all := MessageBytes(d, m, 0);
    var i := 0;
    while i < |d.fields|
      invariant 0 <= i <= |d.fields| && s.Valid()
      invariant forall j :: 0 <= j < i ==> SlotFits(d.fields[j], m.slots[j])
      invariant s.bytesWritten + |MessageBytes(d, m, i)| == old(s.bytesWritten) + |all|
      invariant if s.sizing then s.out == old(s.out) else s.out + MessageBytes(d, m, i) == old(s.out) + all
    {
      ok := EncodeField(s, d.fields[i], m.slots[i]);
      if !ok { return; }
      i := i + 1;
    }
    ok := true;
  }

  /**
   * Sizing equals writing: the counting pass succeeds with `n` exactly when
   * encoding into a buffer of at least `n` bytes succeeds, and then writes `n`.
   */
  method SizeThenEncode(d: Descriptor, m: Message, capacity: nat) returns (sized: bool, n: nat, ok: bool, out: Bytes)
    requires Typed(d, m)
    ensures sized ==> n == |Encoded(d, m)|
    ensures ok <==> sized && n <= capacity
    ensures ok ==> out == Encoded(d, m) && |out| == n
    ensures sized <==> Fits(d, m)
  {
    hide Typed, Fits, MessageBytes;
    var sizes := new OStream(true, 0, []);
    sized := EncodeMessage(sizes, d, m);
    n := sizes.bytesWritten;
    var s := new OStream(false, capacity, []);
    ok := EncodeMessage(s, d, m);
    out := s.out;
  }
}
