/**
 * Descriptors and messages of the table-driven protobuf codec, and the wire
 * form of a message (pb.h, pb_encode.c; Protocol Buffers Encoding, sections
 * "Base 128 Varints", "Signed Integers", "Length-Delimited Records" and
 * "Packed Repeated Fields").  Fields are static: no callbacks, extensions,
 * pointers or fixed-count arrays.
 */
module PbModel {
  import opened DbFormat
  import opened Coding

  /** What a field stores.  `size` is the width in bytes of an integer, or of a fixed byte string. */
  datatype Kind =
    | Bool
    | Signed(size: nat)
    | Unsigned(size: nat)
    | Zigzag(size: nat)
    | Word32
    | Word64
    | BytesKind(max: nat)
    | StringKind(dataSize: nat)
    | FixedBytes(length: nat)
    | Submessage(d: Descriptor)

  /** `Optional` has a presence flag; `Singular` is present when it is not zero. */
  datatype Rule = Required | Optional | Singular | Repeated(max: nat) | Oneof(group: nat)

  datatype Field = Field(tag: nat, rule: Rule, kind: Kind)

  datatype Descriptor = Descriptor(fields: seq<Field>)

  datatype Value = Flag(b: bool) | Int(n: int) | Blob(bytes: Bytes) | Msg(m: Message)

  /** The values of one field: none or one, or the entries of a repeated field. */
  datatype Slot = Slot(items: seq<Value>)

  datatype Message = Message(slots: seq<Slot>)

  // ---- Descriptors ----

  predicate ValidSize(size: nat) {
    size == 1 || size == 2 || size == 4 || size == 8
  }

  /** Half the range of an integer of `size` bytes. */
  function Half(size: nat): int {
    if size == 1 then 0x80 else if size == 2 then 0x8000 else if size == 4 then 0x8000_0000 else 0x8000_0000_0000_0000
  }

  predicate Packable(kind: Kind) {
    kind.Bool? || kind.Signed? || kind.Unsigned? || kind.Zigzag? || kind.Word32? || kind.Word64?
  }

  ghost predicate ValidKind(kind: Kind)
    decreases kind
  {
    match kind
    case Signed(size) => ValidSize(size)
    case Unsigned(size) => ValidSize(size)
    case Zigzag(size) => ValidSize(size)
    case Submessage(d) => ValidDescriptor(d)
    case _ => true
  }

  /** Tags are distinct and in range, at every depth. */
  ghost predicate ValidDescriptor(d: Descriptor)
    decreases d
  {
    && (forall i, j :: 0 <= i < j < |d.fields| ==> d.fields[i].tag != d.fields[j].tag)
    && (forall i :: 0 <= i < |d.fields| ==> 1 <= d.fields[i].tag < 0x2000_0000)
    && (forall i :: 0 <= i < |d.fields| ==> ValidKind(d.fields[i].kind))
  }

  // ---- Messages of a descriptor ----

  predicate IntRange(kind: Kind, n: int) {
    match kind
    case Signed(size) => -Half(size) <= n < Half(size)
    case Zigzag(size) => -Half(size) <= n < Half(size)
    case Unsigned(size) => 0 <= n < 2 * Half(size)
    case Word32 => 0 <= n < WORD
    case Word64 => 0 <= n < WORD64
    case _ => false
  }

  /** A string is what precedes its terminator. */
  ghost predicate NoZero(b: Bytes) {
    forall i :: 0 <= i < |b| ==> b[i] != 0
  }

  ghost predicate HasType(kind: Kind, v: Value)
    decreases v
  {
    match kind
    case Bool => v.Flag?
    case BytesKind(_) => v.Blob?
    case StringKind(dataSize) => v.Blob? && NoZero(v.bytes) && |v.bytes| <= dataSize
    case FixedBytes(length) => v.Blob? && |v.bytes| == length
    case Submessage(d) => v.Msg? && Typed(d, v.m)
    case _ => v.Int? && IntRange(kind, v.n)
  }

  predicate CountOk(rule: Rule, n: nat) {
    match rule
    case Required => n == 1
    case Singular => n == 1
    case Optional => n <= 1
    case Oneof(_) => n <= 1
    case Repeated(_) => true
  }

  ghost predicate SlotTyped(f: Field, s: Slot)
    decreases s
  {
    CountOk(f.rule, |s.items|) && forall j :: 0 <= j < |s.items| ==> HasType(f.kind, s.items[j])
  }

  /** At most one member of a oneof is set. */
  ghost predicate Exclusive(d: Descriptor, m: Message) {
    forall i, j ::
      0 <= i < j < |d.fields| && j < |m.slots| && d.fields[i].rule.Oneof? && d.fields[j].rule == d.fields[i].rule ==>
      m.slots[i].items == [] || m.slots[j].items == []
  }

  ghost predicate Typed(d: Descriptor, m: Message)
    decreases m
  {
    && |m.slots| == |d.fields|
    && (forall i :: 0 <= i < |m.slots| ==> SlotTyped(d.fields[i], m.slots[i]))
    && Exclusive(d, m)
  }

  // ---- Zero values ----

  /** What a field's storage is set to before decoding. */
  function DefaultValue(kind: Kind): Value
    decreases kind, 0
  {
    match kind
    case Bool => Flag(false)
    case BytesKind(_) => Blob([])
    case StringKind(_) => Blob([])
    case FixedBytes(length) => Blob(Zeros(length))
    case Submessage(d) => Msg(Initial(d))
    case _ => Int(0)
  }

  function InitialSlot(f: Field): Slot
    decreases f, 0
  {
    if f.rule.Singular? then Slot([DefaultValue(f.kind)]) else Slot([])
  }

  /** A message with nothing decoded yet. */
  function Initial(d: Descriptor): (m: Message)
    ensures |m.slots| == |d.fields|
    decreases d, 0
  {
    Message(seq(|d.fields|, i requires 0 <= i < |d.fields| => InitialSlot(d.fields[i])))
  }

  /** The zero test for singular fields, through submessages. */
  predicate IsZero(kind: Kind, v: Value)
    decreases v, 1
  {
    match v
    case Flag(b) => !b
    case Int(n) => n == 0
    case Blob(b) => if kind.FixedBytes? then kind.length == 0 else b == []
    case Msg(m) => kind.Submessage? && AllZero(kind.d, m)
  }

  predicate AllZero(d: Descriptor, m: Message)
    decreases m, 1
  {
    forall i :: 0 <= i < |m.slots| && i < |d.fields| ==> SlotZero(d.fields[i], m.slots[i])
  }

  predicate SlotZero(f: Field, s: Slot)
    decreases s, 1
  {
    match f.rule
    case Required => false
    case Singular => forall j :: 0 <= j < |s.items| ==> IsZero(f.kind, s.items[j])
    case _ => s.items == []
  }

  /** A value that passes the zero test is what decoding starts from. */
  lemma {:induction false} ZeroIsDefault(kind: Kind, v: Value)
    requires HasType(kind, v) && IsZero(kind, v)
    ensures v == DefaultValue(kind)
    decreases v
  {
    if kind.Submessage? {
      var d, m := kind.d, v.m;
      forall i | 0 <= i < |m.slots| ensures m.slots[i] == Initial(d).slots[i] {
        SlotZeroIsInitial(d.fields[i], m.slots[i]);
      }
    }
  }

  lemma {:induction false} SlotZeroIsInitial(f: Field, s: Slot)
    requires SlotTyped(f, s) && SlotZero(f, s)
    ensures s == InitialSlot(f)
    decreases s
  {
    if f.rule.Singular? {
      ZeroIsDefault(f.kind, s.items[0]);
    }
  }

  /** Kinds whose default counts as zero: no fixed byte string, and no required field in a submessage. */
  predicate Zeroable(kind: Kind)
    decreases kind
  {
    match kind
    case FixedBytes(length) => length == 0
    case Submessage(d) =>
      forall i :: 0 <= i < |d.fields| ==>
        !d.fields[i].rule.Required? && (d.fields[i].rule.Singular? ==> Zeroable(d.fields[i].kind))
    case _ => true
  }

  /** The zero test passes exactly on the default of a kind that counts as zero. */
  lemma {:induction false} IsZeroExactly(kind: Kind, v: Value)
    requires HasType(kind, v)
    ensures IsZero(kind, v) <==> Zeroable(kind) && v == DefaultValue(kind)
    decreases v
  {
    if kind.Submessage? {
      var d, m := kind.d, v.m;
      assert kind == Submessage(d) && v == Msg(m) && DefaultValue(kind) == Msg(Initial(d)) && Typed(d, m);
      assert IsZero(kind, v) <==> AllZero(d, m);
      forall i | 0 <= i < |d.fields| ensures SlotZero(d.fields[i], m.slots[i]) <==>
                                               SlotCounts(d.fields[i]) && m.slots[i] == InitialSlot(d.fields[i])
      {
        SlotZeroExactly(d.fields[i], m.slots[i]);
      }
      if AllZero(d, m) { ZeroIsDefault(kind, v); }
    }
  }

  /** A field that may be zero: not required, and if singular of a kind that counts as zero. */
  predicate SlotCounts(f: Field) {
    !f.rule.Required? && (f.rule.Singular? ==> Zeroable(f.kind))
  }

  lemma {:induction false} SlotZeroExactly(f: Field, s: Slot)
    requires SlotTyped(f, s)
    ensures SlotZero(f, s) <==> SlotCounts(f) && s == InitialSlot(f)
    decreases s
  {
    if f.rule.Singular? {
      IsZeroExactly(f.kind, s.items[0]);
      assert s == Slot([s.items[0]]);
    }
  }

  // ---- Wire form ----

  const WT_VARINT: nat := 0
  const WT_64BIT: nat := 1
  const WT_STRING: nat := 2
  const WT_32BIT: nat := 5

  function WireType(kind: Kind): nat {
    match kind
    case Word32 => WT_32BIT
    case Word64 => WT_64BIT
    case BytesKind(_) => WT_STRING
    case StringKind(_) => WT_STRING
    case FixedBytes(_) => WT_STRING
    case Submessage(_) => WT_STRING
    case _ => WT_VARINT
  }

  function Tag(tag: nat, wireType: nat): Bytes {
    Varint(tag * 8 + wireType)
  }

  /** Zigzag coding of a signed number. */
  function ZigzagOf(n: int): nat {
    if n < 0 then -2 * n - 1 else 2 * n
  }

  function IntBytes(kind: Kind, n: int): Bytes {
    match kind
    case Zigzag(_) => Varint(ZigzagOf(n))
    case Word32 => Fixed32(n % WORD)
    case Word64 => Fixed64(n % WORD64)
    case _ => Varint(n % WORD64)
  }

  function ValueBytes(kind: Kind, v: Value): Bytes
    decreases v, 0
  {
    match v
    case Flag(b) => Varint(if b then 1 else 0)
    case Int(n) => IntBytes(kind, n)
    case Blob(b) => Prefixed(b)
    case Msg(m) => if kind.Submessage? then Prefixed(MessageBytes(kind.d, m, 0)) else []
  }

  /** The entries from `j` on, end to end. */
  function Items(kind: Kind, s: Slot, j: nat): Bytes
    decreases s, |s.items| - j
  {
    if j >= |s.items| then [] else ValueBytes(kind, s.items[j]) + Items(kind, s, j + 1)
  }

  /** The entries from `j` on, each with its tag. */
  function Tagged(f: Field, s: Slot, j: nat): Bytes
    decreases s, |s.items| - j
  {
    if j >= |s.items| then [] else Tag(f.tag, WireType(f.kind)) + ValueBytes(f.kind, s.items[j]) + Tagged(f, s, j + 1)
  }

  predicate Packed(f: Field) {
    f.rule.Repeated? && Packable(f.kind)
  }

  /** A field is left out when it has no value, or is singular and zero. */
  predicate Omitted(f: Field, s: Slot) {
    s.items == [] || (f.rule.Singular? && IsZero(f.kind, s.items[0]))
  }

  function SlotBytes(f: Field, s: Slot): Bytes
    decreases s, |s.items| + 1
  {
    if Omitted(f, s) then []
    else if Packed(f) then Tag(f.tag, WT_STRING) + Prefixed(Items(f.kind, s, 0))
    else Tagged(f, s, 0)
  }

  /** The fields from `i` on. */
  function MessageBytes(d: Descriptor, m: Message, i: nat): Bytes
    decreases m, |d.fields| - i
  {
    if i >= |d.fields| || i >= |m.slots| then [] else SlotBytes(d.fields[i], m.slots[i]) + MessageBytes(d, m, i + 1)
  }

  /** The wire form of a message. */
  function Encoded(d: Descriptor, m: Message): Bytes {
    MessageBytes(d, m, 0)
  }
}
