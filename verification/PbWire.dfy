/**
 * The protobuf wire format read on its own (Protocol Buffers Encoding, sections
 * "Message Structure", "Base 128 Varints", "More Integer Types",
 * "Length-Delimited Records" and "Packed Repeated Fields"): a reader of keys and
 * values that knows no descriptor, and what it makes of an encoded message.
 */
module PbWire {
  import opened DbFormat
  import opened Coding
  import opened PbModel
  import PbEncode

  // ---- A reader without descriptors ----

  /** A value as its wire type gives it: 0 a number, 1 eight bytes, 2 delimited bytes, 5 four bytes. */
  datatype WireValue = Number(n: nat) | Eight(n: nat) | Delimited(body: Bytes) | Four(n: nat)

  datatype WireField = WireField(number: nat, value: WireValue)

  /** The number of a varint at the front and what follows it. */
  function TakeVarint(b: Bytes): (r: Option<(nat, Bytes)>)
    ensures r.Some? ==> |r.value.1| < |b|
  {
    if b == [] then None
    else if b[0] < 128 then Some((b[0], b[1..]))
    else
      var more := TakeVarint(b[1..]);
      if more == None then None else Some((b[0] - 128 + 128 * more.value.0, more.value.1))
  }

  function TakeValue(wireType: nat, b: Bytes): (r: Option<(WireValue, Bytes)>)
    ensures r.Some? ==> |r.value.1| <= |b|
  {
    if wireType == 0 then
      var n := TakeVarint(b);
      if n == None then None else Some((Number(n.value.0), n.value.1))
    else if wireType == 1 then
      if |b| < 8 then None else Some((Eight(LittleEndian(b[..8])), b[8..]))
    else if wireType == 2 then
      var n := TakeVarint(b);
      if n == None || |n.value.1| < n.value.0 then None
      else Some((Delimited(n.value.1[..n.value.0]), n.value.1[n.value.0..]))
    else if wireType == 5 then
      if |b| < 4 then None else Some((Four(LittleEndian(b[..4])), b[4..]))
    else None
  }

  /** The fields of a message, in order. */
  function SplitFields(b: Bytes): Option<seq<WireField>>
    decreases |b|
  {
    if b == [] then Some([])
    else
      var key := TakeVarint(b);
      if key == None then None
      else
        var value := TakeValue(key.value.0 % 8, key.value.1);
        if value == None then None
        else
          var rest := SplitFields(value.value.1);
          if rest == None then None else Some([WireField(key.value.0 / 8, value.value.0)] + rest.value)
  }

  /** The entries of a packed array whose entries have the wire type. */
  function SplitPacked(wireType: nat, b: Bytes): Option<seq<WireValue>>
    decreases |b|
  {
    if b == [] then Some([])
    else
      var value := TakeValue(wireType, b);
      if value == None || |value.value.1| == |b| then None
      else
        var rest := SplitPacked(wireType, value.value.1);
        if rest == None then None else Some([value.value.0] + rest.value)
  }

  // ---- What a message should look like ----

  /** The wire value of a field's value; a submessage is its own encoding, delimited. */
  function OnWire(kind: Kind, v: Value): WireValue {
    match v
    case Flag(b) => Number(if b then 1 else 0)
    case Blob(b) => Delimited(b)
    case Msg(m) => if kind.Submessage? then Delimited(Encoded(kind.d, m)) else Delimited([])
    case Int(n) =>
      if kind.Word32? then Four(n % 0x1_0000_0000)
      else if kind.Word64? then Eight(n % 0x1_0000_0000_0000_0000)
      else if kind.Zigzag? then Number(if n < 0 then -2 * n - 1 else 2 * n)
      else Number(n % 0x1_0000_0000_0000_0000)
  }

  function AllOnWire(kind: Kind, vs: seq<Value>): (r: seq<WireValue>)
    ensures |r| == |vs| && forall k :: 0 <= k < |vs| ==> r[k] == OnWire(kind, vs[k])
  {
    seq(|vs|, k requires 0 <= k < |vs| => OnWire(kind, vs[k]))
  }

  /** One field of the message on the wire: nothing if absent or singular and zero, one if packed, else one an entry. */
  ghost predicate ShowsSlot(f: Field, s: Slot, fs: seq<WireField>) {
    if s.items == [] || (f.rule.Singular? && Zeroable(f.kind) && s.items[0] == DefaultValue(f.kind)) then fs == []
    else if f.rule.Repeated? && Packable(f.kind) then
      && |fs| == 1 && fs[0].number == f.tag && fs[0].value.Delimited?
      && SplitPacked(if f.kind.Word32? then 5 else if f.kind.Word64? then 1 else 0, fs[0].value.body)
          == Some(AllOnWire(f.kind, s.items))
    else |fs| == |s.items| && forall j :: 0 <= j < |fs| ==> fs[j] == WireField(f.tag, OnWire(f.kind, s.items[j]))
  }

  /** The fields of the message from the i-th on, in the order of the descriptor. */
  ghost predicate ShowsFrom(d: Descriptor, m: Message, i: nat, fs: seq<WireField>)
    requires |m.slots| == |d.fields|
    decreases |d.fields| - i
  {
    if i >= |d.fields| then fs == []
    else exists n: nat :: n <= |fs| && ShowsSlot(d.fields[i], m.slots[i], fs[..n]) && ShowsFrom(d, m, i + 1, fs[n..])
  }

  // ---- Reading what is written ----

  lemma {:induction false} TakesVarint(n: nat, tail: Bytes)
    ensures TakeVarint(Varint(n) + tail) == Some((n, tail))
  {
    var b := Varint(n) + tail;
    if n < 128 {
      assert b[1..] == tail;
    } else {
      TakesVarint(n / 128, tail);
      assert b[1..] == Varint(n / 128) + tail;
    }
  }

  /** The wire type of each kind, as a number. */
  function TypeNumber(kind: Kind): nat {
    match kind
    case Word32 => 5
    case Word64 => 1
    case Bool => 0
    case Signed(_) => 0
    case Unsigned(_) => 0
    case Zigzag(_) => 0
    case _ => 2
  }

  lemma TakesValue(kind: Kind, v: Value, tail: Bytes)
    requires HasType(kind, v)
    ensures TakeValue(TypeNumber(kind), ValueBytes(kind, v) + tail) == Some((OnWire(kind, v), tail))
    ensures ValueBytes(kind, v) != []
  {
    hide Varint, TakeVarint, LittleEndian, MessageBytes, Typed, Fixed32, Fixed64;
    match v
    case Flag(b) => TakesVarint(if b then 1 else 0, tail);
    case Blob(b) => TakesBody(b, tail);
    case Msg(m) => TakesBody(Encoded(kind.d, m), tail);
    case Int(n) => TakesInt(kind, n, tail);
  }

  lemma TakesBody(b: Bytes, tail: Bytes)
    ensures TakeValue(2, Prefixed(b) + tail) == Some((Delimited(b), tail)) && Prefixed(b) != []
  {
    hide Varint, TakeVarint;
    assert Prefixed(b) + tail == Varint(|b|) + (b + tail);
    TakesVarint(|b|, b + tail);
    assert (b + tail)[..|b|] == b && (b + tail)[|b|..] == tail;
  }

  lemma TakesInt(kind: Kind, n: int, tail: Bytes)
    requires HasType(kind, Int(n))
    ensures TakeValue(TypeNumber(kind), IntBytes(kind, n) + tail) == Some((OnWire(kind, Int(n)), tail))
    ensures IntBytes(kind, n) != []
  {
    hide Varint, TakeVarint, LittleEndian, Fixed32, Fixed64;
    var b := IntBytes(kind, n) + tail;
    if kind.Word32? {
      Fixed32Format(n % WORD);
      assert b[..4] == Fixed32(n % WORD) && b[4..] == tail;
    } else if kind.Word64? {
      Fixed64Format(n % WORD64);
      assert b[..8] == Fixed64(n % WORD64) && b[8..] == tail;
    } else if kind.Zigzag? {
      TakesVarint(ZigzagOf(n), tail);
    } else {
      TakesVarint(n % WORD64, tail);
    }
  }

  /** A tag, a value and what follows. */
  lemma TakesField(tag: nat, wireType: nat, payload: Bytes, value: WireValue, tail: Bytes)
    requires wireType < 8 && TakeValue(wireType, payload + tail) == Some((value, tail))
    ensures var b := Tag(tag, wireType) + payload + tail;
              SplitFields(b) == if SplitFields(tail) == None then None
                                else Some([WireField(tag, value)] + SplitFields(tail).value)
  {
    hide Varint, TakeVarint, TakeValue;
    var b, key := Tag(tag, wireType) + payload + tail, tag * 8 + wireType;
    assert b == Varint(key) + (payload + tail);
    TakesVarint(key, payload + tail);
    assert key % 8 == wireType && key / 8 == tag;
  }

  /** The entries of a repeated or single field, each with its tag. */
  lemma {:induction false} TakesTagged(f: Field, s: Slot, j: nat, tail: Bytes, rest: seq<WireField>)
    returns (fs: seq<WireField>)
    requires SlotTyped(f, s) && j <= |s.items| && SplitFields(tail) == Some(rest)
    ensures SplitFields(Tagged(f, s, j) + tail) == Some(fs + rest)
    ensures |fs| == |s.items| - j && forall k :: 0 <= k < |fs| ==>
              fs[k] == WireField(f.tag, OnWire(f.kind, s.items[j + k]))
    decreases |s.items| - j
  {
    hide SplitFields, TakeValue, ValueBytes, Tag, OnWire;
    if j == |s.items| {
      fs := [];
      assert Tagged(f, s, j) + tail == tail && fs + rest == rest;
    } else {
      var more := TakesTagged(f, s, j + 1, tail, rest);
      var after := Tagged(f, s, j + 1) + tail;
      TakesValue(f.kind, s.items[j], after);
      KindType(f.kind);
      TakesField(f.tag, WireType(f.kind), ValueBytes(f.kind, s.items[j]), OnWire(f.kind, s.items[j]), after);
      assert Tagged(f, s, j) + tail == Tag(f.tag, WireType(f.kind)) + ValueBytes(f.kind, s.items[j]) + after;
      fs := [WireField(f.tag, OnWire(f.kind, s.items[j]))] + more;
      assert fs + rest == [WireField(f.tag, OnWire(f.kind, s.items[j]))] + (more + rest);
    }
  }

  lemma KindType(kind: Kind)
    ensures WireType(kind) == TypeNumber(kind) < 8
  {
  }

  /** The entries of a packed array, end to end. */
  lemma {:induction false} TakesItems(kind: Kind, s: Slot, j: nat)
    requires Packable(kind) && j <= |s.items| && forall h :: 0 <= h < |s.items| ==> HasType(kind, s.items[h])
    ensures SplitPacked(TypeNumber(kind), Items(kind, s, j)) == Some(AllOnWire(kind, s.items[j..]))
    decreases |s.items| - j
  {
    hide TakeValue, ValueBytes, OnWire, HasType;
    if j == |s.items| {
      assert AllOnWire(kind, s.items[j..]) == [];
    } else {
      TakesItems(kind, s, j + 1);
      TakesValue(kind, s.items[j], Items(kind, s, j + 1));
      FirstOnWire(kind, s.items, j);
      hide AllOnWire;
    }
  }

  lemma FirstOnWire(kind: Kind, vs: seq<Value>, j: nat)
    requires j < |vs|
    ensures AllOnWire(kind, vs[j..]) == [OnWire(kind, vs[j])] + AllOnWire(kind, vs[j + 1..])
  {
    hide OnWire;
    assert vs[j..] == [vs[j]] + vs[j + 1..];
  }

  /** One field of a message. */
  lemma TakesSlot(f: Field, s: Slot, tail: Bytes, rest: seq<WireField>) returns (fs: seq<WireField>)
    requires SlotTyped(f, s) && SplitFields(tail) == Some(rest)
    ensures SplitFields(SlotBytes(f, s) + tail) == Some(fs + rest) && ShowsSlot(f, s, fs)
  {
    hide SplitFields, SplitPacked, TakeValue, Tagged, Items, OnWire, IsZero, Tag, HasType, Zeroable, DefaultValue;
    if s.items != [] { IsZeroExactly(f.kind, s.items[0]); }
    if Omitted(f, s) {
      fs := [];
      assert SlotBytes(f, s) + tail == tail && fs + rest == rest;
    } else if Packed(f) {
      var body := Items(f.kind, s, 0);
      TakesBody(body, tail);
      TakesField(f.tag, 2, Prefixed(body), Delimited(body), tail);
      fs := [WireField(f.tag, Delimited(body))];
      TakesItems(f.kind, s, 0);
      PackedType(f.kind);
      assert s.items[0..] == s.items;
    } else {
      fs := TakesTagged(f, s, 0, tail, rest);
    }
  }

  lemma PackedType(kind: Kind)
    requires Packable(kind)
    ensures TypeNumber(kind) == if kind.Word32? then 5 else if kind.Word64? then 1 else 0
  {
  }

  /**
   * The encoding of a message, read without its descriptor, is exactly the fields
   * it has, in the order of the descriptor, with their numbers, the wire type of
   * each kind, and their values; submessages the same way in their turn.
   */
  lemma {:induction false} MessageShows(d: Descriptor, m: Message, i: nat) returns (fs: seq<WireField>)
    requires Typed(d, m)
    ensures SplitFields(MessageBytes(d, m, i)) == Some(fs) && ShowsFrom(d, m, i, fs)
    decreases |d.fields| - i
  {
    hide SplitFields, SlotBytes, ShowsSlot, SlotTyped, Exclusive;
    if i >= |d.fields| {
      fs := [];
      NoFields();
    } else {
      var rest := MessageShows(d, m, i + 1);
      var first := TakesSlot(d.fields[i], m.slots[i], MessageBytes(d, m, i + 1), rest);
      fs := first + rest;
      assert fs[..|first|] == first && fs[|first|..] == rest;
    }
  }

  lemma NoFields()
    ensures SplitFields([]) == Some([])
  {
  }

  /** What the encoder writes for a message that fits, read without its descriptor. */
  method EncodeShows(d: Descriptor, m: Message, capacity: nat)
    returns (ok: bool, bytes: Bytes, ghost fs: seq<WireField>)
    requires Typed(d, m)
    ensures ok <==> PbEncode.Fits(d, m) && |Encoded(d, m)| <= capacity
    ensures |m.slots| == |d.fields| && (ok ==> SplitFields(bytes) == Some(fs) && ShowsFrom(d, m, 0, fs))
  {
    hide MessageBytes, PbEncode.Fits, SplitFields, ShowsFrom;
    var out := new PbEncode.OStream(false, capacity, []);
    ok := PbEncode.EncodeMessage(out, d, m);
    bytes := out.out;
    fs := MessageShows(d, m, 0);
    assert [] + MessageBytes(d, m, 0) == MessageBytes(d, m, 0);
  }
}
