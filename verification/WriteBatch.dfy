/**
 * Write batches: a header of sequence number and count, then the operations
 * (db/write_batch.cc).
 */
module WriteBatch {
  import opened DbFormat
  import opened Coding

  /** A put, or a deletion when there is no value. */
  datatype Op = Op(key: Bytes, value: Option<Bytes>)

  const TYPE_DELETION: byte := 0
  const TYPE_VALUE: byte := 1

  const HEADER := 12

  function OpBytes(op: Op): Bytes {
    match op.value
    case None => [TYPE_DELETION] + Prefixed(op.key)
    case Some(v) => [TYPE_VALUE] + Prefixed(op.key) + Prefixed(v)
  }

  function OpsBytes(ops: seq<Op>): Bytes {
    if ops == [] then [] else OpBytes(ops[0]) + OpsBytes(ops[1..])
  }

  lemma {:induction false} OpsBytesAppend(a: seq<Op>, b: seq<Op>)
    ensures OpsBytes(a + b) == OpsBytes(a) + OpsBytes(b)
  {
    hide OpBytes;
    if a == [] {
      assert a + b == b;
    } else {
      assert (a + b)[1..] == a[1..] + b;
      OpsBytesAppend(a[1..], b);
    }
  }

  lemma OpsBytesOne(ops: seq<Op>, op: Op)
    ensures OpsBytes(ops + [op]) == OpsBytes(ops) + OpBytes(op)
  {
    hide OpBytes;
    OpsBytesAppend(ops, [op]);
  }

  class Batch {
    var rep: Bytes
    ghost var ops: seq<Op>

    ghost predicate Valid()
      reads this
    {
      |rep| >= HEADER && |ops| < WORD && Count() == |ops| && rep[HEADER..] == OpsBytes(ops)
    }

    function Count(): nat
      reads this
      requires |rep| >= HEADER
    {
      DecodeFixed32(rep[8..12])
    }

    constructor ()
      ensures Valid() && ops == []
    {
      rep, ops := seq(12, i => 0), [];
    }

    /** Overwrites the count in the header. */
    method SetCount(n: nat)
      requires |rep| >= HEADER && n < WORD
      modifies this`rep
      ensures |rep| == |old(rep)| && Count() == n && rep[HEADER..] == old(rep[HEADER..]) && rep[..8] == old(rep[..8])
    {
      hide Fixed32, DecodeFixed32;
      rep := rep[..8] + Fixed32(n) + rep[12..];
      Fixed32RoundTrip(n);
    }

    method Put(key: Bytes, value: Bytes)
      requires Valid() && |ops| + 1 < WORD
      modifies this
      ensures Valid() && ops == old(ops) + [Op(key, Some(value))]
    {
      AddOp(Op(key, Some(value)));
    }

    method Delete(key: Bytes)
      requires Valid() && |ops| + 1 < WORD
      modifies this
      ensures Valid() && ops == old(ops) + [Op(key, None)]
    {
      AddOp(Op(key, None));
    }

    method AddOp(op: Op)
      requires Valid() && |ops| + 1 < WORD
      modifies this
      ensures Valid() && ops == old(ops) + [op]
    {
      hide Fixed32, DecodeFixed32, OpsBytes;
      SetCount(Count() + 1);
      var body := match op.value
        case None => [TYPE_DELETION] + Prefixed(op.key)
        case Some(v) => [TYPE_VALUE] + Prefixed(op.key) + Prefixed(v);
      OpsBytesOne(ops, op);
      assert (rep + body)[8..12] == rep[8..12];
      rep := rep + body;
      ops := ops + [op];
    }

    /** Appends another batch: the counts add up and the operations follow. */
    method Append(src: Batch)
      requires Valid() && src.Valid() && src != this && |ops| + |src.ops| < WORD
      modifies this
      ensures Valid() && ops == old(ops) + src.ops
    {
      hide Fixed32, DecodeFixed32, OpsBytes;
      SetCount(Count() + src.Count());
      var body := src.rep[HEADER..];
      OpsBytesAppend(ops, src.ops);
      assert (rep + body)[8..12] == rep[8..12];
      rep := rep + body;
      ops := ops + src.ops;
    }
  }

  /** The input starts with an operation: its type, its key and, of a put, its value. */
  ghost predicate ReadsOp(input: Bytes, op: Op, rest: Bytes) {
    && input != []
    && match op.value
       case None => input[0] == 0 && ReadsSlice(input[1..], op.key, rest)
       case Some(v) => input[0] == 1 && exists mid :: ReadsSlice(input[1..], op.key, mid) && ReadsSlice(mid, v, rest)
  }

  /** The input is a list of operations and nothing else. */
  ghost predicate ReadsOps(input: Bytes, ops: seq<Op>)
    decreases |ops|
  {
    if ops == [] then input == [] else exists rest :: ReadsOp(input, ops[0], rest) && ReadsOps(rest, ops[1..])
  }

  /** The lists an input can be read as, after its first operations. */
  ghost predicate ReadsOn(input: Bytes, out: seq<Op>, rest: Bytes) {
    forall ops :: ReadsOps(input, ops) <==> out <= ops && ReadsOps(rest, ops[|out|..])
  }

  lemma ReadsStart(input: Bytes)
    ensures ReadsOn(input, [], input)
  {
    hide ReadsOps;
    forall ops ensures ReadsOps(input, ops) <==> [] <= ops && ReadsOps(input, ops[0..]) {
      assert ops[0..] == ops;
    }
  }

  lemma ReadsNext(input: Bytes, out: seq<Op>, mid: Bytes, op: Op, rest: Bytes)
    requires ReadsOn(input, out, mid) && mid != []
    requires forall x, r :: ReadsOp(mid, x, r) <==> x == op && r == rest
    ensures ReadsOn(input, out + [op], rest)
  {
    hide ReadsOp;
    var more := out + [op];
    forall ops ensures ReadsOps(input, ops) <==> more <= ops && ReadsOps(rest, ops[|more|..]) {
      if out <= ops && |out| < |ops| {
        var left := ops[|out|..];
        assert left[1..] == ops[|more|..];
        assert ReadsOps(mid, left) <==> left[0] == op && ReadsOps(rest, left[1..]);
        assert more <= ops <==> left[0] == op;
      }
    }
  }

  lemma ReadsStuck(input: Bytes, out: seq<Op>, mid: Bytes, ops: seq<Op>)
    requires ReadsOn(input, out, mid) && mid != [] && forall x, r :: !ReadsOp(mid, x, r)
    ensures !ReadsOps(input, ops)
  {
    hide ReadsOp;
  }

  lemma ReadsEnd(input: Bytes, out: seq<Op>, ops: seq<Op>)
    requires ReadsOn(input, out, [])
    ensures ReadsOps(input, ops) <==> ops == out
  {
    if out <= ops && ReadsOps([], ops[|out|..]) {
      assert ops == out + ops[|out|..];
    }
    assert out[|out|..] == [];
  }

  /**
   * WriteBatch::Iterate hands out exactly the operations of a batch, in order.  Of
   * any other bytes it makes the one list they can be read as, if there is one and
   * it is as long as the count says.
   */
  method Iterate(rep: Bytes, ghost ops: seq<Op>) returns (ok: bool, out: seq<Op>)
    ensures HEADER <= |rep| < WORD && rep[HEADER..] == OpsBytes(ops) && DecodeFixed32(rep[8..12]) == |ops| ==>
              ok && out == ops
    ensures ok ==> |rep| >= HEADER && |out| == DecodeFixed32(rep[8..12]) && ReadsOps(rep[HEADER..], out)
    ensures forall xs :: |rep| >= HEADER && ReadsOps(rep[HEADER..], xs) && |xs| == DecodeFixed32(rep[8..12]) ==>
                           ok && out == xs
  {
    hide ReadsOps, ReadsOp, ReadsOn, DecodeFixed32, OpsBytes, OpBytes;
    out := [];
    assert ops[0..] == ops;
    if |rep| < HEADER {
      return false, out;
    }
    ghost var good := |rep| < WORD && rep[HEADER..] == OpsBytes(ops) && DecodeFixed32(rep[8..12]) == |ops|;
    var input := rep[HEADER..];
    ReadsStart(input);
    while input != []
      invariant |input| <= |rep| && ReadsOn(rep[HEADER..], out, input)
      invariant good ==> |out| <= |ops| && out == ops[..|out|] && input == OpsBytes(ops[|out|..])
      decreases |input|
    {
      ghost var op := Op([], None);
      ghost var tail: Bytes := [];
      if good {
        op, tail := FirstOp(ops, |out|);
      }
      var ok1, got, rest := ParseOp(input, op, tail);
      if !ok1 {
        forall xs ensures !ReadsOps(rep[HEADER..], xs) { ReadsStuck(rep[HEADER..], out, input, xs); }
        return false, out;
      }
      ReadsNext(rep[HEADER..], out, input, got, rest);
      out, input := out + [got], rest;
    }
    forall xs ensures ReadsOps(rep[HEADER..], xs) <==> xs == out { ReadsEnd(rep[HEADER..], out, xs); }
    if good { EmptyOps(ops[|out|..]); }
    ok := |out| == DecodeFixed32(rep[8..12]);
  }

  lemma FirstOp(ops: seq<Op>, k: nat) returns (op: Op, tail: Bytes)
    requires k <= |ops| && OpsBytes(ops[k..]) != []
    ensures k < |ops| && op == ops[k] && tail == OpsBytes(ops[k + 1..]) && OpsBytes(ops[k..]) == OpBytes(op) + tail
  {
    assert ops[k..] != [];
    op, tail := ops[k], OpsBytes(ops[k + 1..]);
    assert ops[k..][1..] == ops[k + 1..];
  }

  lemma EmptyOps(ops: seq<Op>)
    requires OpsBytes(ops) == []
    ensures ops == []
  {
  }

  method ParseOp(input: Bytes, ghost op: Op, ghost tail: Bytes) returns (ok: bool, got: Op, rest: Bytes)
    requires input != []
    ensures ok ==> |rest| < |input|
    ensures |input| < WORD && input == OpBytes(op) + tail ==> ok && got == op && rest == tail
    ensures forall x, r :: ReadsOp(input, x, r) <==> ok && x == got && r == rest
  {
    hide Prefixed, ReadsSlice;
    var body := input[1..];
    got, rest := Op([], None), input;
    ghost var second := if op.value.Some? then Prefixed(op.value.value) + tail else tail;
    if input == OpBytes(op) + tail {
      assert input[1..] == Prefixed(op.key) + second;
    }
    if input[0] == TYPE_VALUE {
      var ok1, key, after := GetPrefixed(body, op.key, second);
      if !ok1 { return false, got, rest; }
      var ok2, value, after2 := GetPrefixed(after, if op.value.Some? then op.value.value else [], tail);
      if !ok2 { return false, got, rest; }
      return true, Op(key, Some(value)), after2;
    } else if input[0] == TYPE_DELETION {
      var ok1, key, after := GetPrefixed(body, op.key, second);
      if !ok1 { return false, got, rest; }
      return true, Op(key, None), after;
    }
    ok := false;
  }
}
