/**
 Write batches: an eight-byte sequence number, a four-byte count and the operations, all in
 one string. Iterating over a batch that was built delivers exactly its operations.
 */
module WriteBatches {
  import opened Entries
  import opened Coding

  datatype Op = PutOp(key: Bytes, value: Bytes) | DeleteOp(key: Bytes)

  const HEADER: nat := 12
  const TYPE_DELETION := 0
  const TYPE_VALUE := 1

  predicate OpOk(op: Op) {
    |op.key| < TWO_32 && (op.PutOp? ==> |op.value| < TWO_32)
  }

  function OpBytes(op: Op): Bytes {
    match op
    case PutOp(key, value) => [TYPE_VALUE] + (Prefixed(key) + Prefixed(value))
    case DeleteOp(key) => [TYPE_DELETION] + Prefixed(key)
  }

  function OpsBytes(ops: seq<Op>): Bytes {
    if ops == [] then [] else OpBytes(ops[0]) + OpsBytes(ops[1..])
  }

  function Rep(sequence: nat, count: nat, ops: seq<Op>): (r: Bytes)
    ensures |r| >= HEADER
  {
    Fixed(sequence, 8) + Fixed(count, 4) + OpsBytes(ops)
  }

  lemma {:induction false} OpsAppend(a: seq<Op>, b: seq<Op>)
    ensures OpsBytes(a + b) == OpsBytes(a) + OpsBytes(b)
  {
    hide OpBytes;
    if a == [] {
      assert a + b == b;
    } else {
      assert (a + b)[1..] == a[1..] + b;
      OpsAppend(a[1..], b);
      assert OpBytes(a[0]) + (OpsBytes(a[1..]) + OpsBytes(b)) == OpBytes(a[0]) + OpsBytes(a[1..]) + OpsBytes(b);
    }
  }

  // -------------------------------------------------------------- iteration, over any string

  /** One operation at the front of the input and its length. */
  function GetOp(input: Bytes): (r: Option<(Op, nat)>)
    requires input != []
    ensures r.Some? ==> 0 < r.value.1 <= |input|
  {
    var rest := input[1..];
    if input[0] == TYPE_VALUE then
      match GetPrefixed(rest)
      case None => None
      case Some(k) =>
        match GetPrefixed(rest[k.1..])
        case None => None
        case Some(v) => Some((PutOp(k.0, v.0), 1 + k.1 + v.1))
    else if input[0] == TYPE_DELETION then
      match GetPrefixed(rest)
      case None => None
      case Some(k) => Some((DeleteOp(k.0), 1 + k.1))
    else None
  }

  /** The operations the handler gets, and whether the input ended well. */
  function Scan(input: Bytes): (seq<Op>, bool)
    decreases |input|
  {
    if input == [] then ([], true)
    else
      match GetOp(input)
      case None => ([], false)
      case Some(p) =>
        var (ops, ok) := Scan(input[p.1..]);
        ([p.0] + ops, ok)
  }

  /** Iterate: operations are delivered before an error, or a wrong count, is noticed. */
  function Iterated(rep: Bytes): (seq<Op>, bool) {
    if |rep| < HEADER then ([], false)
    else
      var (ops, ok) := Scan(rep[HEADER..]);
      (ops, ok && |ops| == DecodeFixed32(rep[8..12]))
  }

  lemma OpRound(op: Op, rest: Bytes)
    requires OpOk(op)
    ensures GetOp(OpBytes(op) + rest) == Some((op, |OpBytes(op)|))
  {
    hide Prefixed, GetPrefixed;
    var input := OpBytes(op) + rest;
    match op
    case PutOp(key, value) =>
      var k, v := Prefixed(key), Prefixed(value);
      assert input[1..] == k + (v + rest);
      PrefixedRound(key, v + rest);
      assert (k + (v + rest))[|k|..] == v + rest;
      PrefixedRound(value, rest);
    case DeleteOp(key) =>
      assert input[1..] == Prefixed(key) + rest;
      PrefixedRound(key, rest);
  }

  lemma {:induction false} ScanOps(ops: seq<Op>)
    requires forall op | op in ops :: OpOk(op)
    ensures Scan(OpsBytes(ops)) == (ops, true)
  {
    hide OpBytes, GetOp, OpOk;
    if ops != [] {
      var head, tail := OpBytes(ops[0]), OpsBytes(ops[1..]);
      assert ops[0] in ops;
      OpRound(ops[0], tail);
      OpNotEmpty(ops[0]);
      ScanOps(ops[1..]);
      assert (head + tail)[|head|..] == tail && [ops[0]] + ops[1..] == ops;
    }
  }

  lemma OpNotEmpty(op: Op)
    ensures OpBytes(op) != []
  {
  }

  /** A batch that was built iterates as its operations, in order, and its header reads back. */
  lemma BatchRoundTrip(sequence: Word64, ops: seq<Op>)
    requires |ops| < TWO_32 && forall op | op in ops :: OpOk(op)
    ensures
      var rep := Rep(sequence, |ops|, ops);
      Iterated(rep) == (ops, true) && DecodeFixed64(rep[..8]) == sequence
  {
    hide OpsBytes, Scan, Fixed, DecodeFixed32, DecodeFixed64, OpOk;
    var rep := Rep(sequence, |ops|, ops);
    assert rep[..8] == Fixed(sequence, 8) && rep[8..12] == Fixed(|ops|, 4) && rep[HEADER..] == OpsBytes(ops);
    Fixed64Round(sequence);
    Fixed32Round(|ops|);
    ScanOps(ops);
  }

  // -------------------------------------------------------------- the batch

  /** The i-th operation goes in at the i-th number from the batch's sequence. */
  function Numbered(sequence: nat, ops: seq<Op>): (r: seq<(nat, Op)>)
    ensures |r| == |ops| && forall i | 0 <= i < |ops| :: r[i] == (sequence + i, ops[i])
  {
    seq(|ops|, i requires 0 <= i < |ops| => (sequence + i, ops[i]))
  }

  class WriteBatch {
    var rep: Bytes
    ghost var sequence: nat
    ghost var ops: seq<Op>

    ghost predicate Valid()
      reads this
    {
      && sequence < TWO_64 && |ops| < TWO_32 && rep == Rep(sequence, |ops|, ops)
      && forall op | op in ops :: OpOk(op)
    }

    constructor ()
      ensures Valid() && ops == [] && sequence == 0
    {
      rep, sequence, ops := seq(HEADER, _ => 0), 0, [];
      new;
      EmptyRep();
      assert rep == Rep(0, 0, []);
    }

    method Put(key: Bytes, value: Bytes)
      requires Valid() && |ops| + 1 < TWO_32 && OpOk(PutOp(key, value))
      modifies this
      ensures Valid() && ops == old(ops) + [PutOp(key, value)] && sequence == old(sequence)
    {
      hide Prefixed, OpOk, Rep;
      ghost var op := PutOp(key, value);
      BumpCount(1);
      rep := rep + [TYPE_VALUE];
      rep := rep + Prefixed(key);
      rep := rep + Prefixed(value);
      RepAppend(sequence, |ops| + 1, ops, op);
      Regrouped(Rep(sequence, |ops| + 1, ops), [TYPE_VALUE], Prefixed(key), Prefixed(value));
      ops := ops + [op];
    }

    method Delete(key: Bytes)
      requires Valid() && |ops| + 1 < TWO_32 && OpOk(DeleteOp(key))
      modifies this
      ensures Valid() && ops == old(ops) + [DeleteOp(key)] && sequence == old(sequence)
    {
      hide Prefixed, OpOk, Rep;
      ghost var op := DeleteOp(key);
      BumpCount(1);
      rep := rep + [TYPE_DELETION];
      rep := rep + Prefixed(key);
      RepAppend(sequence, |ops| + 1, ops, op);
      Regrouped(Rep(sequence, |ops| + 1, ops), [TYPE_DELETION], Prefixed(key), []);
      assert Prefixed(key) + [] == Prefixed(key) && rep + [] == rep;
      ops := ops + [op];
    }

    /** SetCount(Count() + n) */
    method BumpCount(n: nat)
      requires Valid() && |ops| + n < TWO_32
      modifies this`rep
      ensures rep == Rep(sequence, |ops| + n, ops)
    {
      hide Fixed, DecodeFixed32, OpsBytes;
      assert rep[8..12] == Fixed(|ops|, 4);
      Fixed32Round(|ops|);
      rep := rep[..8] + Fixed(DecodeFixed32(rep[8..12]) + n, 4) + rep[12..];
    }

    method SetSequence(s: Word64)
      requires Valid()
      modifies this
      ensures Valid() && sequence == s && ops == old(ops)
    {
      hide Fixed, OpsBytes;
      rep := Fixed(s, 8) + rep[8..];
      sequence := s;
    }

    /** The source's operations behind this batch's own. */
    method Append(src: WriteBatch)
      requires Valid() && src.Valid() && src != this && |ops| + |src.ops| < TWO_32
      modifies this
      ensures Valid() && ops == old(ops) + src.ops && sequence == old(sequence)
    {
      hide Fixed, OpsBytes, DecodeFixed32, OpOk;
      assert src.rep[8..12] == Fixed(|src.ops|, 4);
      Fixed32Round(|src.ops|);
      BumpCount(DecodeFixed32(src.rep[8..12]));
      assert src.rep[HEADER..] == OpsBytes(src.ops);
      OpsAppend(ops, src.ops);
      rep := rep + src.rep[HEADER..];
      ops := ops + src.ops;
    }

    /** InsertInto: what reaches the memtable, with its sequence numbers. */
    method InsertInto() returns (inserted: seq<(nat, Op)>, ok: bool)
      requires Valid()
      ensures ok && inserted == Numbered(sequence, ops)
    {
      hide Scan, Rep, DecodeFixed32, DecodeFixed64, OpOk, GetOp;
      BatchRoundTrip(sequence, ops);
      var s: nat := DecodeFixed64(rep[..8]);
      inserted, ok := Iterate(rep, s);
    }
  }

  /** Iterate over any string, with a handler that numbers what it gets from `s` on. */
  method Iterate(rep: Bytes, s: nat) returns (inserted: seq<(nat, Op)>, ok: bool)
    ensures (inserted, ok) == (Numbered(s, Iterated(rep).0), Iterated(rep).1)
  {
    hide GetOp;
    inserted := [];
    if |rep| < HEADER {
      return inserted, false;
    }
    var input, found := rep[HEADER..], 0;
    ghost var done: seq<Op> := [];
    ghost var all := Scan(input);
    assert [] + all.0 == all.0;
    while input != []
      invariant found == |inserted| == |done| && inserted == Numbered(s, done)
      invariant (done + Scan(input).0, Scan(input).1) == all
      decreases |input|
    {
      var op := GetOp(input);
      if op.None? {
        assert done + [] == done;
        return inserted, false;
      }
      assert done + ([op.value.0] + Scan(input[op.value.1..]).0) == done + [op.value.0] + Scan(input[op.value.1..]).0;
      inserted := inserted + [(s + found, op.value.0)];
      done := done + [op.value.0];
      found := found + 1;
      input := input[op.value.1..];
    }
    assert done + [] == done;
    ok := found == DecodeFixed32(rep[8..12]);
  }

  lemma Regrouped(a: Bytes, b: Bytes, c: Bytes, d: Bytes)
    ensures a + b + c + d == a + (b + (c + d))
  {
  }

  lemma RepAppend(sequence: nat, count: nat, ops: seq<Op>, op: Op)
    ensures Rep(sequence, count, ops + [op]) == Rep(sequence, count, ops) + OpBytes(op)
  {
    hide OpBytes, Fixed;
    OpsAppend(ops, [op]);
    assert [op][1..] == [];
    assert OpsBytes([op]) == OpBytes(op) + [] == OpBytes(op);
  }

  lemma {:induction false} ZeroBytes(n: nat)
    ensures Fixed(0, n) == seq(n, _ => 0)
    decreases n
  {
    if n > 0 {
      ZeroBytes(n - 1);
    }
  }

  lemma EmptyRep()
    ensures Rep(0, 0, []) == seq(HEADER, _ => 0)
  {
    ZeroBytes(8);
    ZeroBytes(4);
  }
}
