/** Exactly-once forwarding: bytes may be pushed back and read again any number of times, but each
    byte that arrived is copied once, in order. */
module Forwarding {
  import opened Bytes
  import opened Buffers
  import opened ParserUtils

  /** What happens to an input buffer: a fragment arrives, a byte is read and copied, or an empty
      buffer gets a text to be read again. */
  datatype Op = Arrive(bytes: string) | CopyByte | GiveBack(text: string)

  function After(q: Queue, op: Op): Queue {
    match op
    case Arrive(bytes) => q.Push(bytes)
    case CopyByte => if q.Empty() then q else q.Tail()
    case GiveBack(text) => if q.Empty() then Queue(text, "") else q
  }

  function Copied(q: Queue, op: Op): string {
    if op == CopyByte && !q.Empty() then q.Loud() else ""
  }

  function Arrived(ops: seq<Op>): string {
    if ops == [] then "" else (if ops[0].Arrive? then ops[0].bytes else "") + Arrived(ops[1..])
  }

  function AfterAll(q: Queue, ops: seq<Op>): Queue
    decreases |ops|
  {
    if ops == [] then q else AfterAll(After(q, ops[0]), ops[1..])
  }

  function CopiedAll(q: Queue, ops: seq<Op>): string
    decreases |ops|
  {
    if ops == [] then "" else Copied(q, ops[0]) + CopiedAll(After(q, ops[0]), ops[1..])
  }

  lemma OneStep(q: Queue, op: Op)
    ensures Copied(q, op) + After(q, op).wire == q.wire + (if op.Arrive? then op.bytes else "")
  {
    assert q.wire + "" == q.wire && "" + q.wire == q.wire;
  }

  /** What was copied, and what is still fresh, is what was fresh and what arrived. */
  lemma {:induction false} ExactlyOnce(q: Queue, ops: seq<Op>)
    ensures CopiedAll(q, ops) + AfterAll(q, ops).wire == q.wire + Arrived(ops)
    decreases |ops|
  {
    if ops != [] {
      var op, next := ops[0], After(q, ops[0]);
      ExactlyOnce(next, ops[1..]);
      OneStep(q, op);
      hide After, Copied;
      var bytes := if op.Arrive? then op.bytes else "";
      AppendAppend(Copied(q, op), CopiedAll(next, ops[1..]), AfterAll(next, ops[1..]).wire);
      AppendAppend(Copied(q, op), next.wire, Arrived(ops[1..]));
      AppendAppend(q.wire, bytes, Arrived(ops[1..]));
    }
  }

  /** One of them on the buffers of the source. */
  method Perform(op: Op, b: Buffer, bOut: Buffer)
    requires b.Valid() && bOut.Valid() && Apart(b, bOut)
    requires op.Arrive? ==> |op.bytes| <= b.limit - b.write
    requires op.GiveBack? ==> |op.text| <= b.infLimit
    modifies b, b.data, bOut, bOut.data
    ensures b.Valid() && bOut.Valid()
    ensures b.pending == After(old(b.pending), op) && bOut.offered == old(bOut.offered) + Copied(old(b.pending), op)
    ensures b.write <= old(b.write) + if op.Arrive? then |op.bytes| else 0
  {
    hide Buffer.Shape;
    match op {
      case Arrive(bytes) => b.Fill(bytes);
      case CopyByte =>
        var _, _ := ReadAndWriteWithZero(b, bOut);
      case GiveBack(text) =>
        if !b.CanRead() {
          b.EmptyAtLimit();
          WriteToBufReverse(text, b, |text|);
        }
    }
  }

  /** The same over the buffers of the source, as long as there is room. */
  method Interleave(ops: seq<Op>, b: Buffer, bOut: Buffer)
    requires b.Valid() && bOut.Valid() && Apart(b, bOut)
    requires |Arrived(ops)| <= b.limit - b.write
    requires forall op :: op in ops && op.GiveBack? ==> |op.text| <= b.infLimit
    modifies b, b.data, bOut, bOut.data
    ensures b.Valid() && bOut.Valid()
    ensures b.pending == AfterAll(old(b.pending), ops)
    ensures bOut.offered == old(bOut.offered) + CopiedAll(old(b.pending), ops)
  {
    hide Buffer.Shape;
    ghost var q, out := b.pending, bOut.offered;
    var i := 0;
    assert ops[0..] == ops;
    while i < |ops|
      invariant 0 <= i <= |ops| && b.Valid() && bOut.Valid()
      invariant |Arrived(ops[i..])| <= b.limit - b.write
      invariant AfterAll(b.pending, ops[i..]) == AfterAll(q, ops)
      invariant bOut.offered + CopiedAll(b.pending, ops[i..]) == out + CopiedAll(q, ops)
    {
      assert ops[i..][1..] == ops[i + 1..] && ops[i..][0] == ops[i];
      ghost var out0, next := bOut.offered, After(b.pending, ops[i]);
      ghost var done := Copied(b.pending, ops[i]);
      AppendAppend(out0, done, CopiedAll(next, ops[i + 1..]));
      Perform(ops[i], b, bOut);
      i := i + 1;
    }
  }
}
