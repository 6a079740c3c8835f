/** Whole runs of a cByteBuffer: it is a bounded byte queue with a cursor that can be wound back. */
module RingBufferRuns {
  import opened Bytes
  import opened RingBuffers

  datatype Op = Write(data: bytes) | Read(count: nat) | Skip(count: nat) | ReadAll | ReadAgain | Commit | Reset

  /** The operation on the abstract queue, and the bytes it hands out. */
  function OnQueue(q: Queue, op: Op): (r: (Queue, bytes))
    requires q.cursor <= |q.data| <= q.capacity
    ensures r.0.cursor <= |r.0.data| <= r.0.capacity == q.capacity
  {
    match op
    case Write(data) => (if |q.data| + |data| <= q.capacity then q.(data := q.data + data) else q, [])
    case Read(n) => if n <= |q.Unread()| then (q.(cursor := q.cursor + n), q.Unread()[..n]) else (q, [])
    case Skip(n) => (if n <= |q.Unread()| then q.(cursor := q.cursor + n) else q, [])
    case ReadAll => (q.(cursor := |q.data|), q.Unread())
    case ReadAgain => (q, q.data[..q.cursor])
    case Commit => (Queue(q.Unread(), 0, q.capacity), [])
    case Reset => (q.(cursor := 0), [])
  }

  function RunOnQueue(q: Queue, ops: seq<Op>): (r: (Queue, seq<bytes>))
    requires q.cursor <= |q.data| <= q.capacity
    ensures r.0.cursor <= |r.0.data| <= r.0.capacity
    decreases ops
  {
    if ops == [] then (q, [])
    else
      var step := OnQueue(q, ops[0]);
      var rest := RunOnQueue(step.0, ops[1..]);
      (rest.0, [step.1] + rest.1)
  }

  method Apply(buf: ByteBuffer, op: Op) returns (out: bytes)
    requires buf.Valid()
    modifies buf, buf.buffer
    ensures buf.Valid()
    ensures buf.Model() == OnQueue(old(buf.Model()), op).0 && out == OnQueue(old(buf.Model()), op).1
  {
    out := [];
    match op {
      case Write(data) => var ok := buf.Write(data);
      case Read(n) => var ok; ok, out := buf.Read(n);
      case Skip(n) => var ok := buf.SkipRead(n);
      case ReadAll => out := buf.ReadAll();
      case ReadAgain => out := buf.ReadAgain([]);
      case Commit => buf.CommitRead();
      case Reset => buf.ResetRead();
    }
  }

  /** Every run of the ring is the run of the queue. */
  method Run(buf: ByteBuffer, ops: seq<Op>) returns (outs: seq<bytes>)
    requires buf.Valid()
    modifies buf, buf.buffer
    ensures buf.Valid()
    ensures buf.Model() == RunOnQueue(old(buf.Model()), ops).0 && outs == RunOnQueue(old(buf.Model()), ops).1
  {
    outs := [];
    ghost var start := buf.Model();
    assert ops[0..] == ops;
    for i := 0 to |ops|
      invariant buf.Valid()
      invariant var rest := RunOnQueue(buf.Model(), ops[i..]);
                RunOnQueue(start, ops).0 == rest.0 && RunOnQueue(start, ops).1 == outs + rest.1
    {
      assert ops[i..][1..] == ops[i + 1..];
      ghost var step := OnQueue(buf.Model(), ops[i]);
      ghost var later := RunOnQueue(step.0, ops[i + 1..]).1;
      var out := Apply(buf, ops[i]);
      assert outs + ([out] + later) == outs + [out] + later;
      outs := outs + [out];
    }
    assert ops[|ops|..] == [];
  }

  /** The bytes an operation takes in, gives up for good, and hands to the reader. */
  function AcceptedBy(q: Queue, op: Op): bytes {
    if op.Write? && |q.data| + |op.data| <= q.capacity then op.data else []
  }

  function CommittedBy(q: Queue, op: Op): bytes
    requires q.cursor <= |q.data|
  {
    if op.Commit? then q.data[..q.cursor] else []
  }

  function ReadBy(q: Queue, op: Op): bytes
    requires q.cursor <= |q.data| <= q.capacity
  {
    if op.Read? || op.ReadAll? then OnQueue(q, op).1 else []
  }

  /** The same over a whole run. */
  function Accepted(q: Queue, ops: seq<Op>): bytes
    requires q.cursor <= |q.data| <= q.capacity
    decreases ops
  {
    if ops == [] then [] else AcceptedBy(q, ops[0]) + Accepted(OnQueue(q, ops[0]).0, ops[1..])
  }

  function Committed(q: Queue, ops: seq<Op>): bytes
    requires q.cursor <= |q.data| <= q.capacity
    decreases ops
  {
    if ops == [] then [] else CommittedBy(q, ops[0]) + Committed(OnQueue(q, ops[0]).0, ops[1..])
  }

  function Reads(q: Queue, ops: seq<Op>): bytes
    requires q.cursor <= |q.data| <= q.capacity
    decreases ops
  {
    if ops == [] then [] else ReadBy(q, ops[0]) + Reads(OnQueue(q, ops[0]).0, ops[1..])
  }

  lemma {:induction false} StepBalance(q: Queue, op: Op)
    requires q.cursor <= |q.data| <= q.capacity
    ensures q.data + AcceptedBy(q, op) == CommittedBy(q, op) + OnQueue(q, op).0.data
    ensures !op.Skip? && !op.Reset? ==> q.Unread() + AcceptedBy(q, op) == ReadBy(q, op) + OnQueue(q, op).0.Unread()
  {
  }

  /** Conservation: what was there and what was accepted is what was committed and what is there. */
  lemma {:induction false} Conserved(q: Queue, ops: seq<Op>)
    requires q.cursor <= |q.data| <= q.capacity
    ensures q.data + Accepted(q, ops) == Committed(q, ops) + RunOnQueue(q, ops).0.data
    decreases ops
  {
    if ops != [] {
      var q', later := OnQueue(q, ops[0]).0, ops[1..];
      StepBalance(q, ops[0]);
      Conserved(q', later);
      BalanceChain(q.data, AcceptedBy(q, ops[0]), Accepted(q', later), CommittedBy(q, ops[0]), q'.data,
                   Committed(q', later), RunOnQueue(q', later).0.data);
    }
  }

  /** Without skips and resets, the reader gets the bytes in the order they were written, each once. */
  lemma {:induction false} ReadsInOrder(q: Queue, ops: seq<Op>)
    requires q.cursor <= |q.data| <= q.capacity
    requires forall i :: 0 <= i < |ops| ==> !ops[i].Skip? && !ops[i].Reset?
    ensures q.Unread() + Accepted(q, ops) == Reads(q, ops) + RunOnQueue(q, ops).0.Unread()
    decreases ops
  {
    if ops != [] {
      var q', later := OnQueue(q, ops[0]).0, ops[1..];
      StepBalance(q, ops[0]);
      ReadsInOrder(q', later);
      BalanceChain(q.Unread(), AcceptedBy(q, ops[0]), Accepted(q', later), ReadBy(q, ops[0]), q'.Unread(),
                   Reads(q', later), RunOnQueue(q', later).0.Unread());
    }
  }
}
