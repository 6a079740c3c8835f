/** Whole runs of two cByteBuffers with ReadToByteBuffer between them. */
module RingBufferPairs {
  import opened Bytes
  import opened RingBuffers
  import opened RingBufferRuns

  datatype PairOp = On(first: bool, op: Op) | Move(toFirst: bool, count: nat)

  datatype Pair = Pair(a: Queue, b: Queue) {
    predicate Ok() {
      a.cursor <= |a.data| <= a.capacity && b.cursor <= |b.data| <= b.capacity
    }
  }

  /** ReadToByteBuffer on two abstract queues: all of the bytes or none. */
  function Moved(src: Queue, dst: Queue, n: nat): (Queue, Queue)
    requires src.cursor <= |src.data|
  {
    if n <= |src.Unread()| && |dst.data| + n <= dst.capacity
    then (src.(cursor := src.cursor + n), dst.(data := dst.data + src.Unread()[..n])) else (src, dst)
  }

  function OnPair(p: Pair, op: PairOp): (r: (Pair, bytes))
    requires p.Ok()
    ensures r.0.Ok()
  {
    match op
    case On(first, o) =>
      var r := OnQueue(if first then p.a else p.b, o);
      (if first then p.(a := r.0) else p.(b := r.0), r.1)
    case Move(toFirst, n) =>
      if toFirst then (var r := Moved(p.b, p.a, n); (Pair(r.1, r.0), []))
      else (var r := Moved(p.a, p.b, n); (Pair(r.0, r.1), []))
  }

  function RunOnPair(p: Pair, ops: seq<PairOp>): (r: (Pair, seq<bytes>))
    requires p.Ok()
    ensures r.0.Ok()
    decreases ops
  {
    if ops == [] then (p, [])
    else
      var step := OnPair(p, ops[0]);
      var rest := RunOnPair(step.0, ops[1..]);
      (rest.0, [step.1] + rest.1)
  }

  ghost predicate Sound(a: ByteBuffer, b: ByteBuffer)
    reads a, b
  {
    a.Valid() && b.Valid() && a != b && a.buffer != b.buffer
  }

  ghost function Models(a: ByteBuffer, b: ByteBuffer): Pair
    requires Sound(a, b)
    reads a, b, a.buffer, b.buffer
  {
    Pair(a.Model(), b.Model())
  }

  method ApplyBoth(a: ByteBuffer, b: ByteBuffer, op: PairOp) returns (out: bytes)
    requires Sound(a, b)
    modifies a, b, a.buffer, b.buffer
    ensures Sound(a, b)
    ensures var want := OnPair(old(Models(a, b)), op);
            a.Model() == want.0.a && b.Model() == want.0.b && out == want.1
  {
    out := [];
    if op.On? {
      if op.first {
        out := Apply(a, op.op);
      } else {
        out := Apply(b, op.op);
      }
    } else if op.toFirst {
      var ok := b.ReadToByteBuffer(a, op.count);
    } else {
      var ok := a.ReadToByteBuffer(b, op.count);
    }
  }

  /** Every run of the two rings is the run of the two queues. */
  method RunBoth(a: ByteBuffer, b: ByteBuffer, ops: seq<PairOp>) returns (outs: seq<bytes>)
    requires Sound(a, b)
    modifies a, b, a.buffer, b.buffer
    ensures Sound(a, b)
    ensures var want := RunOnPair(old(Models(a, b)), ops);
            a.Model() == want.0.a && b.Model() == want.0.b && outs == want.1
  {
    outs := [];
    ghost var start := Models(a, b);
    assert ops[0..] == ops;
    for i := 0 to |ops|
      invariant Sound(a, b) && Continues(start, ops, outs, Models(a, b), ops[i..])
    {
      ghost var now := Models(a, b);
      assert ops[i..][1..] == ops[i + 1..];
      var out := ApplyBoth(a, b, ops[i]);
      NextContinues(start, ops, outs, now, ops[i..], out);
      outs := outs + [out];
    }
    assert ops[|ops|..] == [];
  }

  /** The rest of the run, from here, makes the whole run. */
  ghost predicate Continues(start: Pair, ops: seq<PairOp>, outs: seq<bytes>, now: Pair, rest: seq<PairOp>) {
    && start.Ok() && now.Ok()
    && RunOnPair(start, ops).0 == RunOnPair(now, rest).0
    && RunOnPair(start, ops).1 == outs + RunOnPair(now, rest).1
  }

  lemma {:induction false} NextContinues(start: Pair, ops: seq<PairOp>, outs: seq<bytes>, now: Pair,
                                         rest: seq<PairOp>, out: bytes)
    requires rest != [] && Continues(start, ops, outs, now, rest) && out == OnPair(now, rest[0]).1
    ensures Continues(start, ops, outs + [out], OnPair(now, rest[0]).0, rest[1..])
  {
    var later := RunOnPair(OnPair(now, rest[0]).0, rest[1..]).1;
    assert outs + ([out] + later) == (outs + [out]) + later;
  }

  // Conservation in each ring, the bytes moved counted as taken in.

  /** What one of the rings takes in and gives up for good. */
  function TakenIn(p: Pair, op: PairOp, first: bool): bytes
    requires p.Ok()
  {
    var q := if first then p.a else p.b;
    var q' := if first then OnPair(p, op).0.a else OnPair(p, op).0.b;
    if op.On? then (if op.first == first then AcceptedBy(q, op.op) else [])
    else if op.toFirst == first && |q.data| <= |q'.data| then q'.data[|q.data|..] else []
  }

  function GivenUp(p: Pair, op: PairOp, first: bool): bytes
    requires p.Ok()
  {
    if op.On? && op.first == first then CommittedBy(if first then p.a else p.b, op.op) else []
  }

  function AllTakenIn(p: Pair, ops: seq<PairOp>, first: bool): bytes
    requires p.Ok()
    decreases ops
  {
    if ops == [] then [] else TakenIn(p, ops[0], first) + AllTakenIn(OnPair(p, ops[0]).0, ops[1..], first)
  }

  function AllGivenUp(p: Pair, ops: seq<PairOp>, first: bool): bytes
    requires p.Ok()
    decreases ops
  {
    if ops == [] then [] else GivenUp(p, ops[0], first) + AllGivenUp(OnPair(p, ops[0]).0, ops[1..], first)
  }

  function Kept(p: Pair, first: bool): bytes {
    if first then p.a.data else p.b.data
  }

  lemma {:induction false} StepBalances(p: Pair, op: PairOp, first: bool)
    requires p.Ok()
    ensures Kept(p, first) + TakenIn(p, op, first) == GivenUp(p, op, first) + Kept(OnPair(p, op).0, first)
  {
    if op.On? && op.first == first {
      StepBalance(if first then p.a else p.b, op.op);
    }
  }

  /** Over every run, each ring keeps or has given up exactly what it had and what came in. */
  lemma {:induction false} BothConserved(p: Pair, ops: seq<PairOp>, first: bool)
    requires p.Ok()
    ensures Kept(p, first) + AllTakenIn(p, ops, first) == AllGivenUp(p, ops, first) + Kept(RunOnPair(p, ops).0, first)
    decreases ops
  {
    if ops != [] {
      var p', later := OnPair(p, ops[0]).0, ops[1..];
      StepBalances(p, ops[0], first);
      BothConserved(p', later, first);
      BalanceChain(Kept(p, first), TakenIn(p, ops[0], first), AllTakenIn(p', later, first), GivenUp(p, ops[0], first),
                   Kept(p', first), AllGivenUp(p', later, first), Kept(RunOnPair(p', later).0, first));
    }
  }

  // Order across both rings.

  /** Into the first ring, over to the second, read there; nothing is skipped or wound back. */
  predicate OneWay(op: PairOp) {
    match op
    case On(first, o) => o.Commit? || o.ReadAgain? || (if first then o.Write? else o.Read? || o.ReadAll?)
    case Move(toFirst, _) => !toFirst
  }

  function Unread(p: Pair): bytes
    requires p.Ok()
  {
    p.b.Unread() + p.a.Unread()
  }

  function Delivered(p: Pair, op: PairOp): bytes
    requires p.Ok()
  {
    if op.On? && !op.first then ReadBy(p.b, op.op) else []
  }

  function Written(p: Pair, op: PairOp): bytes
    requires p.Ok()
  {
    if op.On? && op.first then AcceptedBy(p.a, op.op) else []
  }

  function AllDelivered(p: Pair, ops: seq<PairOp>): bytes
    requires p.Ok()
    decreases ops
  {
    if ops == [] then [] else Delivered(p, ops[0]) + AllDelivered(OnPair(p, ops[0]).0, ops[1..])
  }

  function AllWritten(p: Pair, ops: seq<PairOp>): bytes
    requires p.Ok()
    decreases ops
  {
    if ops == [] then [] else Written(p, ops[0]) + AllWritten(OnPair(p, ops[0]).0, ops[1..])
  }

  lemma {:induction false} StepInOrder(p: Pair, op: PairOp)
    requires p.Ok() && OneWay(op)
    ensures Unread(p) + Written(p, op) == Delivered(p, op) + Unread(OnPair(p, op).0)
  {
    match op
    case On(first, o) =>
      StepBalance(if first then p.a else p.b, o);
      if first {
        assert ReadBy(p.a, o) == [];
      } else {
        assert AcceptedBy(p.b, o) == [];
      }
    case Move(_, n) =>
      MovedInOrder(p.a, p.b, n);
  }

  lemma {:induction false} MovedInOrder(src: Queue, dst: Queue, n: nat)
    requires src.cursor <= |src.data| && dst.cursor <= |dst.data|
    ensures var (src', dst') := Moved(src, dst, n);
            src'.cursor <= |src'.data| && dst'.cursor <= |dst'.data|
                && dst'.Unread() + src'.Unread() == dst.Unread() + src.Unread()
  {
  }

  /** Over every such run the bytes written to the first ring come out of the second in order, each once. */
  lemma {:induction false} DeliveredInOrder(p: Pair, ops: seq<PairOp>)
    requires p.Ok() && forall i :: 0 <= i < |ops| ==> OneWay(ops[i])
    ensures Unread(p) + AllWritten(p, ops) == AllDelivered(p, ops) + Unread(RunOnPair(p, ops).0)
    decreases ops
  {
    if ops != [] {
      var p', later := OnPair(p, ops[0]).0, ops[1..];
      StepInOrder(p, ops[0]);
      DeliveredInOrder(p', later);
      BalanceChain(Unread(p), Written(p, ops[0]), AllWritten(p', later), Delivered(p, ops[0]), Unread(p'),
                   AllDelivered(p', later), Unread(RunOnPair(p', later).0));
    }
  }
}
