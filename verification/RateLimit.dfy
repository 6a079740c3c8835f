/** The rate control of WebRtcConnection::sendLoop. */
module RateLimit {

  const U32 := 0x1_0000_0000
  const U64 := 0x1_0000_0000_0000_0000

  /** The loop's byte counters and the start of the present window, in milliseconds. */
  datatype Limiter = Limiter(sent: nat, last: nat, mark: nat)

  /** A video packet taken from the queue at time `now`. */
  datatype Packet = Packet(now: nat, length: nat)

  /** The window is over: 100 ms in unsigned 64-bit arithmetic. */
  predicate Expired(l: Limiter, now: nat) {
    (now - l.mark) % 0x1_0000_0000_0000_0000 >= 100
  }

  /** The start of a new window, if it is time. */
  function Opened(l: Limiter, now: nat): Limiter {
    if Expired(l, now) then Limiter(l.sent, l.sent, now) else l
  }

  /** The bitrate so far in this window, in 32 bits. */
  function Partial(l: Limiter): int
    requires l.last <= l.sent
  {
    ((l.sent - l.last) * 80) % 0x1_0000_0000
  }

  /** One packet under rate control: is it sent? */
  function Offer(l: Limiter, rate: nat, p: Packet): (Limiter, bool)
    requires l.last <= l.sent
  {
    if rate == 1 then (l, false)
    else
      var o := Opened(l, p.now);
      if Partial(o) > rate then (o, false) else (o.(sent := o.sent + p.length), true)
  }

  function Run(l: Limiter, rate: nat, ps: seq<Packet>): (r: Limiter)
    requires l.last <= l.sent
    ensures r.last <= r.sent && l.sent <= r.sent
    decreases ps
  {
    if ps == [] then l else Run(Offer(l, rate, ps[0]).0, rate, ps[1..])
  }

  /** The packets of a run that are sent, in their order. */
  function Passing(l: Limiter, rate: nat, ps: seq<Packet>): seq<Packet>
    requires l.last <= l.sent
    decreases ps
  {
    if ps == [] then [] else
      var (l', sent) := Offer(l, rate, ps[0]);
      (if sent then [ps[0]] else []) + Passing(l', rate, ps[1..])
  }

  /** sendLoop over the packets of its queue, with a fixed rate, outside slide-show mode. */
  method SendLoop(rate: nat, mark: nat, queue: seq<Packet>) returns (written: seq<Packet>, ghost end: Limiter)
    requires 0 < rate < U32
    ensures end == Run(Limiter(0, 0, mark), rate, queue)
    ensures written == Passing(Limiter(0, 0, mark), rate, queue) && Bytes(written) == end.sent
    // Each window carries at most the bound.
    ensures Small(queue) && NoOverflow(rate) ==>
              Bytes(written) <= (Windows(Limiter(0, 0, mark), rate, queue) + 1) * Bound(rate)
    // A window lasts at least 100 ms.
    ensures Small(queue) && NoOverflow(rate) && queue != [] && Ascending(mark, queue) ==>
              Bytes(written) <= ((queue[|queue| - 1].now - mark) / 100 + 1) * Bound(rate)
    // What stays within the rate altogether is written whole.
    ensures rate >= 2 && Bytes(queue) * 80 <= rate ==> written == queue
  {
    var sentVideoBytes: nat, lastSecondVideoBytes: nat, markMs := 0, 0, mark;
    written := [];
    assert queue[0..] == queue;
    for i := 0 to |queue|
      invariant lastSecondVideoBytes <= sentVideoBytes && Bytes(written) == sentVideoBytes
      invariant Run(Limiter(sentVideoBytes, lastSecondVideoBytes, markMs), rate, queue[i..])
                == Run(Limiter(0, 0, mark), rate, queue)
      invariant written + Passing(Limiter(sentVideoBytes, lastSecondVideoBytes, markMs), rate, queue[i..])
                == Passing(Limiter(0, 0, mark), rate, queue)
    {
      var p := queue[i];
      RunStep(Limiter(sentVideoBytes, lastSecondVideoBytes, markMs), rate, queue, i);
      PassingStep(written, Limiter(sentVideoBytes, lastSecondVideoBytes, markMs), rate, queue, i);
      var write;
      write, lastSecondVideoBytes, markMs := Decide(rate, p, sentVideoBytes, lastSecondVideoBytes, markMs);
      if !write {
        continue;
      }
      sentVideoBytes := sentVideoBytes + p.length;
      BytesSnoc(written, p);
      written := written + [p];
    }
    end := Limiter(sentVideoBytes, lastSecondVideoBytes, markMs);
    assert queue[|queue|..] == [];
    WrittenBounded(rate, mark, queue, written);
  }

  lemma {:induction false} WrittenBounded(rate: nat, mark: nat, queue: seq<Packet>, written: seq<Packet>)
    requires 0 < rate < U32 && written == Passing(Limiter(0, 0, mark), rate, queue)
    requires Bytes(written) == Run(Limiter(0, 0, mark), rate, queue).sent
    ensures Small(queue) && NoOverflow(rate) ==>
              Bytes(written) <= (Windows(Limiter(0, 0, mark), rate, queue) + 1) * Bound(rate)
    ensures Small(queue) && NoOverflow(rate) && queue != [] && Ascending(mark, queue) ==>
              Bytes(written) <= ((queue[|queue| - 1].now - mark) / 100 + 1) * Bound(rate)
    ensures rate >= 2 && Bytes(queue) * 80 <= rate ==> written == queue
  {
    if Small(queue) && NoOverflow(rate) {
      WindowsBounded(Limiter(0, 0, mark), rate, queue);
      if queue != [] && Ascending(mark, queue) {
        TimeBounded(Limiter(0, 0, mark), rate, queue);
      }
    }
    if rate >= 2 && Bytes(queue) * 80 <= rate {
      AllPass(Limiter(0, 0, mark), rate, queue);
    }
  }

  /** Whether a video packet is written, with the window moved on if 100 ms have passed. */
  method Decide(rate: nat, p: Packet, sent: nat, last: nat, mark: nat) returns (write: bool, last': nat, mark': nat)
    requires 0 < rate < U32 && last <= sent
    ensures last' <= sent
    ensures Offer(Limiter(sent, last, mark), rate, p)
            == (Limiter(if write then sent + p.length else sent, last', mark'), write)
  {
    write, last', mark' := false, last, mark;
    if rate == 1 {
      return;
    }
    if (p.now - mark) % 0x1_0000_0000_0000_0000 >= 100 {
      mark' := p.now;
      last' := sent;
    }
    var partialBitrate := ((sent - last') * 8 * 10) % 0x1_0000_0000;
    if partialBitrate > rate {
      return;
    }
    write := true;
  }

  lemma {:induction false} RunStep(l: Limiter, rate: nat, ps: seq<Packet>, i: nat)
    requires l.last <= l.sent && i < |ps|
    ensures Run(l, rate, ps[i..]) == Run(Offer(l, rate, ps[i]).0, rate, ps[i + 1..])
  {
    assert ps[i..][1..] == ps[i + 1..];
  }

  lemma {:induction false} PassingStep(written: seq<Packet>, l: Limiter, rate: nat, ps: seq<Packet>, i: nat)
    requires l.last <= l.sent && i < |ps|
    ensures var (l', sent) := Offer(l, rate, ps[i]);
            written + Passing(l, rate, ps[i..])
            == (if sent then written + [ps[i]] else written) + Passing(l', rate, ps[i + 1..])
  {
    assert ps[i..][1..] == ps[i + 1..];
  }

  function Bytes(ps: seq<Packet>): nat {
    if ps == [] then 0 else ps[0].length + Bytes(ps[1..])
  }

  lemma {:induction false} BytesSnoc(ps: seq<Packet>, p: Packet)
    ensures Bytes(ps + [p]) == Bytes(ps) + p.length
  {
    if ps == [] {
      assert ps + [p] == [p];
    } else {
      assert (ps + [p])[1..] == ps[1..] + [p];
      BytesSnoc(ps[1..], p);
    }
  }

  const MTU := 1500

  /** The most a window may carry. */
  function Bound(rate: nat): nat {
    rate / 80 + MTU
  }

  predicate Small(ps: seq<Packet>) {
    forall i :: 0 <= i < |ps| ==> ps[i].length <= MTU
  }

  /** How many new windows a run opens. */
  function Windows(l: Limiter, rate: nat, ps: seq<Packet>): nat
    requires l.last <= l.sent
    decreases ps
  {
    if ps == [] then 0
    else (if rate != 1 && Expired(l, ps[0].now) then 1 else 0) + Windows(Offer(l, rate, ps[0]).0, rate, ps[1..])
  }

  /** The 32-bit product does not overflow at the bound. */
  predicate NoOverflow(rate: nat) {
    Bound(rate) * 80 < U32
  }

  lemma {:induction false} OfferBounded(l: Limiter, rate: nat, p: Packet)
    requires l.last <= l.sent && l.sent - l.last <= Bound(rate) && p.length <= MTU && NoOverflow(rate)
    ensures var l' := Offer(l, rate, p).0; l'.last <= l'.sent && l'.sent - l'.last <= Bound(rate)
    ensures var l' := Offer(l, rate, p).0;
            l'.sent <= l.last + Bound(rate) || (rate != 1 && Expired(l, p.now) && l'.last == l.sent)
  {
    var o := Opened(l, p.now);
    assert (o.sent - o.last) * 80 < U32;
  }

  /** No window carries more than the bound, and k of them no more than k times that. */
  lemma {:induction false} WindowsBounded(l: Limiter, rate: nat, ps: seq<Packet>)
    requires l.last <= l.sent && l.sent - l.last <= Bound(rate) && Small(ps) && NoOverflow(rate)
    ensures var l' := Run(l, rate, ps); l'.sent - l'.last <= Bound(rate)
    ensures Run(l, rate, ps).sent <= l.last + (Windows(l, rate, ps) + 1) * Bound(rate)
    decreases ps
  {
    if ps != [] {
      var l1 := Offer(l, rate, ps[0]).0;
      OfferBounded(l, rate, ps[0]);
      WindowsBounded(l1, rate, ps[1..]);
      var b, w := Bound(rate), Windows(l1, rate, ps[1..]);
      if rate != 1 && Expired(l, ps[0].now) {
        assert (w + 1) * b + b == (w + 2) * b;
      }
    }
  }

  /** The clock does not go back, and fits its 64 bits. */
  predicate Ascending(mark: nat, ps: seq<Packet>) {
    && (forall i :: 0 <= i < |ps| ==> mark <= ps[i].now < U64)
    && forall i, j :: 0 <= i < j < |ps| ==> ps[i].now <= ps[j].now
  }

  /** A new window is opened at most every 100 ms. */
  lemma {:induction false} WindowsTimed(l: Limiter, rate: nat, ps: seq<Packet>)
    requires l.last <= l.sent && ps != [] && Ascending(l.mark, ps)
    ensures Windows(l, rate, ps) * 100 <= ps[|ps| - 1].now - l.mark
    decreases ps
  {
    var p, rest := ps[0], ps[1..];
    var l' := Offer(l, rate, p).0;
    Elapsed(l, p.now);
    assert l'.mark == if rate != 1 && p.now - l.mark >= 100 then p.now else l.mark;
    if rest != [] {
      assert rest[|rest| - 1] == ps[|ps| - 1];
      forall i | 0 <= i < |rest| ensures l'.mark <= rest[i].now < U64 {
        assert rest[i] == ps[i + 1];
      }
      WindowsTimed(l', rate, rest);
    }
  }

  lemma {:induction false} Elapsed(l: Limiter, now: nat)
    requires l.mark <= now < U64
    ensures Expired(l, now) <==> now - l.mark >= 100
  {
  }

  /** So the bound is one on the rate: `Bound` for every 100 ms begun. */
  lemma {:induction false} TimeBounded(l: Limiter, rate: nat, ps: seq<Packet>)
    requires l.last == l.sent == 0 && Small(ps) && NoOverflow(rate) && ps != [] && Ascending(l.mark, ps)
    ensures Run(l, rate, ps).sent <= ((ps[|ps| - 1].now - l.mark) / 100 + 1) * Bound(rate)
  {
    var w, t := Windows(l, rate, ps), ps[|ps| - 1].now - l.mark;
    WindowsBounded(l, rate, ps);
    WindowsTimed(l, rate, ps);
    assert w <= t / 100;
    MoreOf(w + 1, t / 100 + 1, Bound(rate));
  }

  lemma {:induction false} MoreOf(a: nat, b: nat, n: nat)
    requires a <= b
    ensures a * n <= b * n
  {
  }

  /** Which packets are sent: those in a new window, and those that find the present one within the rate. */
  lemma {:induction false} SentExactly(l: Limiter, rate: nat, p: Packet)
    requires l.last <= l.sent && l.mark <= p.now < U64 && (l.sent - l.last) * 80 < U32
    ensures Offer(l, rate, p).1 <==> rate != 1 && (p.now - l.mark >= 100 || (l.sent - l.last) * 80 <= rate)
  {
    Elapsed(l, p.now);
  }

  /** What stays within the rate altogether is sent whole. */
  lemma {:induction false} AllPass(l: Limiter, rate: nat, ps: seq<Packet>)
    requires l.last <= l.sent && 2 <= rate < U32 && (l.sent - l.last + Bytes(ps)) * 80 <= rate
    ensures Passing(l, rate, ps) == ps
    decreases ps
  {
    if ps != [] {
      Fits(Opened(l, ps[0].now), rate);
      AllPass(Offer(l, rate, ps[0]).0, rate, ps[1..]);
    }
  }

  lemma {:induction false} Fits(l: Limiter, rate: nat)
    requires l.last <= l.sent && rate < U32 && (l.sent - l.last) * 80 <= rate
    ensures Partial(l) <= rate
  {
  }

  /** `n` packets of one byte, all at time `now`. */
  function Ones(n: nat, now: nat): (ps: seq<Packet>)
    ensures |ps| == n && Small(ps) && forall i :: 0 <= i < n ==> ps[i].now == now
  {
    if n == 0 then [] else [Packet(now, 1)] + Ones(n - 1, now)
  }

  lemma {:induction false} OnesPass(l: Limiter, rate: nat, n: nat, more: seq<Packet>, ps: seq<Packet>)
    requires l.last <= l.sent && 2 <= rate < U32 && (l.sent - l.last + n) * 80 <= rate
    requires ps == Ones(n, l.mark) + more
    ensures Run(l, rate, ps) == Run(l.(sent := l.sent + n), rate, more)
    decreases n
  {
    if n == 0 {
      assert ps == more;
    } else {
      var l' := l.(sent := l.sent + 1);
      assert l'.(sent := l'.sent + (n - 1)) == l.(sent := l.sent + n);
      FirstPasses(l, rate, n, more, ps);
      OnesPass(l', rate, n - 1, more, ps[1..]);
    }
  }

  lemma {:induction false} FirstPasses(l: Limiter, rate: nat, n: nat, more: seq<Packet>, ps: seq<Packet>)
    requires l.last <= l.sent && 2 <= rate < U32 && n > 0 && (l.sent - l.last + n) * 80 <= rate
    requires ps == Ones(n, l.mark) + more
    ensures ps != [] && ps[1..] == Ones(n - 1, l.mark) + more
    ensures Run(l, rate, ps) == Run(l.(sent := l.sent + 1), rate, ps[1..])
  {
    OnesLess(n, l.mark, more);
    Accepts(l, rate, ps[0]);
    RunOne(l, rate, ps);
  }

  lemma {:induction false} OnesLess(n: nat, mark: nat, more: seq<Packet>)
    requires n > 0
    ensures var ps := Ones(n, mark) + more; ps[0] == Packet(mark, 1) && ps[1..] == Ones(n - 1, mark) + more
  {
  }

  lemma {:induction false} RunOne(l: Limiter, rate: nat, ps: seq<Packet>)
    requires l.last <= l.sent && ps != []
    ensures Run(l, rate, ps) == Run(Offer(l, rate, ps[0]).0, rate, ps[1..])
  {
  }

  /** A packet within the window is sent when the wrapped bitrate allows it. */
  lemma {:induction false} Accepts(l: Limiter, rate: nat, p: Packet)
    requires l.last <= l.sent && 2 <= rate < U32 && p.now == l.mark
    requires (l.sent - l.last) * 80 <= rate || U32 <= (l.sent - l.last) * 80 <= U32 + rate
    ensures Offer(l, rate, p) == (l.(sent := l.sent + p.length), true)
  {
    var x := (l.sent - l.last) * 80;
    assert x % 0x1_0000_0000 == if x < U32 then x else x - U32;
  }

  /** A run that breaks the bound when the product does overflow. */
  lemma {:induction false} Overshoot(rate: nat) returns (ps: seq<Packet>)
    requires 2 <= rate < U32 && !NoOverflow(rate)
    ensures Small(ps) && Windows(Limiter(0, 0, 0), rate, ps) == 0
    ensures Run(Limiter(0, 0, 0), rate, ps).sent > Bound(rate)
  {
    var n := rate / 80;
    var tail := [Packet(0, MTU), Packet(0, 1)];
    ps := Ones(n, 0) + tail;
    var l := Limiter(0, 0, 0);
    OnesPass(l, rate, n, tail, ps);
    var l1 := l.(sent := n);
    var l2 := l1.(sent := n + MTU);
    Accepts(l1, rate, tail[0]);
    Accepts(l2, rate, tail[1]);
    assert tail[1..] == [Packet(0, 1)] && tail[1..][1..] == [];
    assert Run(l1, rate, tail) == Run(l2, rate, tail[1..]);
    assert Run(l2, rate, tail[1..]) == Run(l2.(sent := n + MTU + 1), rate, []);
    AllAtZero(l, rate, ps);
  }

  lemma {:induction false} AllAtZero(l: Limiter, rate: nat, ps: seq<Packet>)
    requires l.last <= l.sent && l.mark == 0 && forall i :: 0 <= i < |ps| ==> ps[i].now == 0
    ensures Windows(l, rate, ps) == 0
    decreases ps
  {
    if ps != [] {
      AllAtZero(Offer(l, rate, ps[0]).0, rate, ps[1..]);
    }
  }

  ghost predicate AlwaysBounded(rate: nat) {
    forall ps :: Small(ps) && Windows(Limiter(0, 0, 0), rate, ps) == 0 ==>
        Run(Limiter(0, 0, 0), rate, ps).sent <= Bound(rate)
  }

  /** The bound holds for every run exactly when the product cannot overflow. */
  lemma {:induction false} BoundedExactly(rate: nat)
    requires 2 <= rate < U32
    ensures AlwaysBounded(rate) <==> NoOverflow(rate)
  {
    var l := Limiter(0, 0, 0);
    if NoOverflow(rate) {
      forall ps | Small(ps) && Windows(l, rate, ps) == 0 ensures Run(l, rate, ps).sent <= Bound(rate) {
        WindowsBounded(l, rate, ps);
      }
    } else {
      var ps := Overshoot(rate);
    }
  }
}
