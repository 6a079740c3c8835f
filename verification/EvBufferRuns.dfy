/** Whole runs: an evbuffer does exactly what a plain byte string would. */
module EvBufferRuns {
  import opened Bytes
  import opened EvBuffers
  import opened EvBufferDrain
  import Ops = EvBufferOps

  datatype Op =
    | Add(data: bytes)
    | Prepend(data: bytes)
    | Drain(len: nat)
    | Remove(len: nat)
    | Pullup(size: int)
  {
    /** No piece of data is bigger than an allocation can be. */
    ghost predicate Fits() {
      match this
      case Add(data) => ChainFits(|data|)
      case Prepend(data) => ChainFits(|data|)
      case Pullup(_) => true
      case _ => true
    }
  }

  /** What the caller gets: a status, and bytes where the operation hands out bytes. */
  datatype Out = Out(r: int, data: bytes)

  function Min(a: int, b: int): int {
    if a < b then a else b
  }

  /** The operation on a plain byte string. */
  function OnString(s: bytes, flags: Flags, op: Op): (bytes, Out) {
    match op
    case Add(data) =>
      if flags.freezeEnd || |s| + |data| > SIZE_MAX then (s, Out(-1, [])) else (s + data, Out(0, []))
    case Prepend(data) =>
      if flags.freezeStart || |s| + |data| > SIZE_MAX then (s, Out(-1, [])) else (data + s, Out(0, []))
    case Drain(len) =>
      if flags.freezeStart && s != [] then (s, Out(-1, [])) else (s[Min(len, |s|)..], Out(0, []))
    case Remove(len) =>
      var n := Min(len, |s|);
      if flags.freezeStart && n > 0 then (s, Out(-1, [])) else (s[n..], Out(CInt(n), s[..n]))
    case Pullup(size) =>
      var n := if size < 0 then |s| else size;
      (s, if 0 < n <= |s| && ChainFits(n) then Out(0, s[..n]) else Out(-1, []))
  }

  /** A whole list of operations on a plain byte string. */
  function RunOnString(s: bytes, flags: Flags, ops: seq<Op>): (bytes, seq<Out>)
    decreases ops
  {
    if ops == [] then (s, [])
    else
      var step := OnString(s, flags, ops[0]);
      var rest := RunOnString(step.0, flags, ops[1..]);
      (rest.0, [step.1] + rest.1)
  }

  // What the callbacks are told.

  /** Of an operation from `s` to `t` that counted so many bytes as added. */
  function Told(s: bytes, t: bytes, counted: nat): seq<CbInfo> {
    if |t| < |s| then Report(0, |s| - |t|, |t|) else Report(counted, 0, |t|)
  }

  /** Only evbuffer_prepend may count less than was added. */
  predicate MayCount(s: bytes, t: bytes, op: Op, counted: nat) {
    |t| >= |s| ==> counted <= |t| - |s| && (!op.Prepend? ==> counted == |t| - |s|)
  }

  predicate MayCountAll(s: bytes, flags: Flags, ops: seq<Op>, counted: seq<nat>)
    requires |counted| == |ops|
    decreases ops
  {
    ops == [] ||
    var t := OnString(s, flags, ops[0]).0;
    MayCount(s, t, ops[0], counted[0]) && MayCountAll(t, flags, ops[1..], counted[1..])
  }

  /** Whatever was added was counted. */
  predicate CountedInFull(s: bytes, flags: Flags, ops: seq<Op>, counted: seq<nat>)
    requires |counted| == |ops|
    decreases ops
  {
    ops == [] ||
    var t := OnString(s, flags, ops[0]).0;
    (|t| >= |s| ==> counted[0] == |t| - |s|) && CountedInFull(t, flags, ops[1..], counted[1..])
  }

  function RunTold(s: bytes, flags: Flags, ops: seq<Op>, counted: seq<nat>): seq<CbInfo>
    requires |counted| == |ops|
    decreases ops
  {
    if ops == [] then [] else
      var t := OnString(s, flags, ops[0]).0;
      Told(s, t, counted[0]) + RunTold(t, flags, ops[1..], counted[1..])
  }

  /** Each report starts from the length at which the one before it ended, and the last ends at `end`. */
  predicate Chained(start: nat, reports: seq<CbInfo>, end: nat)
    decreases reports
  {
    if reports == [] then start == end
    else reports[0].origSize == start && Chained(reports[0].newSize, reports[1..], end)
  }

  lemma {:induction false} ChainedReport(start: nat, added: nat, deleted: nat, total: nat, rest: seq<CbInfo>, end: nat)
    ensures Chained(start, Report(added, deleted, total) + rest, end) <==>
            if added + deleted == 0 then Chained(start, rest, end)
            else total + deleted - added == start && Chained(total, rest, end)
  {
    if added + deleted == 0 {
      assert [] + rest == rest;
    } else {
      assert (Report(added, deleted, total) + rest)[1..] == rest;
    }
  }

  /** Once the callbacks have missed something, no later report makes up for it. */
  lemma {:induction false} NeverMadeUp(start: nat, s: bytes, flags: Flags, ops: seq<Op>, counted: seq<nat>)
    requires |counted| == |ops| && MayCountAll(s, flags, ops, counted) && start < |s|
    ensures !Chained(start, RunTold(s, flags, ops, counted), |RunOnString(s, flags, ops).0|)
    decreases ops
  {
    if ops != [] {
      var t, end := OnString(s, flags, ops[0]).0, |RunOnString(s, flags, ops).0|;
      var rest := RunTold(t, flags, ops[1..], counted[1..]);
      if |t| < |s| {
        ChainedReport(start, 0, |s| - |t|, |t|, rest, end);
      } else {
        ChainedReport(start, counted[0], 0, |t|, rest, end);
        NeverMadeUp(start, t, flags, ops[1..], counted[1..]);
      }
    }
  }

  /** The reports follow the length without a gap if and only if every byte that was added was counted. */
  lemma {:induction false} ChainedExactly(s: bytes, flags: Flags, ops: seq<Op>, counted: seq<nat>)
    requires |counted| == |ops| && MayCountAll(s, flags, ops, counted)
    ensures Chained(|s|, RunTold(s, flags, ops, counted), |RunOnString(s, flags, ops).0|)
            <==> CountedInFull(s, flags, ops, counted)
    decreases ops
  {
    if ops != [] {
      var t, end := OnString(s, flags, ops[0]).0, |RunOnString(s, flags, ops).0|;
      var rest := RunTold(t, flags, ops[1..], counted[1..]);
      ChainedExactly(t, flags, ops[1..], counted[1..]);
      if |t| < |s| {
        ChainedReport(|s|, 0, |s| - |t|, |t|, rest, end);
      } else {
        ChainedReport(|s|, counted[0], 0, |t|, rest, end);
        if |s| < |t| && counted[0] == 0 {
          NeverMadeUp(|s|, t, flags, ops[1..], counted[1..]);
        }
      }
    }
  }

  /** Without evbuffer_prepend there is never a gap. */
  lemma {:induction false} NoPrependNoGap(s: bytes, flags: Flags, ops: seq<Op>, counted: seq<nat>)
    requires |counted| == |ops| && MayCountAll(s, flags, ops, counted)
    requires forall i :: 0 <= i < |ops| ==> !ops[i].Prepend?
    ensures CountedInFull(s, flags, ops, counted)
    decreases ops
  {
    if ops != [] {
      NoPrependNoGap(OnString(s, flags, ops[0]).0, flags, ops[1..], counted[1..]);
    }
  }

  /** One operation. Of a prepend, the callbacks hear as far as it fits in front of the first chain. */
  method Apply(buf: EvBuffer, op: Op) returns (out: Out, ghost counted: nat)
    requires buf.Valid() && op.Fits() && |buf.Contents()| <= SIZE_MAX
    modifies buf, buf.view.repr
    ensures buf.Valid() && fresh(buf.view.repr - old(buf.view.repr)) && buf.flags == old(buf.flags)
    ensures var want := OnString(old(buf.Contents()), buf.flags, op); buf.Contents() == want.0 && out == want.1
    ensures |buf.Contents()| <= SIZE_MAX
    ensures MayCount(old(buf.Contents()), buf.Contents(), op, counted)
    ensures old(buf.Quiet()) ==>
              buf.Quiet() && buf.reports == old(buf.reports) + Told(old(buf.Contents()), buf.Contents(), counted)
    ensures op.Prepend? && out.r == 0 ==> counted == old(Ops.Counted(buf, op.data))
  {
    if op.Add? || op.Prepend? {
      out, counted := Put(buf, op);
    } else {
      out := Take(buf, op);
      counted := 0;
    }
  }

  method Put(buf: EvBuffer, op: Op) returns (out: Out, ghost counted: nat)
    requires op.Add? || op.Prepend?
    requires buf.Valid() && op.Fits() && |buf.Contents()| <= SIZE_MAX
    modifies buf, buf.view.repr
    ensures buf.Valid() && fresh(buf.view.repr - old(buf.view.repr)) && buf.flags == old(buf.flags)
    ensures var want := OnString(old(buf.Contents()), buf.flags, op); buf.Contents() == want.0 && out == want.1
    ensures |buf.Contents()| <= SIZE_MAX
    ensures MayCount(old(buf.Contents()), buf.Contents(), op, counted)
    ensures old(buf.Quiet()) ==>
              buf.Quiet() && buf.reports == old(buf.reports) + Told(old(buf.Contents()), buf.Contents(), counted)
    ensures op.Prepend? && out.r == 0 ==> counted == old(Ops.Counted(buf, op.data))
  {
    var r;
    if op.Add? {
      r := Ops.Add(buf, op.data);
      counted := |buf.Contents()| - |old(buf.Contents())|;
    } else {
      counted := Ops.Counted(buf, op.data);
      r := Ops.Prepend(buf, op.data);
      counted := if r == 0 then counted else 0;
    }
    out := Out(r, []);
  }

  method Take(buf: EvBuffer, op: Op) returns (out: Out)
    requires !op.Add? && !op.Prepend?
    requires buf.Valid() && op.Fits() && |buf.Contents()| <= SIZE_MAX
    modifies buf, buf.view.repr
    ensures buf.Valid() && fresh(buf.view.repr - old(buf.view.repr)) && buf.flags == old(buf.flags)
    ensures var want := OnString(old(buf.Contents()), buf.flags, op); buf.Contents() == want.0 && out == want.1
    ensures |buf.Contents()| <= SIZE_MAX
    ensures MayCount(old(buf.Contents()), buf.Contents(), op, 0)
    ensures old(buf.Quiet()) ==>
              buf.Quiet() && buf.reports == old(buf.reports) + Told(old(buf.Contents()), buf.Contents(), 0)
  {
    if op.Pullup? {
      out := PullUp(buf, op);
    } else {
      out := TakeOut(buf, op);
    }
  }

  method TakeOut(buf: EvBuffer, op: Op) returns (out: Out)
    requires op.Drain? || op.Remove?
    requires buf.Valid() && op.Fits() && |buf.Contents()| <= SIZE_MAX
    modifies buf, buf.view.repr
    ensures buf.Valid() && fresh(buf.view.repr - old(buf.view.repr)) && buf.flags == old(buf.flags)
    ensures var want := OnString(old(buf.Contents()), buf.flags, op); buf.Contents() == want.0 && out == want.1
    ensures |buf.Contents()| <= SIZE_MAX
    ensures MayCount(old(buf.Contents()), buf.Contents(), op, 0)
    ensures old(buf.Quiet()) ==>
              buf.Quiet() && buf.reports == old(buf.reports) + Told(old(buf.Contents()), buf.Contents(), 0)
  {
    if op.Drain? {
      var r := EvBufferDrain.Drain(buf, op.len);
      out := Out(r, []);
    } else {
      ghost var s := buf.Contents();
      var r, data := EvBufferDrain.Remove(buf, op.len);
      Halves(s, data, buf.Contents());
      out := Out(r, data);
    }
  }

  /** evbuffer_pullup's pointer is read for as many bytes as were asked for. */
  method PullUp(buf: EvBuffer, op: Op) returns (out: Out)
    requires op.Pullup?
    requires buf.Valid() && op.Fits() && |buf.Contents()| <= SIZE_MAX
    modifies buf, buf.view.repr
    ensures buf.Valid() && fresh(buf.view.repr - old(buf.view.repr)) && buf.flags == old(buf.flags)
    ensures var want := OnString(old(buf.Contents()), buf.flags, op); buf.Contents() == want.0 && out == want.1
    ensures |buf.Contents()| <= SIZE_MAX
    ensures MayCount(old(buf.Contents()), buf.Contents(), op, 0)
    ensures old(buf.Quiet()) ==>
              buf.Quiet() && buf.reports == old(buf.reports) + Told(old(buf.Contents()), buf.Contents(), 0)
  {
    var n := if op.size < 0 then buf.counts.total else op.size;
    var chain := EvBufferDrain.Pullup(buf, op.size);
    out := if chain == null then Out(-1, []) else Out(0, chain.blk.Data()[..n]);
  }

  lemma {:induction false} Halves(s: bytes, front: bytes, rest: bytes)
    ensures s == front + rest ==> front == s[..|front|] && rest == s[|front|..]
  {
  }

  /**
   Every run of an evbuffer, operation by operation, is the run of the plain byte string; and callbacks that run at
   once are told of the changes of its length, except for what evbuffer_prepend does not count.
   */
  method Run(buf: EvBuffer, ops: seq<Op>) returns (outs: seq<Out>, ghost counted: seq<nat>)
    requires buf.Valid() && |buf.Contents()| <= SIZE_MAX
    requires forall i :: 0 <= i < |ops| ==> ops[i].Fits()
    modifies buf, buf.view.repr
    decreases |ops|
    ensures buf.Valid() && fresh(buf.view.repr - old(buf.view.repr)) && buf.flags == old(buf.flags)
    ensures var want := RunOnString(old(buf.Contents()), buf.flags, ops); buf.Contents() == want.0 && outs == want.1
    ensures |counted| == |ops| && MayCountAll(old(buf.Contents()), buf.flags, ops, counted)
    ensures old(buf.Quiet()) ==>
              buf.Quiet() && buf.reports == old(buf.reports) + RunTold(old(buf.Contents()), buf.flags, ops, counted)
  {
    if ops == [] {
      return [], [];
    }
    ghost var s, before := buf.Contents(), buf.reports;
    var out, c := Apply(buf, ops[0]);
    ghost var mid := buf.reports;
    var rest, cs := Run(buf, ops[1..]);
    outs, counted := [out] + rest, [c] + cs;
    ToldMore(s, buf.flags, ops, c, cs, before, mid, buf.reports);
  }

  lemma {:induction false} ToldMore(s: bytes, flags: Flags, ops: seq<Op>, c: nat, cs: seq<nat>,
                                    before: seq<CbInfo>, mid: seq<CbInfo>, after: seq<CbInfo>)
    requires ops != [] && |cs| == |ops| - 1
    ensures var t, counted := OnString(s, flags, ops[0]).0, [c] + cs;
            && (MayCountAll(s, flags, ops, counted) <==>
                MayCount(s, t, ops[0], c) && MayCountAll(t, flags, ops[1..], cs))
            && (mid == before + Told(s, t, c) && after == mid + RunTold(t, flags, ops[1..], cs) ==>
                  after == before + RunTold(s, flags, ops, counted))
  {
    assert ([c] + cs)[1..] == cs;
  }

  /** The reports of a whole run, and when they follow the length of the buffer without a gap. */
  method Reports(buf: EvBuffer, ops: seq<Op>) returns (news: seq<CbInfo>, ghost counted: seq<nat>)
    requires buf.Valid() && |buf.Contents()| <= SIZE_MAX && buf.Quiet()
    requires forall i :: 0 <= i < |ops| ==> ops[i].Fits()
    modifies buf, buf.view.repr
    ensures buf.Valid() && buf.flags == old(buf.flags) && buf.reports == old(buf.reports) + news
    ensures buf.Contents() == RunOnString(old(buf.Contents()), buf.flags, ops).0
    ensures |counted| == |ops| && news == RunTold(old(buf.Contents()), buf.flags, ops, counted)
    ensures Chained(|old(buf.Contents())|, news, |buf.Contents()|)
            <==> CountedInFull(old(buf.Contents()), buf.flags, ops, counted)
    ensures (forall i :: 0 <= i < |ops| ==> !ops[i].Prepend?) ==>
              Chained(|old(buf.Contents())|, news, |buf.Contents()|)
  {
    var before := buf.reports;
    ghost var start := buf.Contents();
    var _, cs := Run(buf, ops);
    counted, news := cs, buf.reports[|before|..];
    ChainedExactly(start, buf.flags, ops, counted);
    if forall i :: 0 <= i < |ops| ==> !ops[i].Prepend? {
      NoPrependNoGap(start, buf.flags, ops, counted);
    }
  }
}
