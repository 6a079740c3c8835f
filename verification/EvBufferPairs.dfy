/** Whole runs of two evbuffers with transfers between them: they are two plain byte strings. */
module EvBufferPairs {
  import opened Bytes
  import opened EvBuffers
  import opened EvBufferDrain
  import opened EvBufferRuns
  import opened EvBufferLines
  import Transfer = EvBufferTransfer

  /** `toFirst` says which of the two buffers takes. */
  datatype PairOp =
    | On(first: bool, op: Op)
    | Line(first: bool, style: EolStyle)
    | AddAll(toFirst: bool)
    | PrependAll(toFirst: bool)
    | Move(toFirst: bool, len: nat)

  datatype Two = Two(a: bytes, b: bytes)

  datatype TwoFlags = TwoFlags(a: Flags, b: Flags)

  /** The line, its terminator and the rest, where there is a line. */
  datatype Cut = NoCut | Cut(text: bytes, eol: bytes, rest: bytes)

  ghost function FirstLine(s: bytes, style: EolStyle): Cut {
    if p: nat, n: nat :| EolAt(s, 0, style, p, n) then Cut(s[..p], s[p..p + n], s[p + n..]) else NoCut
  }

  /** A transfer from `src` to `dst`: of everything, in front or behind, or of the first `n` bytes. */
  function Transferred(src: bytes, dst: bytes, srcFlags: Flags, dstFlags: Flags, op: PairOp): (r: (bytes, bytes, int))
    requires op.AddAll? || op.PrependAll? || op.Move?
  {
    match op
    case AddAll(_) =>
      if src == [] then (src, dst, 0)
      else if dstFlags.freezeEnd || srcFlags.freezeStart then (src, dst, -1) else ([], dst + src, 0)
    case PrependAll(_) =>
      if src == [] then (src, dst, 0)
      else if dstFlags.freezeStart || srcFlags.freezeStart then (src, dst, -1) else ([], src + dst, 0)
    case Move(_, len) =>
      var n := Min(len, |src|);
      if len == 0 then (src, dst, 0)
      else if dstFlags.freezeEnd || srcFlags.freezeStart then (src, dst, -1) else (src[n..], dst + src[..n], CInt(n))
  }

  /** An operation on two plain byte strings. */
  ghost function OnStrings(s: Two, f: TwoFlags, op: PairOp): (Two, Out) {
    match op
    case On(first, o) =>
      var r := OnString(if first then s.a else s.b, if first then f.a else f.b, o);
      (if first then s.(a := r.0) else s.(b := r.0), r.1)
    case Line(first, style) =>
      var cut := FirstLine(if first then s.a else s.b, style);
      if cut.NoCut? || (if first then f.a else f.b).freezeStart then (s, Out(-1, []))
      else (if first then s.(a := cut.rest) else s.(b := cut.rest), Out(0, cut.text))
    case _ =>
      if op.toFirst then
        var r := Transferred(s.b, s.a, f.b, f.a, op);
        (Two(r.1, r.0), Out(r.2, []))
      else
        var r := Transferred(s.a, s.b, f.a, f.b, op);
        (Two(r.0, r.1), Out(r.2, []))
  }

  ghost function RunOnStrings(s: Two, f: TwoFlags, ops: seq<PairOp>): (Two, seq<Out>)
    decreases ops
  {
    if ops == [] then (s, [])
    else
      var step := OnStrings(s, f, ops[0]);
      var rest := RunOnStrings(step.0, f, ops[1..]);
      (rest.0, [step.1] + rest.1)
  }

  /** Where a terminator is, and how long, is settled by the text. */
  lemma {:induction false} EolUnique(s: bytes, style: EolStyle, p: nat, n: nat, p': nat, n': nat)
    requires EolAt(s, 0, style, p, n) && EolAt(s, 0, style, p', n')
    ensures p == p' && n == n'
  {
    match style
    case AnyEol =>
      assert CrOrLf.At(s[p]) && CrOrLf.At(s[p']);
      if p' + n' < |s| {
        NotWithin(s, p, n, p' + n');
      }
      if p + n < |s| {
        NotWithin(s, p', n', p + n);
      }
    case CrLf =>
      assert p + n == p' + n';
    case CrLfStrict =>
    case Lf =>
    case Nul =>
  }

  lemma {:induction false} NotWithin(s: bytes, p: nat, n: nat, q: nat)
    requires p + n <= |s| && p <= q < |s| && !CrOrLf.At(s[q]) && forall k :: p <= k < p + n ==> CrOrLf.At(s[k])
    ensures p + n <= q
  {
  }

  /** No piece of data is bigger than an allocation can be. */
  ghost predicate Fits(op: PairOp) {
    op.On? ==> op.op.Fits()
  }

  /** The bytes that operations bring in from outside. */
  function Brought(op: PairOp): bytes {
    if op.On? && (op.op.Add? || op.op.Prepend?) then op.op.data else []
  }

  function Volume(ops: seq<PairOp>): nat {
    if ops == [] then 0 else |Brought(ops[0])| + Volume(ops[1..])
  }

  method TakeLine(buf: EvBuffer, style: EolStyle) returns (out: Out)
    requires buf.Valid()
    modifies buf, buf.view.repr
    ensures buf.Valid() && buf.view.repr <= old(buf.view.repr) && buf.flags == old(buf.flags)
    ensures var cut := FirstLine(old(buf.Contents()), style);
            if cut.NoCut? || buf.flags.freezeStart then out == Out(-1, []) && buf.Contents() == old(buf.Contents())
            else out.r == 0 && out.data == cut.text && buf.Contents() == cut.rest
    ensures |out.data| + |buf.Contents()| <= |old(buf.Contents())|
    ensures old(buf.Quiet()) ==>
              buf.Quiet() && buf.reports == old(buf.reports)
                  + if out.r == 0 then LineTold(|old(buf.Contents())|, |out.data|, |buf.Contents()|) else []
  {
    ghost var s := buf.Contents();
    var line := Readln(buf, style);
    if line.NoLine? {
      out := Out(-1, []);
    } else {
      ghost var eol :| s == line.text + eol + buf.Contents() && EolAt(s, 0, style, |line.text|, |eol|);
      LineIs(s, style, line.text, eol, buf.Contents());
      out := Out(0, line.text);
    }
  }

  lemma {:induction false} LineIs(s: bytes, style: EolStyle, text: bytes, eol: bytes, rest: bytes)
    requires s == text + eol + rest && EolAt(s, 0, style, |text|, |eol|)
    ensures var cut := FirstLine(s, style);
            cut.Cut? && cut.text == text && cut.eol == eol && cut.rest == rest
  {
    forall p: nat, n: nat | EolAt(s, 0, style, p, n) ensures p == |text| && n == |eol| {
      EolUnique(s, style, p, n, |text|, |eol|);
    }
    assert s[..|text|] == text && s[|text|..|text| + |eol|] == eol && s[|text| + |eol|..] == rest;
  }

  function Grown(t: bytes, t': bytes): nat {
    if |t'| > |t| then |t'| - |t| else 0
  }

  /** The report of a transfer, to a buffer that it takes from `t` to `t'`. */
  function Moved(t: bytes, t': bytes): seq<CbInfo> {
    Told(t, t', Grown(t, t'))
  }

  method Transact(src: EvBuffer, dst: EvBuffer, op: PairOp) returns (r: int)
    requires op.AddAll? || op.PrependAll? || op.Move?
    requires src.Valid() && dst.Valid() && src != dst && src.view.repr !! dst.view.repr
    requires |src.Contents()| + |dst.Contents()| <= SIZE_MAX
    modifies src, dst, src.view.repr, dst.view.repr
    ensures src.Valid() && dst.Valid() && src.view.repr !! dst.view.repr
    ensures fresh(src.view.repr + dst.view.repr - old(src.view.repr + dst.view.repr))
    ensures src.flags == old(src.flags) && dst.flags == old(dst.flags)
    ensures var want := Transferred(old(src.Contents()), old(dst.Contents()), src.flags, dst.flags, op);
            src.Contents() == want.0 && dst.Contents() == want.1 && r == want.2
    ensures old(src.Quiet()) ==>
              src.Quiet() && src.reports == old(src.reports) + Moved(old(src.Contents()), src.Contents())
    ensures old(dst.Quiet()) ==>
              dst.Quiet() && dst.reports == old(dst.reports) + Moved(old(dst.Contents()), dst.Contents())
  {
    match op {
      case AddAll(_) => r := Transfer.AddBuffer(dst, src);
      case PrependAll(_) => r := Transfer.PrependBuffer(dst, src);
      case Move(_, len) => r := TransactMove(src, dst, op);
    }
  }

  method TransactMove(src: EvBuffer, dst: EvBuffer, op: PairOp) returns (r: int)
    requires op.Move?
    requires src.Valid() && dst.Valid() && src != dst && src.view.repr !! dst.view.repr
    requires |src.Contents()| + |dst.Contents()| <= SIZE_MAX
    modifies src, dst, src.view.repr, dst.view.repr
    ensures src.Valid() && dst.Valid() && src.view.repr !! dst.view.repr
    ensures fresh(src.view.repr + dst.view.repr - old(src.view.repr + dst.view.repr))
    ensures src.flags == old(src.flags) && dst.flags == old(dst.flags)
    ensures var want := Transferred(old(src.Contents()), old(dst.Contents()), src.flags, dst.flags, op);
            src.Contents() == want.0 && dst.Contents() == want.1 && r == want.2
    ensures old(src.Quiet()) ==>
              src.Quiet() && src.reports == old(src.reports) + Moved(old(src.Contents()), src.Contents())
    ensures old(dst.Quiet()) ==>
              dst.Quiet() && dst.reports == old(dst.reports) + Moved(old(dst.Contents()), dst.Contents())
  {
    r := Transfer.RemoveBuffer(src, dst, op.len);
  }

  /** What both buffers keep. */
  ghost predicate Sound(a: EvBuffer, b: EvBuffer)
    reads a, b, a.view.repr, b.view.repr
  {
    a.Valid() && b.Valid() && a != b && a.view.repr !! b.view.repr
  }

  ghost function Texts(a: EvBuffer, b: EvBuffer): Two
    reads a, b
  {
    Two(a.Contents(), b.Contents())
  }

  ghost function Of(s: Two, first: bool): bytes {
    if first then s.a else s.b
  }

  /** What an operation tells the callbacks of one of the two buffers; a line is two reports. */
  ghost function ToldTo(s: Two, f: TwoFlags, op: PairOp, counted: nat, first: bool): seq<CbInfo> {
    var (s', out) := OnStrings(s, f, op);
    var t, t' := Of(s, first), Of(s', first);
    match op
    case On(which, _) => if which == first then Told(t, t', counted) else []
    case Line(which, style) =>
      if which == first && out.r == 0 then LineTold(|t|, |FirstLine(t, style).text|, |t'|) else []
    case _ => Moved(t, t')
  }

  /** Only evbuffer_prepend may count less than was added. */
  ghost predicate MayCountOn(s: Two, f: TwoFlags, op: PairOp, counted: nat) {
    op.On? ==> MayCount(Of(s, op.first), Of(OnStrings(s, f, op).0, op.first), op.op, counted)
  }

  ghost predicate AllMayCount(s: Two, f: TwoFlags, ops: seq<PairOp>, counted: seq<nat>)
    requires |counted| == |ops|
    decreases ops
  {
    ops == [] ||
    (MayCountOn(s, f, ops[0], counted[0]) && AllMayCount(OnStrings(s, f, ops[0]).0, f, ops[1..], counted[1..]))
  }

  ghost function RunToldTo(s: Two, f: TwoFlags, ops: seq<PairOp>, counted: seq<nat>, first: bool): seq<CbInfo>
    requires |counted| == |ops|
    decreases ops
  {
    if ops == [] then [] else
      ToldTo(s, f, ops[0], counted[0], first)
      + RunToldTo(OnStrings(s, f, ops[0]).0, f, ops[1..], counted[1..], first)
  }

  method ApplyOne(buf: EvBuffer, other: EvBuffer, op: PairOp) returns (out: Out, ghost counted: nat)
    requires Sound(buf, other) && (op.On? || op.Line?) && Fits(op) && |buf.Contents()| <= SIZE_MAX
    modifies buf, buf.view.repr
    ensures Sound(buf, other) && fresh(buf.view.repr - old(buf.view.repr)) && buf.flags == old(buf.flags)
    ensures other.Contents() == old(other.Contents()) && other.view == old(other.view)
            && other.flags == old(other.flags)
    ensures var s, f, o := Two(old(buf.Contents()), other.Contents()), TwoFlags(buf.flags, other.flags),
                           op.(first := true);
            var want := OnStrings(s, f, o);
            && buf.Contents() == want.0.a && out.r == want.1.r && out.data == want.1.data
            && MayCountOn(s, f, o, counted)
            && (old(buf.Quiet()) ==>
                  buf.Quiet() && buf.reports == old(buf.reports) + ToldTo(s, f, o, counted, true))
  {
    counted := 0;
    if op.On? {
      out, counted := Apply(buf, op.op);
    } else {
      out := TakeLine(buf, op.style);
    }
  }

  /** The two buffers of a pair are alike. */
  lemma {:induction false} Mirrored(s: Two, f: TwoFlags, op: PairOp, counted: nat)
    requires op.On? || op.Line?
    ensures var s', f', o := Two(s.b, s.a), TwoFlags(f.b, f.a), op.(first := !op.first);
            && OnStrings(s', f', o).0 == Two(OnStrings(s, f, op).0.b, OnStrings(s, f, op).0.a)
            && OnStrings(s', f', o).1 == OnStrings(s, f, op).1
            && (MayCountOn(s', f', o, counted) <==> MayCountOn(s, f, op, counted))
            && ToldTo(s', f', o, counted, true) == ToldTo(s, f, op, counted, false)
            && ToldTo(s', f', o, counted, false) == ToldTo(s, f, op, counted, true)
  {
  }

  /** The operation took the two strings to `s'`, with that result. */
  ghost predicate Done(s: Two, f: TwoFlags, op: PairOp, s': Two, out: Out, counted: nat) {
    OnStrings(s, f, op) == (s', out) && MayCountOn(s, f, op, counted)
  }

  method ApplyBoth(a: EvBuffer, b: EvBuffer, op: PairOp) returns (out: Out, ghost counted: nat)
    requires Sound(a, b) && Fits(op) && |a.Contents()| + |b.Contents()| <= SIZE_MAX
    modifies a, b, a.view.repr, b.view.repr
    ensures Sound(a, b) && a.flags == old(a.flags) && b.flags == old(b.flags)
    ensures fresh(a.view.repr + b.view.repr - old(a.view.repr + b.view.repr))
    ensures Done(old(Texts(a, b)), TwoFlags(a.flags, b.flags), op, Texts(a, b), out, counted)
    ensures old(a.Quiet()) ==>
              a.Quiet() && a.reports == old(a.reports)
                  + ToldTo(old(Texts(a, b)), TwoFlags(a.flags, b.flags), op, counted, true)
    ensures old(b.Quiet()) ==>
              b.Quiet() && b.reports == old(b.reports)
                  + ToldTo(old(Texts(a, b)), TwoFlags(a.flags, b.flags), op, counted, false)
  {
    counted := 0;
    if op.AddAll? || op.PrependAll? || op.Move? {
      out := TransferBoth(a, b, op);
    } else if op.first {
      out, counted := OnFirst(a, b, op);
    } else {
      out, counted := OnSecond(a, b, op);
    }
  }

  method OnFirst(a: EvBuffer, b: EvBuffer, op: PairOp) returns (out: Out, ghost counted: nat)
    requires (op.On? || op.Line?) && op.first
    requires Sound(a, b) && Fits(op) && |a.Contents()| + |b.Contents()| <= SIZE_MAX
    modifies a, b, a.view.repr, b.view.repr
    ensures Sound(a, b) && a.flags == old(a.flags) && b.flags == old(b.flags)
    ensures fresh(a.view.repr + b.view.repr - old(a.view.repr + b.view.repr))
    ensures Done(old(Texts(a, b)), TwoFlags(a.flags, b.flags), op, Texts(a, b), out, counted)
    ensures old(a.Quiet()) ==>
              a.Quiet() && a.reports == old(a.reports)
                  + ToldTo(old(Texts(a, b)), TwoFlags(a.flags, b.flags), op, counted, true)
    ensures old(b.Quiet()) ==>
              b.Quiet() && b.reports == old(b.reports)
                  + ToldTo(old(Texts(a, b)), TwoFlags(a.flags, b.flags), op, counted, false)
  {
    ghost var s, f := Texts(a, b), TwoFlags(a.flags, b.flags);
    out, counted := ApplyOne(a, b, op);
    assert OnStrings(s, f, op).0 == Texts(a, b) && OnStrings(s, f, op).1 == out;
  }

  method OnSecond(a: EvBuffer, b: EvBuffer, op: PairOp) returns (out: Out, ghost counted: nat)
    requires (op.On? || op.Line?) && !op.first
    requires Sound(a, b) && Fits(op) && |a.Contents()| + |b.Contents()| <= SIZE_MAX
    modifies a, b, a.view.repr, b.view.repr
    ensures Sound(a, b) && a.flags == old(a.flags) && b.flags == old(b.flags)
    ensures fresh(a.view.repr + b.view.repr - old(a.view.repr + b.view.repr))
    ensures Done(old(Texts(a, b)), TwoFlags(a.flags, b.flags), op, Texts(a, b), out, counted)
    ensures old(a.Quiet()) ==>
              a.Quiet() && a.reports == old(a.reports)
                  + ToldTo(old(Texts(a, b)), TwoFlags(a.flags, b.flags), op, counted, true)
    ensures old(b.Quiet()) ==>
              b.Quiet() && b.reports == old(b.reports)
                  + ToldTo(old(Texts(a, b)), TwoFlags(a.flags, b.flags), op, counted, false)
  {
    ghost var s, f := Texts(a, b), TwoFlags(a.flags, b.flags);
    out, counted := ApplyOne(b, a, op);
    Mirrored(s, f, op, counted);
    assert OnStrings(s, f, op).0 == Texts(a, b) && OnStrings(s, f, op).1 == out;
  }

  method TransferBoth(a: EvBuffer, b: EvBuffer, op: PairOp) returns (out: Out)
    requires op.AddAll? || op.PrependAll? || op.Move?
    requires Sound(a, b) && Fits(op) && |a.Contents()| + |b.Contents()| <= SIZE_MAX
    modifies a, b, a.view.repr, b.view.repr
    ensures Sound(a, b) && a.flags == old(a.flags) && b.flags == old(b.flags)
    ensures fresh(a.view.repr + b.view.repr - old(a.view.repr + b.view.repr))
    ensures Done(old(Texts(a, b)), TwoFlags(a.flags, b.flags), op, Texts(a, b), out, 0)
    ensures old(a.Quiet()) ==>
              a.Quiet() && a.reports == old(a.reports)
                  + ToldTo(old(Texts(a, b)), TwoFlags(a.flags, b.flags), op, 0, true)
    ensures old(b.Quiet()) ==>
              b.Quiet() && b.reports == old(b.reports)
                  + ToldTo(old(Texts(a, b)), TwoFlags(a.flags, b.flags), op, 0, false)
  {
    ghost var s, f := Texts(a, b), TwoFlags(a.flags, b.flags);
    var r;
    if op.toFirst {
      r := Transact(b, a, op);
    } else {
      r := Transact(a, b, op);
    }
    out := Out(r, []);
    TransferIs(s, f, op, Texts(a, b), r);
  }

  lemma {:induction false} TransferIs(s: Two, f: TwoFlags, op: PairOp, s': Two, r: int)
    requires op.AddAll? || op.PrependAll? || op.Move?
    requires var want := if op.toFirst then Transferred(s.b, s.a, f.b, f.a, op)
                         else Transferred(s.a, s.b, f.a, f.b, op);
             Of(s', !op.toFirst) == want.0 && Of(s', op.toFirst) == want.1 && r == want.2
    ensures Done(s, f, op, s', Out(r, []), 0)
    ensures ToldTo(s, f, op, 0, true) == Moved(s.a, s'.a) && ToldTo(s, f, op, 0, false) == Moved(s.b, s'.b)
  {
    assert OnStrings(s, f, op).0 == s';
  }

  lemma {:induction false} StepVolume(s: Two, f: TwoFlags, op: PairOp)
    ensures var s' := OnStrings(s, f, op).0;
            |s'.a| + |s'.b| <= |s.a| + |s.b| + |Brought(op)|
  {
  }

  /**
   Every run of two buffers, transfers and lines included, is the run of two plain byte strings; and the callbacks
   of each, if they run at once, are told of what happens to it, except for what evbuffer_prepend does not count.
   */
  method RunBoth(a: EvBuffer, b: EvBuffer, ops: seq<PairOp>) returns (outs: seq<Out>, ghost counted: seq<nat>)
    requires Sound(a, b) && |a.Contents()| + |b.Contents()| + Volume(ops) <= SIZE_MAX
    requires forall i :: 0 <= i < |ops| ==> Fits(ops[i])
    modifies a, b, a.view.repr, b.view.repr
    decreases |ops|
    ensures Sound(a, b) && a.flags == old(a.flags) && b.flags == old(b.flags)
    ensures fresh(a.view.repr + b.view.repr - old(a.view.repr + b.view.repr))
    ensures var s, f := old(Texts(a, b)), TwoFlags(a.flags, b.flags);
            var want := RunOnStrings(s, f, ops);
            && a.Contents() == want.0.a && b.Contents() == want.0.b && outs == want.1
            && |counted| == |ops| && AllMayCount(s, f, ops, counted)
            && (old(a.Quiet()) ==> a.Quiet() && a.reports == old(a.reports) + RunToldTo(s, f, ops, counted, true))
            && (old(b.Quiet()) ==> b.Quiet() && b.reports == old(b.reports) + RunToldTo(s, f, ops, counted, false))
  {
    if ops == [] {
      return [], [];
    }
    ghost var s, f, toA, toB := Texts(a, b), TwoFlags(a.flags, b.flags), a.reports, b.reports;
    StepVolume(s, f, ops[0]);
    var out, c := ApplyBoth(a, b, ops[0]);
    ghost var midA, midB := a.reports, b.reports;
    ghost var s1 := Texts(a, b);
    var rest, cs := RunBoth(a, b, ops[1..]);
    outs, counted := [out] + rest, [c] + cs;
    RunMore(s, f, ops, s1, out, c, cs);
    MoreTold(s, f, ops, c, cs, true, toA, midA, a.reports);
    MoreTold(s, f, ops, c, cs, false, toB, midB, b.reports);
  }

  lemma {:induction false} RunMore(s: Two, f: TwoFlags, ops: seq<PairOp>, s1: Two, out: Out, c: nat, cs: seq<nat>)
    requires ops != [] && |cs| == |ops| - 1 && Done(s, f, ops[0], s1, out, c) && AllMayCount(s1, f, ops[1..], cs)
    ensures var rest := RunOnStrings(s1, f, ops[1..]); RunOnStrings(s, f, ops) == (rest.0, [out] + rest.1)
    ensures AllMayCount(s, f, ops, [c] + cs) && s1 == OnStrings(s, f, ops[0]).0
  {
    assert ([c] + cs)[1..] == cs;
  }

  lemma {:induction false} MoreTold(s: Two, f: TwoFlags, ops: seq<PairOp>, c: nat, cs: seq<nat>, first: bool,
                                    before: seq<CbInfo>, mid: seq<CbInfo>, after: seq<CbInfo>)
    requires ops != [] && |cs| == |ops| - 1
    ensures mid == before + ToldTo(s, f, ops[0], c, first)
            && after == mid + RunToldTo(OnStrings(s, f, ops[0]).0, f, ops[1..], cs, first) ==>
              after == before + RunToldTo(s, f, ops, [c] + cs, first)
  {
    assert ([c] + cs)[1..] == cs;
  }

  // When the reports follow the length of a buffer.

  /** The bytes counted for one of the two buffers. */
  ghost function CountedFor(s: Two, f: TwoFlags, op: PairOp, counted: nat, first: bool): nat {
    if op.On? && op.first == first then counted else Grown(Of(s, first), Of(OnStrings(s, f, op).0, first))
  }

  /** Whatever was added to it was counted. */
  ghost predicate InFull(s: Two, f: TwoFlags, ops: seq<PairOp>, counted: seq<nat>, first: bool)
    requires |counted| == |ops|
    decreases ops
  {
    ops == [] ||
    var s' := OnStrings(s, f, ops[0]).0;
    var t, t' := Of(s, first), Of(s', first);
    && (|t'| >= |t| ==> CountedFor(s, f, ops[0], counted[0], first) == |t'| - |t|)
    && InFull(s', f, ops[1..], counted[1..], first)
  }

  /** A line makes two reports that come to the same as one. */
  lemma {:induction false} LineChained(start: nat, before: nat, n: nat, after: nat, rest: seq<CbInfo>, end: nat)
    requires n + after <= before
    ensures Chained(start, LineTold(before, n, after) + rest, end)
            <==> Chained(start, Report(0, before - after, after) + rest, end)
  {
    var tail := Report(0, before - n - after, after) + rest;
    assert LineTold(before, n, after) + rest == Report(0, n, before - n) + tail;
    ChainedReport(start, 0, n, before - n, tail, end);
    ChainedReport(start, 0, before - n - after, after, rest, end);
    ChainedReport(before - n, 0, before - n - after, after, rest, end);
    ChainedReport(start, 0, before - after, after, rest, end);
  }

  lemma {:induction false} StepChained(start: nat, s: Two, f: TwoFlags, op: PairOp, counted: nat, first: bool,
                                       rest: seq<CbInfo>, end: nat)
    ensures var t, t' := Of(s, first), Of(OnStrings(s, f, op).0, first);
            Chained(start, ToldTo(s, f, op, counted, first) + rest, end)
            <==> Chained(start, Told(t, t', CountedFor(s, f, op, counted, first)) + rest, end)
  {
    var (s', out) := OnStrings(s, f, op);
    var t, t' := Of(s, first), Of(s', first);
    if op.Line? && op.first == first && out.r == 0 {
      LineChained(start, |t|, |FirstLine(t, op.style).text|, |t'|, rest, end);
      assert |t'| == |t| ==> Report(0, |t| - |t'|, |t'|) == Report(0, 0, |t'|);
    } else if op.On? || op.Line? {
      assert op.first != first ==> t' == t;
    }
  }

  lemma {:induction false} ToldChained(start: nat, t: bytes, t': bytes, c: nat, rest: seq<CbInfo>, end: nat)
    ensures Chained(start, Told(t, t', c) + rest, end) <==>
            if |t'| < |t| then start == |t| && Chained(|t'|, rest, end)
            else if c == 0 then Chained(start, rest, end)
            else |t'| - c == start && Chained(|t'|, rest, end)
  {
    if |t'| < |t| {
      ChainedReport(start, 0, |t| - |t'|, |t'|, rest, end);
    } else {
      ChainedReport(start, c, 0, |t'|, rest, end);
    }
  }

  /** Once the callbacks of a buffer have missed something, no later report makes up for it. */
  lemma {:induction false} GapStays(start: nat, s: Two, f: TwoFlags, ops: seq<PairOp>, counted: seq<nat>, first: bool)
    requires |counted| == |ops| && AllMayCount(s, f, ops, counted) && start < |Of(s, first)|
    ensures !Chained(start, RunToldTo(s, f, ops, counted, first), |Of(RunOnStrings(s, f, ops).0, first)|)
    decreases ops
  {
    if ops != [] {
      var s', end := OnStrings(s, f, ops[0]).0, |Of(RunOnStrings(s, f, ops).0, first)|;
      var rest := RunToldTo(s', f, ops[1..], counted[1..], first);
      var c := CountedFor(s, f, ops[0], counted[0], first);
      StepChained(start, s, f, ops[0], counted[0], first, rest, end);
      ToldChained(start, Of(s, first), Of(s', first), c, rest, end);
      if |Of(s', first)| >= |Of(s, first)| {
        GapStays(start, s', f, ops[1..], counted[1..], first);
      }
    }
  }

  /** Over every history, a buffer's reports follow its length without a gap exactly if all that was added counted. */
  lemma {:induction false} HistoryChained(s: Two, f: TwoFlags, ops: seq<PairOp>, counted: seq<nat>, first: bool)
    requires |counted| == |ops| && AllMayCount(s, f, ops, counted)
    ensures Chained(|Of(s, first)|, RunToldTo(s, f, ops, counted, first), |Of(RunOnStrings(s, f, ops).0, first)|)
            <==> InFull(s, f, ops, counted, first)
    decreases ops
  {
    if ops != [] {
      var s', end := OnStrings(s, f, ops[0]).0, |Of(RunOnStrings(s, f, ops).0, first)|;
      var rest := RunToldTo(s', f, ops[1..], counted[1..], first);
      var t, t', c := Of(s, first), Of(s', first), CountedFor(s, f, ops[0], counted[0], first);
      HistoryChained(s', f, ops[1..], counted[1..], first);
      StepChained(|t|, s, f, ops[0], counted[0], first, rest, end);
      ToldChained(|t|, t, t', c, rest, end);
      if |t'| > |t| && c == 0 {
        GapStays(|t|, s', f, ops[1..], counted[1..], first);
      }
    }
  }

  // Conservation over whole histories.

  /** The bytes an operation takes in from outside, and the bytes it hands out or drops. */
  ghost function TakenIn(s: Two, f: TwoFlags, op: PairOp): bytes {
    if OnStrings(s, f, op).1.r == 0 then Brought(op) else []
  }

  ghost function GivenOut(s: Two, f: TwoFlags, op: PairOp): bytes {
    match op
    case On(first, o) =>
      var t := if first then s.a else s.b;
      var t' := OnString(t, if first then f.a else f.b, o).0;
      if o.Drain? || o.Remove? then t[..|t| - |t'|] else []
    case Line(first, style) =>
      var cut := FirstLine(if first then s.a else s.b, style);
      if OnStrings(s, f, op).1.r == 0 then cut.text + cut.eol else []
    case _ => []
  }

  /** The same over a whole history. */
  ghost function AllTakenIn(s: Two, f: TwoFlags, ops: seq<PairOp>): bytes
    decreases ops
  {
    if ops == [] then [] else TakenIn(s, f, ops[0]) + AllTakenIn(OnStrings(s, f, ops[0]).0, f, ops[1..])
  }

  ghost function AllGivenOut(s: Two, f: TwoFlags, ops: seq<PairOp>): bytes
    decreases ops
  {
    if ops == [] then [] else GivenOut(s, f, ops[0]) + AllGivenOut(OnStrings(s, f, ops[0]).0, f, ops[1..])
  }

  ghost function Held(s: Two): multiset<byte> {
    multiset(s.a) + multiset(s.b)
  }

  /** No operation loses a byte, makes one up or doubles one. */
  lemma {:induction false} StepConserves(s: Two, f: TwoFlags, op: PairOp)
    ensures Held(s) + multiset(TakenIn(s, f, op)) == Held(OnStrings(s, f, op).0) + multiset(GivenOut(s, f, op))
  {
    if op.On? || op.Line? {
      var t, other := if op.first then s.a else s.b, if op.first then s.b else s.a;
      var s' := OnStrings(s, f, op).0;
      var t' := if op.first then s'.a else s'.b;
      OneKeeps(s, f, op, t, t');
      Beside(multiset(t), multiset(other), multiset(TakenIn(s, f, op)), multiset(t'), multiset(GivenOut(s, f, op)));
    } else {
      TransferHolds(s, f, op);
    }
  }

  /** A transfer takes nothing in, gives nothing out and leaves the same bytes held. */
  lemma {:induction false} TransferHolds(s: Two, f: TwoFlags, op: PairOp)
    requires op.AddAll? || op.PrependAll? || op.Move?
    ensures TakenIn(s, f, op) == [] && GivenOut(s, f, op) == [] && Held(OnStrings(s, f, op).0) == Held(s)
  {
    if op.toFirst {
      TransferConserves(s.b, s.a, f.b, f.a, op);
      var r := Transferred(s.b, s.a, f.b, f.a, op);
      assert multiset(r.1) + multiset(r.0) == multiset(r.0) + multiset(r.1);
      assert multiset(s.b) + multiset(s.a) == multiset(s.a) + multiset(s.b);
    } else {
      TransferConserves(s.a, s.b, f.a, f.b, op);
    }
  }

  /** What happens to the one buffer an operation works on. */
  lemma {:induction false} OneKeeps(s: Two, f: TwoFlags, op: PairOp, t: bytes, t': bytes)
    requires op.On? || op.Line?
    requires var s' := OnStrings(s, f, op).0;
             t == (if op.first then s.a else s.b) && t' == (if op.first then s'.a else s'.b)
    ensures multiset(t) + multiset(TakenIn(s, f, op)) == multiset(t') + multiset(GivenOut(s, f, op))
  {
    var i, g := TakenIn(s, f, op), GivenOut(s, f, op);
    if op.On? {
      OneConserves(t, if op.first then f.a else f.b, op.op);
    } else {
      LineConserves(t, op.style);
    }
    if op.On? && op.op.Prepend? {
      assert t' == i + t && g == [];
    } else {
      assert t + i == g + t';
    }
  }

  lemma {:induction false} Beside(x: multiset<byte>, o: multiset<byte>, i: multiset<byte>, x': multiset<byte>,
      g: multiset<byte>)
    requires x + i == x' + g
    ensures (x + o) + i == (x' + o) + g && (o + x) + i == (o + x') + g
  {
    assert (x + o) + i == (x + i) + o == (x' + g) + o == (x' + o) + g;
    assert (o + x) + i == o + (x + i) == o + (x' + g) == (o + x') + g;
  }

  lemma {:induction false} OneConserves(t: bytes, flags: Flags, o: Op)
    ensures var (t', out) := OnString(t, flags, o);
            && |t'| <= |t| + (if o.Add? || o.Prepend? then |o.data| else 0)
            && (o.Drain? || o.Remove? ==> |t'| <= |t| && t == t[..|t| - |t'|] + t')
            && (o.Add? ==> t' == if out.r == 0 then t + o.data else t)
            && (o.Prepend? ==> t' == if out.r == 0 then o.data + t else t)
            && (o.Pullup? ==> t' == t)
  {
  }

  lemma {:induction false} LineConserves(t: bytes, style: EolStyle)
    ensures var cut := FirstLine(t, style); cut.Cut? ==> t == cut.text + cut.eol + cut.rest
  {
  }

  lemma {:induction false} TransferConserves(src: bytes, dst: bytes, srcFlags: Flags, dstFlags: Flags, op: PairOp)
    requires op.AddAll? || op.PrependAll? || op.Move?
    ensures var (src', dst', r) := Transferred(src, dst, srcFlags, dstFlags, op);
            && multiset(src') + multiset(dst') == multiset(src) + multiset(dst)
            && (!op.PrependAll? ==> dst' + src' == dst + src)
  {
    if op.Move? {
      var n := Min(op.len, |src|);
      assert src == src[..n] + src[n..];
      assert (dst + src[..n]) + src[n..] == dst + src;
    }
  }

  /** Over every history, whatever goes back and forth, exactly the bytes taken in are held or given out. */
  lemma {:induction false} HistoryConserves(s: Two, f: TwoFlags, ops: seq<PairOp>)
    ensures Held(s) + multiset(AllTakenIn(s, f, ops))
         == Held(RunOnStrings(s, f, ops).0) + multiset(AllGivenOut(s, f, ops))
    decreases ops
  {
    if ops != [] {
      var s', later := OnStrings(s, f, ops[0]).0, ops[1..];
      StepConserves(s, f, ops[0]);
      HistoryConserves(s', f, later);
      BagChain(Held(s), TakenIn(s, f, ops[0]), AllTakenIn(s', f, later), GivenOut(s, f, ops[0]), Held(s'),
               AllGivenOut(s', f, later), Held(RunOnStrings(s', f, later).0));
    }
  }

  lemma {:induction false} BagChain(have: multiset<byte>, took: bytes, later: bytes, gave: bytes, have': multiset<byte>,
                                    rest: bytes, end: multiset<byte>)
    requires have + multiset(took) == have' + multiset(gave) && have' + multiset(later) == end + multiset(rest)
    ensures have + multiset(took + later) == end + multiset(gave + rest)
  {
    var t, l, g, r := multiset(took), multiset(later), multiset(gave), multiset(rest);
    assert multiset(took + later) == t + l && multiset(gave + rest) == g + r;
    assert have + (t + l) == (have + t) + l == (have' + g) + l == (have' + l) + g == (end + r) + g == end + (g + r);
  }

  /** In at the end of the first buffer, over to the second, out at its front. */
  predicate OneWay(op: PairOp) {
    match op
    case On(first, o) => o.Pullup? || (if first then o.Add? else o.Drain? || o.Remove?)
    case Line(first, _) => !first
    case AddAll(toFirst) => !toFirst
    case Move(toFirst, _) => !toFirst
    case PrependAll(_) => false
  }

  lemma {:induction false} StepInOrder(s: Two, f: TwoFlags, op: PairOp)
    requires OneWay(op)
    ensures var s' := OnStrings(s, f, op).0;
            (s.b + s.a) + TakenIn(s, f, op) == GivenOut(s, f, op) + (s'.b + s'.a)
  {
    var i, g, s' := TakenIn(s, f, op), GivenOut(s, f, op), OnStrings(s, f, op).0;
    if op.On? || op.Line? {
      var t, t' := if op.first then s.a else s.b, if op.first then s'.a else s'.b;
      OneInOrder(s, f, op, t, t');
      if op.first {
        AtTheEnd(s.b, t, i, t');
      } else {
        AtTheFront(s.a, t, g, t');
      }
    } else {
      TransferConserves(s.a, s.b, f.a, f.b, op);
    }
  }

  lemma {:induction false} OneInOrder(s: Two, f: TwoFlags, op: PairOp, t: bytes, t': bytes)
    requires OneWay(op) && (op.On? || op.Line?)
    requires var s' := OnStrings(s, f, op).0;
             t == (if op.first then s.a else s.b) && t' == (if op.first then s'.a else s'.b)
    ensures op.first ==> GivenOut(s, f, op) == [] && t' == t + TakenIn(s, f, op)
    ensures !op.first ==> TakenIn(s, f, op) == [] && t == GivenOut(s, f, op) + t'
  {
    if op.On? {
      OneConserves(t, if op.first then f.a else f.b, op.op);
    } else {
      LineConserves(t, op.style);
    }
  }

  lemma {:induction false} AtTheEnd(b: bytes, a: bytes, i: bytes, a': bytes)
    requires a' == a + i
    ensures (b + a) + i == [] + (b + a')
  {
  }

  lemma {:induction false} AtTheFront(a: bytes, b: bytes, g: bytes, b': bytes)
    requires b == g + b'
    ensures (b + a) + [] == g + (b' + a)
  {
  }

  /** Over every such history the bytes come out in the order in which they went in, each once. */
  lemma {:induction false} HistoryInOrder(s: Two, f: TwoFlags, ops: seq<PairOp>)
    requires forall i :: 0 <= i < |ops| ==> OneWay(ops[i])
    ensures var s' := RunOnStrings(s, f, ops).0;
            (s.b + s.a) + AllTakenIn(s, f, ops) == AllGivenOut(s, f, ops) + (s'.b + s'.a)
    decreases ops
  {
    if ops != [] {
      var s', later := OnStrings(s, f, ops[0]).0, ops[1..];
      StepInOrder(s, f, ops[0]);
      HistoryInOrder(s', f, later);
      var end := RunOnStrings(s', f, later).0;
      BalanceChain(s.b + s.a, TakenIn(s, f, ops[0]), AllTakenIn(s', f, later), GivenOut(s, f, ops[0]), s'.b + s'.a,
                   AllGivenOut(s', f, later), end.b + end.a);
    }
  }
}
