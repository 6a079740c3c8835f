/** evbuffer_search_eol and evbuffer_readln. */
module EvBufferLines {
  import opened Bytes
  import opened EvBuffers
  import opened EvBufferDrain
  import opened EvBufferSearch

  const NUL: byte := 0
  const LF: byte := 10
  const CR: byte := 13

  datatype EolStyle = AnyEol | CrLf | CrLfStrict | Lf | Nul

  /** The bytes a scan stops at: one byte, or either of CR and LF. */
  datatype Stop = One(c: byte) | CrOrLf {
    predicate At(b: byte) {
      match this
      case One(c) => b == c
      case CrOrLf => b == CR || b == LF
    }
  }

  ghost predicate FreeOf(s: bytes, stop: Stop, a: nat, b: nat)
    requires b <= |s|
  {
    forall q :: a <= q < b ==> !stop.At(s[q])
  }

  /** find_eol_char, which looks at 128 bytes at a time, and memchr. */
  method FindIn(s: bytes, stop: Stop) returns (i: int)
    ensures -1 <= i < |s|
    ensures if i < 0 then FreeOf(s, stop, 0, |s|) else stop.At(s[i]) && FreeOf(s, stop, 0, i)
  {
    if stop.One? {
      return Memchr(s, stop.c);
    }
    i := 0;
    while i < |s|
      invariant 0 <= i && FreeOf(s, stop, 0, if i < |s| then i else |s|)
    {
      var chunk := if i + 128 < |s| then s[i..i + 128] else s[i..];
      assert forall q :: i <= q < i + |chunk| ==> s[q] == chunk[q - i];
      var k := FindInChunk(chunk);
      if k >= 0 {
        return i + k;
      }
      i := i + 128;
    }
    i := -1;
  }

  method FindInChunk(chunk: bytes) returns (k: int)
    ensures -1 <= k < |chunk|
    ensures if k < 0 then FreeOf(chunk, CrOrLf, 0, |chunk|) else CrOrLf.At(chunk[k]) && FreeOf(chunk, CrOrLf, 0, k)
  {
    var cr, lf := Memchr(chunk, CR), Memchr(chunk, LF);
    k := if cr >= 0 && !(0 <= lf < cr) then cr else lf;
  }

  /** What FindIn says about a chain, said of the flat string. */
  lemma {:induction false} FreeInFlat(parts: seq<bytes>, k: nat, from: nat, n: nat, stop: Stop)
    requires k < |parts| && from + n <= |parts[k]| && FreeOf(parts[k][from..], stop, 0, n)
    ensures var b := Offset(parts, k) + from; b + n <= |Concat(parts)| && FreeOf(Concat(parts), stop, b, b + n)
  {
    PartAt(parts, k, from, n);
    var s, b := Concat(parts), Offset(parts, k) + from;
    forall q | b <= q < b + n ensures !stop.At(s[q]) {
      assert s[q] == s[b..b + n][q - b] == parts[k][from..from + n][q - b] == parts[k][from..][q - b];
    }
  }

  lemma {:induction false} ByteInFlat(buf: EvBuffer, p: Ptr, k: nat)
    requires buf.Valid() && PtrAt(buf, p, k) && p.posInChain < |buf.view.parts[k]|
    ensures p.pos < |buf.Contents()| && buf.Contents()[p.pos] == buf.view.parts[k][p.posInChain]
    ensures p.chain in buf.view.repr && p.chain.blk.Ok() && p.chain.blk.Data() == buf.view.parts[k]
  {
    var parts := buf.view.parts;
    ChainBounds(buf, k);
    PartAt(parts, k, p.posInChain, 1);
    assert buf.Contents()[p.pos..p.pos + 1][0] == parts[k][p.posInChain..p.posInChain + 1][0];
  }

  method ScanChain(buf: EvBuffer, it: Ptr, stop: Stop, ghost k: nat) returns (found: bool, r: Ptr)
    requires buf.Valid() && PtrAt(buf, it, k)
    ensures PtrAt(buf, r, k) && it.pos <= r.pos <= |buf.Contents()| && FreeOf(buf.Contents(), stop, it.pos, r.pos)
    ensures if found then r.posInChain < |buf.view.parts[k]| && r.pos < |buf.Contents()|
            && stop.At(buf.Contents()[r.pos])
            else r.posInChain == |buf.view.parts[k]|
  {
    ChainBounds(buf, k);
    var i := FindIn(it.chain.blk.Data()[it.posInChain..], stop);
    var n := if i >= 0 then i else it.chain.blk.off - it.posInChain;
    FreeInFlat(buf.view.parts, k, it.posInChain, n, stop);
    found, r := i >= 0, it.(pos := it.pos + n, posInChain := it.posInChain + n);
    if found {
      ByteInFlat(buf, r, k);
    }
  }

  /** evbuffer_strchr and evbuffer_find_eol_char */
  method ScanFor(buf: EvBuffer, it: Ptr, stop: Stop) returns (found: bool, r: Ptr)
    requires buf.Valid() && PtrOk(buf, it) && it.pos >= 0
    ensures it.pos <= |buf.Contents()|
    ensures if found
            then && PtrOk(buf, r) && r.chain != null && it.pos <= r.pos < |buf.Contents()|
                 && r.chain in buf.view.repr && r.posInChain < r.chain.blk.off
                 && stop.At(buf.Contents()[r.pos]) && FreeOf(buf.Contents(), stop, it.pos, r.pos)
            else FreeOf(buf.Contents(), stop, it.pos, |buf.Contents()|)
  {
    PtrInRange(buf, it);
    r := it;
    ghost var k := if it.chain == null then |buf.view.spine| else ChainOf(buf, it);
    while r.chain != null
      invariant On(buf, r, k) && it.pos <= r.pos <= |buf.Contents()|
      invariant FreeOf(buf.Contents(), stop, it.pos, r.pos)
      decreases |buf.view.spine| - k
    {
      found, r := ScanChain(buf, r, stop, k);
      if found {
        ChainBounds(buf, k);
        return;
      }
      r, k := Forward(buf, r, 0, k);
      if r.chain != null {
        PtrInRange(buf, r);
      }
    }
    found := false;
  }

  /** evbuffer_strspn for CR and LF. */
  method CountEol(buf: EvBuffer, ptr: Ptr) returns (count: nat)
    requires buf.Valid() && PtrOk(buf, ptr) && ptr.pos >= 0
    ensures ptr.pos + count <= |buf.Contents()|
    ensures forall q :: ptr.pos <= q < ptr.pos + count ==> CrOrLf.At(buf.Contents()[q])
    ensures ptr.pos + count < |buf.Contents()| ==> !CrOrLf.At(buf.Contents()[ptr.pos + count])
  {
    PtrInRange(buf, ptr);
    count := 0;
    if ptr.chain == null {
      return;
    }
    var r := ptr;
    ghost var k := ChainOf(buf, ptr);
    while r.chain != null
      invariant On(buf, r, k) && r.pos == ptr.pos + count <= |buf.Contents()|
      invariant forall q :: ptr.pos <= q < ptr.pos + count ==> CrOrLf.At(buf.Contents()[q])
      decreases |buf.view.spine| - k, if k < |buf.view.parts| then |buf.view.parts[k]| - r.posInChain else 0
    {
      ChainBounds(buf, k);
      var n := 0;
      if r.posInChain < r.chain.blk.off {
        ByteInFlat(buf, r, k);
        if !CrOrLf.At(r.chain.blk.Data()[r.posInChain]) {
          return;
        }
        n := 1;
      }
      count := count + n;
      r, k := Forward(buf, r, n, k);
    }
  }

  /** evbuffer_ptr_subtract */
  method PtrSubtract(buf: EvBuffer, pos: Ptr, howfar: nat) returns (r: int, p: Ptr)
    requires buf.Valid() && (pos.pos < 0 || PtrOk(buf, pos))
    ensures r == if 0 <= howfar <= pos.pos then 0 else -1
    ensures r == 0 ==> PtrOk(buf, p) && p.pos == pos.pos - howfar
    ensures r == 0 && howfar > 0 ==> p.chain != null && p.chain in buf.view.repr && p.posInChain < p.chain.blk.off
  {
    if pos.pos < 0 || howfar > pos.pos {
      return -1, pos;
    }
    PtrInRange(buf, pos);
    if pos.chain != null && howfar <= pos.posInChain {
      ghost var k := ChainOf(buf, pos);
      ChainBounds(buf, k);
      r, p := 0, pos.(pos := pos.pos - howfar, posInChain := pos.posInChain - howfar);
      assert PtrAt(buf, p, k);
    } else {
      r, p := PtrSet(buf, pos, pos.pos - howfar, Set);
    }
  }

  /** `s[p..p + n]` is the first line terminator of the given style at or after `from`. */
  ghost predicate EolAt(s: bytes, from: nat, style: EolStyle, p: nat, n: nat) {
    from <= p && p + n <= |s| &&
    match style
    case AnyEol =>
      && n > 0 && FreeOf(s, CrOrLf, from, p)
      && (forall q :: p <= q < p + n ==> CrOrLf.At(s[q]))
      && (p + n < |s| ==> !CrOrLf.At(s[p + n]))
    case CrLf =>
      && 1 <= n <= 2 && s[p + n - 1] == LF && FreeOf(s, One(LF), from, p + n - 1)
      && (n == 2 ==> s[p] == CR)
      && (n == 1 && p > from ==> s[p - 1] != CR)
    case CrLfStrict => n == 2 && Occurs(s, [CR, LF], p) && NoneIn(s, [CR, LF], from, p)
    case Lf => n == 1 && s[p] == LF && FreeOf(s, One(LF), from, p)
    case Nul => n == 1 && s[p] == NUL && FreeOf(s, One(NUL), from, p)
  }

  ghost predicate HasEol(s: bytes, from: nat, style: EolStyle) {
    exists p, n :: EolAt(s, from, style, p, n)
  }

  /** The byte a scan of this style looks for. */
  function StopOf(style: EolStyle): Stop {
    match style
    case AnyEol => CrOrLf
    case Nul => One(NUL)
    case _ => One(LF)
  }

  lemma {:induction false} NoEol(s: bytes, from: nat, style: EolStyle)
    requires from <= |s|
    requires if style == CrLfStrict then NoneBefore(s, [CR, LF], from, NoPtr) else FreeOf(s, StopOf(style), from, |s|)
    ensures !HasEol(s, from, style)
  {
    forall p, n ensures !EolAt(s, from, style, p, n) {
      if EolAt(s, from, style, p, n) {
        EolStops(s, from, style, p, n);
      }
    }
  }

  /** A terminator contains a byte its scan stops at. */
  lemma {:induction false} EolStops(s: bytes, from: nat, style: EolStyle, p: nat, n: nat)
    requires EolAt(s, from, style, p, n)
    ensures style == CrLfStrict ==> Occurs(s, [CR, LF], p)
    ensures style != CrLfStrict ==> exists q :: from <= q < |s| && StopOf(style).At(s[q])
  {
    if style != CrLfStrict {
      var q := if style == CrLf then p + n - 1 else p;
      assert StopOf(style).At(s[q]);
    }
  }

  method EolCrLf(buf: EvBuffer, start: Ptr) returns (it: Ptr, n: nat)
    requires buf.Valid() && PtrOk(buf, start) && start.pos >= 0
    ensures if it.pos < 0 then it == NOT_FOUND && n == 0 && start.pos <= |buf.Contents()|
            && FreeOf(buf.Contents(), One(LF), start.pos, |buf.Contents()|)
            else EolAt(buf.Contents(), start.pos, CrLf, it.pos, n)
  {
    var found;
    found, it := ScanFor(buf, start, One(LF));
    if !found {
      return NOT_FOUND, 0;
    }
    n := 1;
    if it.pos == start.pos {
      return;
    }
    var ok, it2 := PtrSubtract(buf, it, 1);
    ByteInFlat(buf, it2, ChainOf(buf, it2));
    if it2.chain.blk.Data()[it2.posInChain] == CR {
      it, n := it2, 2;
    }
  }

  /** evbuffer_search_eol */
  method SearchEol(buf: EvBuffer, start: OptPtr, style: EolStyle) returns (it: Ptr, eolLen: nat)
    requires buf.Valid() && (start.SomePtr? ==> PtrOk(buf, start.p))
    ensures var from := if start.NoPtr? then 0 else start.p.pos;
            from >= 0 &&
            if it.pos < 0 then it == NOT_FOUND && eolLen == 0 && !HasEol(buf.Contents(), from, style)
            else EolAt(buf.Contents(), from, style, it.pos, eolLen)
  {
    StartOk(buf);
    it, eolLen := if start.NoPtr? then Ptr(0, buf.ends.first, 0) else start.p, 0;
    PtrInRange(buf, it);
    ghost var from := it.pos;
    if start.SomePtr? && start.p.chain == null {
      it := NOT_FOUND;
      NoEol(buf.Contents(), from, style);
      return;
    }
    var found;
    found, it, eolLen := FindEol(buf, it, style);
    if !found {
      it := NOT_FOUND;
    }
  }

  method EolAny(buf: EvBuffer, start: Ptr) returns (found: bool, it: Ptr, n: nat)
    requires buf.Valid() && PtrOk(buf, start) && 0 <= start.pos <= |buf.Contents()|
    ensures if found then it.pos >= 0 && EolAt(buf.Contents(), start.pos, AnyEol, it.pos, n)
            else n == 0 && FreeOf(buf.Contents(), CrOrLf, start.pos, |buf.Contents()|)
  {
    n := 0;
    found, it := ScanFor(buf, start, CrOrLf);
    if found {
      n := CountEol(buf, it);
    }
  }

  /** The search itself, style by style. */
  method FindEol(buf: EvBuffer, start: Ptr, style: EolStyle) returns (found: bool, it: Ptr, eolLen: nat)
    requires buf.Valid() && PtrOk(buf, start) && 0 <= start.pos <= |buf.Contents()|
    ensures if found then it.pos >= 0 && EolAt(buf.Contents(), start.pos, style, it.pos, eolLen)
            else eolLen == 0 && !HasEol(buf.Contents(), start.pos, style)
  {
    eolLen := 0;
    match style {
      case AnyEol =>
        found, it, eolLen := EolAny(buf, start);
      case CrLfStrict =>
        it := SearchRange(buf, [CR, LF], SomePtr(start), NoPtr);
        found := it.pos >= 0;
        eolLen := if found then 2 else 0;
      case CrLf =>
        it, eolLen := EolCrLf(buf, start);
        found := it.pos >= 0;
      case Lf =>
        found, it := ScanFor(buf, start, One(LF));
        eolLen := if found then 1 else 0;
      case Nul =>
        found, it := ScanFor(buf, start, One(NUL));
        eolLen := if found then 1 else 0;
    }
    if !found {
      NoEol(buf.Contents(), start.pos, style);
    }
  }

  datatype Line = NoLine | Line(text: bytes)

  /** evbuffer_readln */
  method Readln(buf: EvBuffer, style: EolStyle) returns (line: Line)
    requires buf.Valid()
    modifies buf, buf.view.repr
    ensures buf.Valid() && buf.view.repr <= old(buf.view.repr) && buf.flags == old(buf.flags)
    ensures line == NoLine <==>
            buf.flags.freezeStart || !HasEol(old(buf.Contents()), 0, style)
    ensures line == NoLine ==> buf.Contents() == old(buf.Contents())
    // Line, terminator and rest make up the old contents.
    ensures line.Line? ==> LineOf(old(buf.Contents()), style, line.text, buf.Contents())
    ensures old(buf.Accounted()) ==> buf.Accounted()
    // The callbacks are told of the line, and then of its terminator.
    ensures old(buf.Quiet()) ==>
              buf.Quiet() && buf.reports == old(buf.reports)
                  + if line.NoLine? then [] else LineTold(|old(buf.Contents())|, |line.text|, |buf.Contents()|)
  {
    if buf.flags.freezeStart {
      return NoLine;
    }
    var it, extra := SearchEol(buf, NoPtr, style);
    if it.pos < 0 {
      return NoLine;
    }
    ghost var was := buf.Contents();
    var text := TakeLine(buf, it.pos, extra);
    ghost var eol := was[it.pos..it.pos + extra];
    assert |text| == it.pos && |eol| == extra;
    IsLine(was, style, text, eol, buf.Contents());
    line := Line(text);
  }

  /** The reports of a line of length `n` and its terminator taken from `before` bytes, with `after` bytes left. */
  function LineTold(before: nat, n: nat, after: nat): seq<CbInfo>
    requires n + after <= before
  {
    Report(0, n, before - n) + Report(0, before - n - after, after)
  }

  /** `text`, a terminator and `rest` make up `s`, and the terminator is the first one. */
  ghost predicate LineOf(s: bytes, style: EolStyle, text: bytes, rest: bytes) {
    exists eol :: s == text + eol + rest && EolAt(s, 0, style, |text|, |eol|)
  }

  lemma {:induction false} IsLine(s: bytes, style: EolStyle, text: bytes, eol: bytes, rest: bytes)
    requires EolAt(s, 0, style, |text|, |eol|) && s == text + eol + rest
    ensures HasEol(s, 0, style) && LineOf(s, style, text, rest)
  {
  }

  /** The end of evbuffer_readln: evbuffer_remove takes the line, evbuffer_drain its terminator. */
  method TakeLine(buf: EvBuffer, n: nat, extra: nat) returns (text: bytes)
    requires buf.Valid() && n + extra <= |buf.Contents()| && !buf.flags.freezeStart
    modifies buf, buf.view.repr
    ensures buf.Valid() && buf.view.repr <= old(buf.view.repr) && buf.flags == old(buf.flags)
    ensures text == old(buf.Contents())[..n]
    ensures old(buf.Contents()) == text + old(buf.Contents())[n..n + extra] + buf.Contents()
    ensures old(buf.Accounted()) ==> buf.Accounted()
    ensures old(buf.Quiet()) ==>
              buf.Quiet() && buf.reports == old(buf.reports) + LineTold(|old(buf.Contents())|, n, |buf.Contents()|)
  {
    ghost var was, told := buf.Contents(), buf.reports;
    var removed;
    removed, text := Remove(buf, n);
    ghost var rest, toldMore := buf.Contents(), buf.reports;
    var drained := Drain(buf, extra);
    SplitLine(was, text, rest, n, extra);
    LineReports(told, toldMore, buf.reports, |was|, n, |buf.Contents()|);
  }

  lemma {:induction false} LineReports(told: seq<CbInfo>, more: seq<CbInfo>, end: seq<CbInfo>, before: nat, n: nat,
                                       after: nat)
    requires n + after <= before
    ensures more == told + Report(0, n, before - n) && end == more + Report(0, before - n - after, after) ==>
              end == told + LineTold(before, n, after)
  {
  }

  lemma {:induction false} SplitLine(s: bytes, text: bytes, rest: bytes, n: nat, extra: nat)
    requires n + extra <= |s| && s == text + rest && |text| == n
    ensures text == s[..n] && s == text + s[n..n + extra] + rest[extra..]
    ensures extra == |rest| ==> rest[extra..] == []
  {
  }
}
