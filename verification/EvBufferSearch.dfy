/** evbuffer_ptr_set, _search_range, _search_eol and _readln: walks that must not notice the chain boundaries. */
module EvBufferSearch {
  import opened Bytes
  import opened EvBuffers
  import opened EvBufferDrain

  datatype OptPtr = NoPtr | SomePtr(p: Ptr)

  datatype How = Set | Add

  /** Where chain `k` starts in the flat string. */
  ghost function Base(buf: EvBuffer, k: nat): nat
    requires k <= |buf.view.parts|
    reads buf
  {
    Offset(buf.view.parts, k)
  }

  /** Chain `k` lies in the flat string from its base on. */
  lemma {:induction false} ChainBounds(buf: EvBuffer, k: nat)
    requires buf.Valid() && k < |buf.view.spine|
    ensures Base(buf, k + 1) == Base(buf, k) + |buf.view.parts[k]| <= |buf.Contents()|
    ensures k + 1 == |buf.view.spine| ==> Base(buf, k + 1) == |buf.Contents()|
    ensures buf.view.spine[k] in buf.view.repr && |buf.view.parts[k]| == buf.view.spine[k].blk.off
  {
    OffsetIs(buf.view.parts, k + 1);
    assert buf.view.spine[k] in buf.view.repr;
  }

  /** The chain a pointer names. */
  ghost function ChainOf(buf: EvBuffer, p: Ptr): (k: nat)
    requires p.chain != null && PtrOk(buf, p)
    reads buf
    ensures PtrAt(buf, p, k)
  {
    var k: nat :| PtrAt(buf, p, k);
    k
  }

  /** evbuffer_ptr_set */
  method PtrSet(buf: EvBuffer, pos: Ptr, position: nat, how: How) returns (r: int, p: Ptr)
    requires buf.Valid() && (how == Add ==> pos.pos < 0 || PtrOk(buf, pos))
    ensures var target := if how == Set then position else pos.pos + position;
            if how == Add && (pos.pos < 0 || SIZE_MAX - position < pos.pos) then r == -1 && p == pos
            else if target <= |buf.Contents()| then r == 0 && p.pos == target && PtrOk(buf, p)
            else r == -1 && p == NOT_FOUND
    ensures r == 0 && p.chain != null ==> p.chain in buf.view.repr && p.posInChain < p.chain.blk.off
  {
    var chain, inChain: nat, left: nat := buf.ends.first, 0, position;
    ghost var k := 0;
    var target := position;
    if how == Add {
      if pos.pos < 0 || SIZE_MAX - position < pos.pos {
        return -1, pos;
      }
      chain, inChain, target := pos.chain, pos.posInChain, pos.pos + position;
      PtrInRange(buf, pos);
      if chain == null {
        k := |buf.view.spine|;
        OffsetIs(buf.view.parts, k);
      } else {
        k := ChainOf(buf, pos);
      }
    } else if chain == null {
      assert buf.view.parts == [];
    }
    while chain != null && inChain + left >= chain.blk.off
      invariant k <= |buf.view.spine| && chain == (if k < |buf.view.spine| then buf.view.spine[k] else null)
      invariant k < |buf.view.spine| ==> inChain <= |buf.view.parts[k]|
      invariant k == |buf.view.spine| ==> inChain == 0 && Base(buf, k) == |buf.Contents()|
      invariant Base(buf, k) + inChain + left == target
      decreases |buf.view.spine| - k
    {
      ChainBounds(buf, k);
      left := left - (chain.blk.off - inChain);
      chain, inChain, k := chain.next, 0, k + 1;
    }
    if chain != null {
      ChainBounds(buf, k);
      p := Ptr(target, chain, inChain + left);
      assert PtrAt(buf, p, k);
      r := 0;
    } else if left == 0 {
      p := Ptr(target, null, 0);
      r := 0;
    } else {
      p := NOT_FOUND;
      r := -1;
    }
  }

  /** memchr */
  function Memchr(s: bytes, c: byte): (i: int)
    ensures -1 <= i < |s|
    ensures i >= 0 ==> s[i] == c && forall j :: 0 <= j < i ==> s[j] != c
    ensures i < 0 ==> forall j :: 0 <= j < |s| ==> s[j] != c
  {
    if s == [] then -1
    else if s[0] == c then 0
    else
      var i := Memchr(s[1..], c);
      assert forall j :: 1 <= j < |s| ==> s[j] == s[1..][j - 1];
      if i < 0 then -1 else i + 1
  }

  /** The pattern stands at offset `p` of `s`. */
  predicate Occurs(s: bytes, what: bytes, p: nat) {
    p + |what| <= |s| && s[p..p + |what|] == what
  }

  /** evbuffer_ptr_memcmp, as far as its callers look: is it zero? */
  method PtrMemcmp(buf: EvBuffer, pos: Ptr, mem: bytes) returns (equal: bool)
    requires buf.Valid() && PtrOk(buf, pos)
    ensures pos.pos >= 0 && (equal <==> Occurs(buf.Contents(), mem, pos.pos))
  {
    PtrInRange(buf, pos);
    if pos.pos + |mem| > buf.counts.total {
      return false;
    }
    if pos.chain == null {
      assert mem == [] && buf.Contents()[pos.pos..] == [];
      return true;
    }
    equal := CompareFrom(buf, pos, mem, ChainOf(buf, pos));
  }

  /** One memcmp of the loop, up to the end of a chain. */
  method ComparePiece(buf: EvBuffer, chain: Chain, inChain: nat, ghost p: nat, mem: bytes, done: nat, ghost k: nat)
    returns (same: bool, done': nat)
    requires buf.Valid() && k < |buf.view.spine| && chain == buf.view.spine[k] && inChain <= |buf.view.parts[k]|
    requires Offset(buf.view.parts, k) + inChain == p + done && done < |mem| && p + |mem| <= |buf.Contents()|
    requires buf.Contents()[p..p + done] == mem[..done]
    ensures chain.next == if k + 1 < |buf.view.spine| then buf.view.spine[k + 1] else null
    ensures same ==> done' <= |mem| && buf.Contents()[p..p + done'] == mem[..done']
    ensures same && done' < |mem| ==> k + 1 < |buf.view.spine| && Offset(buf.view.parts, k + 1) == p + done'
    ensures !same ==> !Occurs(buf.Contents(), mem, p)
  {
    ChainBounds(buf, k);
    var n := if |mem| - done + inChain > chain.blk.off then chain.blk.off - inChain else |mem| - done;
    CompareStep(buf.view.parts, k, inChain, p, mem, done, n);
    same, done' := chain.blk.Data()[inChain..inChain + n] == mem[done..done + n], done + n;
  }

  /** The comparing loop, from a chain on. */
  method CompareFrom(buf: EvBuffer, pos: Ptr, mem: bytes, ghost k0: nat) returns (equal: bool)
    requires buf.Valid() && PtrAt(buf, pos, k0) && 0 <= pos.pos && pos.pos + |mem| <= |buf.Contents()|
    ensures equal <==> Occurs(buf.Contents(), mem, pos.pos)
  {
    var chain: Chain?, inChain: nat, done: nat := pos.chain, pos.posInChain, 0;
    ghost var k, flat := k0, buf.Contents();
    while done < |mem| && chain != null
      invariant k <= |buf.view.spine| && done <= |mem|
      invariant done < |mem| ==>
                  && k < |buf.view.spine| && chain == buf.view.spine[k] && inChain <= |buf.view.parts[k]|
                  && Offset(buf.view.parts, k) + inChain == pos.pos + done
      invariant flat[pos.pos..pos.pos + done] == mem[..done]
      decreases |buf.view.spine| - k
    {
      var same;
      same, done := ComparePiece(buf, chain, inChain, pos.pos, mem, done, k);
      if !same {
        return false;
      }
      chain, inChain, k := chain.next, 0, k + 1;
    }
    assert mem[..done] == mem;
    equal := true;
  }

  /** Comparing `n` more bytes, from byte `from` of part `k`. */
  lemma {:induction false} CompareStep(parts: seq<bytes>, k: nat, from: nat, p: nat, mem: bytes, done: nat, n: nat)
    requires k < |parts| && from + n <= |parts[k]| && Offset(parts, k) + from == p + done
    requires done + n <= |mem| && p + |mem| <= |Concat(parts)| && Concat(parts)[p..p + done] == mem[..done]
    ensures if parts[k][from..from + n] == mem[done..done + n] then Concat(parts)[p..p + done + n] == mem[..done + n]
            else !Occurs(Concat(parts), mem, p)
  {
    PartAt(parts, k, from, n);
    SliceStep(Concat(parts), p, mem, done, n);
  }

  lemma {:induction false} SliceStep(s: bytes, p: nat, mem: bytes, done: nat, n: nat)
    requires done + n <= |mem| && p + |mem| <= |s| && s[p..p + done] == mem[..done]
    ensures if s[p + done..p + done + n] == mem[done..done + n] then s[p..p + done + n] == mem[..done + n]
            else !Occurs(s, mem, p)
  {
    SubSlice(s, p, mem, done, n);
    assert s[p..p + done + n] == s[p..p + done] + s[p + done..p + done + n];
    assert mem[..done + n] == mem[..done] + mem[done..done + n];
  }

  lemma {:induction false} SubSlice(s: bytes, p: nat, mem: bytes, done: nat, n: nat)
    requires done + n <= |mem| && p + |mem| <= |s|
    ensures Occurs(s, mem, p) ==> s[p + done..p + done + n] == mem[done..done + n]
  {
    var t := s[p..p + |mem|];
    var a, b := t[done..done + n], s[p + done..p + done + n];
    assert forall j :: 0 <= j < n ==> a[j] == b[j];
  }

  /** The pattern stands nowhere from `a` to before `b`. */
  ghost predicate NoneIn(s: bytes, what: bytes, a: nat, b: nat) {
    forall q :: a <= q < b ==> !Occurs(s, what, q)
  }

  /** `n` bytes of part `k` without the first byte of the pattern can be skipped. */
  lemma {:induction false} Skip(parts: seq<bytes>, k: nat, from: nat, n: nat, what: bytes)
    requires k < |parts| && from + n <= |parts[k]| && what != []
    requires forall j :: 0 <= j < n ==> parts[k][from..][j] != what[0]
    ensures var b := Offset(parts, k) + from; b + n <= |Concat(parts)| && NoneIn(Concat(parts), what, b, b + n)
  {
    PartAt(parts, k, from, n);
    var s, b := Concat(parts), Offset(parts, k) + from;
    forall q | b <= q < b + n ensures !Occurs(s, what, q) {
      assert s[q] == s[b..b + n][q - b] == parts[k][from..from + n][q - b] == parts[k][from..][q - b];
    }
  }

  /** The memchr of evbuffer_search_range in the chain `pos` names; its result, or that chain's end. */
  method NextCandidate(buf: EvBuffer, what: bytes, pos: Ptr, ghost k: nat) returns (found: bool, r: Ptr)
    requires buf.Valid() && what != [] && PtrAt(buf, pos, k)
    ensures PtrAt(buf, r, k) && r.pos >= pos.pos && NoneIn(buf.Contents(), what, pos.pos, r.pos)
    ensures if found then r.posInChain < |buf.view.parts[k]| else r.posInChain == |buf.view.parts[k]|
  {
    ChainBounds(buf, k);
    var i := Memchr(pos.chain.blk.Data()[pos.posInChain..], what[0]);
    var n := if i >= 0 then i else pos.chain.blk.off - pos.posInChain;
    Skip(buf.view.parts, k, pos.posInChain, n, what);
    found, r := i >= 0, pos.(pos := pos.pos + n, posInChain := pos.posInChain + n);
  }

  /** The pointer `n` bytes further in its chain, or at the start of the next chain. */
  method Forward(buf: EvBuffer, pos: Ptr, n: nat, ghost k: nat) returns (r: Ptr, ghost k': nat)
    requires buf.Valid() && PtrAt(buf, pos, k) && pos.posInChain + n <= |buf.view.parts[k]|
    ensures r.pos == pos.pos + n && On(buf, r, k')
    ensures k' == k ==> r.posInChain == pos.posInChain + n
    ensures k <= k' <= k + 1 && (pos.posInChain + n == |buf.view.parts[k]| ==> k' == k + 1)
  {
    ChainBounds(buf, k);
    if pos.posInChain + n == pos.chain.blk.off {
      r, k' := Ptr(pos.pos + n, pos.chain.next, 0), k + 1;
    } else {
      r, k' := pos.(pos := pos.pos + n, posInChain := pos.posInChain + n), k;
    }
  }

  /** `p` is on chain `k`, or behind the last chain. */
  ghost predicate On(buf: EvBuffer, p: Ptr, k: nat)
    reads buf
  {
    if p.chain == null then k == |buf.view.spine| && p.pos == |buf.Contents()| else PtrAt(buf, p, k)
  }

  /** One turn of the loop of evbuffer_search_range: an answer, or the pointer to go on from. */
  method SearchStep(buf: EvBuffer, what: bytes, pos: Ptr, end: OptPtr, ghost k: nat)
    returns (done: bool, r: Ptr, ghost k': nat)
    requires buf.Valid() && what != [] && PtrAt(buf, pos, k)
    requires end.SomePtr? ==> PtrOk(buf, end.p)
    ensures !done ==> r.pos >= pos.pos && NoneIn(buf.Contents(), what, pos.pos, r.pos) && On(buf, r, k')
                      && (k' == k + 1 || (k' == k && r.posInChain > pos.posInChain))
    ensures done && r == NOT_FOUND ==> NoneBefore(buf.Contents(), what, pos.pos, end)
    ensures done && r != NOT_FOUND ==>
              && r.pos >= pos.pos && Occurs(buf.Contents(), what, r.pos)
              && NoneIn(buf.Contents(), what, pos.pos, r.pos)
              && (end.SomePtr? ==> r.pos + |what| <= end.p.pos)
              && PtrAt(buf, r, k)
  {
    var found, at := NextCandidate(buf, what, pos, k);
    if found {
      var equal := PtrMemcmp(buf, at, what);
      if equal {
        return true, if end.SomePtr? && at.pos + |what| > end.p.pos then NOT_FOUND else at, k;
      }
    } else if end.SomePtr? && pos.chain == end.p.chain {
      SameChain(buf, k, ChainOf(buf, end.p));
      return true, NOT_FOUND, k;
    }
    r, k' := Forward(buf, at, if found then 1 else 0, k);
    done := false;
  }

  /** Every occurrence from `from` on ends beyond the given end. */
  ghost predicate NoneBefore(s: bytes, what: bytes, from: nat, end: OptPtr) {
    forall q :: from <= q && Occurs(s, what, q) ==> end.SomePtr? && q + |what| > end.p.pos
  }

  /** evbuffer_search_range; evbuffer_search is the case without an end. */
  method SearchRange(buf: EvBuffer, what: bytes, start: OptPtr, end: OptPtr) returns (r: Ptr)
    requires buf.Valid()
    requires start.SomePtr? ==> PtrOk(buf, start.p)
    requires end.SomePtr? ==> PtrOk(buf, end.p)
    ensures var from := if start.NoPtr? then Ptr(0, buf.ends.first, 0) else start.p;
            from.pos >= 0 &&
            if |what| == 0 || |what| > SSIZE_MAX then r == from
            else if r == NOT_FOUND then NoneBefore(buf.Contents(), what, from.pos, end)
            else
              // The least offset at or after the start, and before the end.
              && r.pos >= from.pos && Occurs(buf.Contents(), what, r.pos)
              && NoneIn(buf.Contents(), what, from.pos, r.pos)
              && (end.SomePtr? ==> r.pos + |what| <= end.p.pos)
              && PtrOk(buf, r) && r.chain != null
  {
    StartOk(buf);
    r := if start.NoPtr? then Ptr(0, buf.ends.first, 0) else start.p;
    PtrInRange(buf, r);
    if |what| != 0 && |what| <= SSIZE_MAX {
      r := SearchChains(buf, what, r, end);
    }
  }

  /** The loop of evbuffer_search_range. */
  method SearchChains(buf: EvBuffer, what: bytes, start: Ptr, end: OptPtr) returns (r: Ptr)
    requires buf.Valid() && what != [] && PtrOk(buf, start) && start.pos >= 0
    requires end.SomePtr? ==> PtrOk(buf, end.p)
    ensures r == NOT_FOUND ==> NoneBefore(buf.Contents(), what, start.pos, end)
    ensures r != NOT_FOUND ==>
              && r.pos >= start.pos && Occurs(buf.Contents(), what, r.pos)
              && NoneIn(buf.Contents(), what, start.pos, r.pos)
              && (end.SomePtr? ==> r.pos + |what| <= end.p.pos)
              && PtrOk(buf, r) && r.chain != null
  {
    r := start;
    ghost var k := if start.chain == null then |buf.view.spine| else ChainOf(buf, start);
    var done := false;
    while r.chain != null
      invariant On(buf, r, k)
      invariant start.pos <= r.pos && NoneIn(buf.Contents(), what, start.pos, r.pos)
      decreases |buf.view.spine| - k, if k < |buf.view.parts| then |buf.view.parts[k]| - r.posInChain else 0
    {
      done, r, k := SearchStep(buf, what, r, end, k);
      if done {
        return;
      }
    }
    r := NOT_FOUND;
  }

  lemma {:induction false} SameChain(buf: EvBuffer, i: nat, j: nat)
    requires buf.Valid() && i < |buf.view.spine| && j < |buf.view.spine| && buf.view.spine[i] == buf.view.spine[j]
    ensures i == j
  {
    var spine := buf.view.spine;
    assert i < j ==> Apart(spine[i], spine[j]);
    assert j < i ==> Apart(spine[j], spine[i]);
  }
}
