/** evbuffer_add_buffer, _prepend_buffer and _remove_buffer: chains change hands without being copied. */
module EvBufferTransfer {
  import opened Bytes
  import opened EvBuffers
  import opened EvBufferDrain
  import Ops = EvBufferOps

  lemma {:induction false} OwnedJoin(a: seq<Chain>, ra: set<Chain>, b: seq<Chain>, rb: set<Chain>)
    requires Owned(a, ra) && Owned(b, rb) && ra !! rb
    ensures Owned(a + b, ra + rb)
  {
    var s := a + b;
    forall i | 0 <= i < |s| ensures s[i] in ra + rb {
      assert if i < |a| then a[i] in ra else b[i - |a|] in rb;
    }
    forall i, j | 0 <= i < j < |s| ensures Apart(s[i], s[j]) {
      if j < |a| {
        assert Apart(a[i], a[j]);
      } else if i >= |a| {
        assert Apart(b[i - |a|], b[j - |a|]);
      } else {
        assert a[i] in ra && b[j - |a|] in rb;
      }
    }
  }

  /** A null-terminated list of chains, none of them empty, outside any buffer. */
  ghost predicate Listed(spine: seq<Chain>, parts: seq<bytes>, repr: set<Chain>)
    reads repr
  {
    && Owned(spine, repr) && |parts| == |spine| > 0
    && (forall i {:trigger spine[i].next} ::
          0 <= i < |spine| ==> spine[i].next == if i + 1 < |spine| then spine[i + 1] else null)
    && (forall i {:trigger spine[i].blk} ::
          0 <= i < |spine| ==> spine[i].blk.Ok() && spine[i].blk.Data() == parts[i])
    && (forall i :: 0 <= i < |parts| ==> parts[i] != [])
  }

  /** Makes such a list the chains of `dst`. */
  method Install(dst: EvBuffer, ends: Ends, total: nat,
                 ghost spine: seq<Chain>, ghost parts: seq<bytes>, ghost repr: set<Chain>)
    requires Listed(spine, parts, repr) && total == |Concat(parts)|
    requires ends == Ends(spine[0], spine[|spine| - 1], SlotAt(spine, |spine| - 1))
    modifies dst`ends, dst`counts, dst`view
    ensures dst.Valid() && dst.Contents() == Concat(parts) && dst.view.repr == repr && dst.ends == ends
    ensures dst.counts == old(dst.counts).(total := total)
  {
    dst.ends, dst.counts, dst.view := ends, dst.counts.(total := total), View(spine, parts, repr);
  }

  /** APPEND_CHAIN; `src` still names its chains. */
  method AppendChain(dst: EvBuffer, src: EvBuffer)
    requires dst.Valid() && src.Valid() && dst.view.repr !! src.view.repr && dst != src
    requires dst.counts.total > 0 && src.counts.total > 0
    requires dst.ends.last != null && dst.ends.last in dst.view.repr
    modifies dst`ends, dst`counts, dst`view, dst.ends.last`next
    ensures dst.Valid() && dst.Contents() == old(dst.Contents() + src.Contents())
    ensures dst.view.repr == old(dst.view.repr + src.view.repr)
    ensures dst.counts == old(dst.counts).(total := old(dst.counts.total + src.counts.total))
  {
    ghost var a, b := dst.view, src.view;
    JoinFacts(a, b);
    var slot := if src.ends.lastWithDatap == First then NextOf(dst.ends.last) else src.ends.lastWithDatap;
    dst.ends.last.next := src.ends.first;
    Install(dst, Ends(dst.ends.first, src.ends.last, slot), dst.counts.total + src.counts.total,
            a.spine + b.spine, a.parts + b.parts, a.repr + b.repr);
  }

  /** PREPEND_CHAIN; `src` still names its chains. */
  method PrependChain(dst: EvBuffer, src: EvBuffer)
    requires dst.Valid() && src.Valid() && dst.view.repr !! src.view.repr && dst != src
    requires dst.counts.total > 0 && src.counts.total > 0
    requires src.ends.last != null && src.ends.last in src.view.repr
    modifies dst`ends, dst`counts, dst`view, src.ends.last`next
    ensures dst.Valid() && dst.Contents() == old(src.Contents() + dst.Contents())
    ensures dst.view.repr == old(dst.view.repr + src.view.repr)
    ensures dst.counts == old(dst.counts).(total := old(dst.counts.total + src.counts.total))
  {
    ghost var a, b := src.view, dst.view;
    JoinFacts(a, b);
    var slot := if dst.ends.lastWithDatap == First then NextOf(src.ends.last) else dst.ends.lastWithDatap;
    src.ends.last.next := dst.ends.first;
    Install(dst, Ends(src.ends.first, dst.ends.last, slot), dst.counts.total + src.counts.total,
            a.spine + b.spine, a.parts + b.parts, a.repr + b.repr);
  }

  lemma {:induction false} JoinFacts(a: View, b: View)
    requires Owned(a.spine, a.repr) && Owned(b.spine, b.repr) && a.repr !! b.repr
    requires NoEmpty(a.parts) && NoEmpty(b.parts) && Concat(a.parts) != [] && Concat(b.parts) != []
    ensures Owned(a.spine + b.spine, a.repr + b.repr)
    ensures forall i :: 0 <= i < |a.parts + b.parts| ==> (a.parts + b.parts)[i] != []
    ensures Concat(a.parts + b.parts) == Concat(a.parts) + Concat(b.parts)
    ensures a.parts != [] && b.parts != []
    ensures forall i :: 0 <= i < |a.spine| - 1 ==> a.spine[i] != a.spine[|a.spine| - 1]
    ensures forall i :: 0 <= i < |a.spine| ==> a.spine[i] in a.repr
    ensures forall i :: 0 <= i < |b.spine| ==> b.spine[i] in b.repr
  {
    PositiveParts(a.parts);
    PositiveParts(b.parts);
    OwnedJoin(a.spine, a.repr, b.spine, b.repr);
    ConcatAppend(a.parts, b.parts);
    forall i | 0 <= i < |a.spine| - 1 ensures Apart(a.spine[i], a.spine[|a.spine| - 1]) {
    }
  }

  /** COPY_CHAIN, after freeing whatever empty chain `dst` had. */
  method CopyChain(dst: EvBuffer, src: EvBuffer)
    requires dst != src && src.Valid()
    modifies dst`ends, dst`counts, dst`view
    ensures dst.Valid() && dst.Contents() == src.Contents() && dst.view.repr == src.view.repr
    ensures dst.counts == old(dst.counts).(total := src.counts.total)
  {
    dst.ends, dst.counts, dst.view := src.ends, dst.counts.(total := src.counts.total), src.view;
  }

  /** The common part of evbuffer_add_buffer and evbuffer_prepend_buffer: all of `src` goes to one end of `dst`. */
  method MoveAll(dst: EvBuffer, src: EvBuffer, atFront: bool)
    requires dst.Valid() && src.Valid() && dst != src && dst.view.repr !! src.view.repr && src.counts.total > 0
    modifies dst`ends, dst`counts, dst`view, src`ends, src`counts, src`view, dst.view.repr`next,
      src.view.repr`next
    ensures dst.Valid() && src.Valid() && src.view.repr == {} && dst.view.repr <= old(dst.view.repr + src.view.repr)
    ensures dst.Contents() == if atFront then old(src.Contents() + dst.Contents())
            else old(dst.Contents() + src.Contents())
    ensures src.Contents() == []
    ensures src.counts == old(src.counts).(total := 0)
    ensures dst.counts == old(dst.counts).(total := old(dst.counts.total + src.counts.total))
  {
    if dst.counts.total == 0 {
      CopyChain(dst, src);
    } else {
      LinkAll(dst, src, atFront);
    }
    src.ZeroChain();
  }

  method LinkAll(dst: EvBuffer, src: EvBuffer, atFront: bool)
    requires dst.Valid() && src.Valid() && dst != src && dst.view.repr !! src.view.repr
    requires dst.counts.total > 0 && src.counts.total > 0
    modifies dst`ends, dst`counts, dst`view, dst.view.repr`next, src.view.repr`next
    ensures dst.Valid() && dst.view.repr == old(dst.view.repr + src.view.repr)
    ensures dst.Contents() == if atFront then old(src.Contents() + dst.Contents())
            else old(dst.Contents() + src.Contents())
    ensures dst.counts == old(dst.counts).(total := old(dst.counts.total + src.counts.total))
  {
    PositiveParts(src.view.parts);
    PositiveParts(dst.view.parts);
    assert src.view.spine[|src.view.spine| - 1] in src.view.repr;
    assert dst.view.spine[|dst.view.spine| - 1] in dst.view.repr;
    if atFront {
      PrependChain(dst, src);
    } else {
      AppendChain(dst, src);
    }
  }

  method MoveAndTell(outbuf: EvBuffer, inbuf: EvBuffer, atFront: bool)
    requires outbuf.Valid() && inbuf.Valid() && outbuf != inbuf && outbuf.view.repr !! inbuf.view.repr
    requires inbuf.counts.total > 0
    modifies outbuf, inbuf, outbuf.view.repr, inbuf.view.repr
    ensures outbuf.Valid() && inbuf.Valid() && outbuf.view.repr !! inbuf.view.repr
    ensures outbuf.view.repr + inbuf.view.repr <= old(outbuf.view.repr + inbuf.view.repr)
    ensures outbuf.flags == old(outbuf.flags) && inbuf.flags == old(inbuf.flags)
    ensures outbuf.Contents() == if atFront then old(inbuf.Contents() + outbuf.Contents())
            else old(outbuf.Contents() + inbuf.Contents())
    ensures inbuf.Contents() == []
    ensures old(inbuf.Accounted()) ==> inbuf.Accounted()
    ensures old(outbuf.Accounted()) ==> outbuf.Accounted()
    ensures old(outbuf.Quiet()) ==>
              outbuf.Quiet() && outbuf.reports == old(outbuf.reports)
                  + Report(|outbuf.Contents()| - |old(outbuf.Contents())|, 0, |outbuf.Contents()|)
    ensures old(inbuf.Quiet()) ==>
              inbuf.Quiet() && inbuf.reports == old(inbuf.reports)
                  + Report(0, |old(inbuf.Contents())| - |inbuf.Contents()|, |inbuf.Contents()|)
  {
    var n := inbuf.counts.total;
    MoveAll(outbuf, inbuf, atFront);
    Settle(outbuf, inbuf, n, n, false);
  }

  /** Where nothing has changed nothing is reported. */
  lemma {:induction false} Silent(reports: seq<CbInfo>, total: nat)
    ensures reports + Report(0, 0, total) == reports
  {
  }

  /** evbuffer_add_buffer */
  method AddBuffer(outbuf: EvBuffer, inbuf: EvBuffer) returns (r: int)
    requires outbuf.Valid() && inbuf.Valid()
    requires outbuf != inbuf ==> outbuf.view.repr !! inbuf.view.repr
    modifies outbuf, inbuf, outbuf.view.repr, inbuf.view.repr
    ensures outbuf.Valid() && inbuf.Valid()
    ensures outbuf != inbuf ==> outbuf.view.repr !! inbuf.view.repr
    ensures outbuf.view.repr + inbuf.view.repr <= old(outbuf.view.repr + inbuf.view.repr)
    ensures outbuf.flags == old(outbuf.flags) && inbuf.flags == old(inbuf.flags)
    ensures var idle := old(inbuf.Contents()) == [] || outbuf == inbuf;
            && r == (if !idle && (outbuf.flags.freezeEnd || inbuf.flags.freezeStart) then -1 else 0)
            && (if idle || r == -1
                then outbuf.Contents() == old(outbuf.Contents()) && inbuf.Contents() == old(inbuf.Contents())
                else outbuf.Contents() == old(outbuf.Contents() + inbuf.Contents()) && inbuf.Contents() == [])
    ensures old(inbuf.Accounted()) ==> inbuf.Accounted()
    ensures old(outbuf.Accounted()) ==> outbuf.Accounted()
    // The callbacks of both are told of all that moved.
    ensures old(outbuf.Quiet()) ==>
              outbuf.Quiet() && outbuf.reports == old(outbuf.reports)
                  + Report(|outbuf.Contents()| - |old(outbuf.Contents())|, 0, |outbuf.Contents()|)
    ensures old(inbuf.Quiet()) ==>
              inbuf.Quiet() && inbuf.reports == old(inbuf.reports)
                  + Report(0, |old(inbuf.Contents())| - |inbuf.Contents()|, |inbuf.Contents()|)
  {
    Silent(outbuf.reports, |outbuf.Contents()|);
    Silent(inbuf.reports, |inbuf.Contents()|);
    if inbuf.counts.total == 0 || outbuf == inbuf {
      return 0;
    }
    if outbuf.flags.freezeEnd || inbuf.flags.freezeStart {
      return -1;
    }
    MoveAndTell(outbuf, inbuf, false);
    r := 0;
  }

  /** The counting and the callbacks, in the given order, after bytes went from `inbuf` to `outbuf`. */
  method Settle(outbuf: EvBuffer, inbuf: EvBuffer, added: nat, deleted: nat, outFirst: bool)
    requires outbuf.Valid() && inbuf.Valid() && outbuf != inbuf
    modifies outbuf`counts, outbuf`reports, outbuf`baseLen, inbuf`counts, inbuf`reports, inbuf`baseLen
    ensures outbuf.Valid() && inbuf.Valid()
    ensures old(inbuf.baseLen + inbuf.counts.added - inbuf.counts.deleted) == inbuf.counts.total + deleted ==>
            inbuf.Accounted()
    ensures old(outbuf.baseLen + outbuf.counts.added - outbuf.counts.deleted) == outbuf.counts.total - added ==>
            outbuf.Accounted()
    ensures outbuf.counts.total == old(outbuf.counts.total) && inbuf.counts.total == old(inbuf.counts.total)
    ensures old(outbuf.Quiet()) ==>
              outbuf.Quiet() && outbuf.reports == old(outbuf.reports) + Report(added, 0, outbuf.counts.total)
    ensures old(inbuf.Quiet()) ==>
              inbuf.Quiet() && inbuf.reports == old(inbuf.reports) + Report(0, deleted, inbuf.counts.total)
  {
    CountMoved(outbuf, inbuf, added, deleted);
    if outFirst {
      TellBoth(outbuf, inbuf);
    } else {
      TellBoth(inbuf, outbuf);
    }
  }

  method CountMoved(outbuf: EvBuffer, inbuf: EvBuffer, added: nat, deleted: nat)
    requires outbuf.Valid() && inbuf.Valid() && outbuf != inbuf
    modifies outbuf`counts, inbuf`counts
    ensures outbuf.Valid() && outbuf.counts == old(outbuf.counts.(added := outbuf.counts.added + added))
    ensures inbuf.Valid() && inbuf.counts == old(inbuf.counts.(deleted := inbuf.counts.deleted + deleted))
  {
    inbuf.CountDeleted(deleted);
    outbuf.CountAdded(added);
  }

  method TellBoth(first: EvBuffer, second: EvBuffer)
    requires first.Valid() && second.Valid() && first != second
    modifies first`counts, first`reports, first`baseLen, second`counts, second`reports, second`baseLen
    ensures first.Valid() && (old(first.Accounted()) ==> first.Accounted())
    ensures second.Valid() && (old(second.Accounted()) ==> second.Accounted())
    ensures first.counts.total == old(first.counts.total) && second.counts.total == old(second.counts.total)
    ensures first.Prompt() ==>
              first.Quiet() && first.reports == old(first.reports + Report(first.counts.added, first.counts.deleted,
                                                                           first.counts.total))
    ensures second.Prompt() ==>
              second.Quiet() && second.reports == old(second.reports + Report(second.counts.added,
                                                                              second.counts.deleted,
                                                                              second.counts.total))
  {
    first.RunCallbacks(false);
    second.RunCallbacks(false);
  }

  /** evbuffer_prepend_buffer */
  method PrependBuffer(outbuf: EvBuffer, inbuf: EvBuffer) returns (r: int)
    requires outbuf.Valid() && inbuf.Valid()
    requires outbuf != inbuf ==> outbuf.view.repr !! inbuf.view.repr
    modifies outbuf, inbuf, outbuf.view.repr, inbuf.view.repr
    ensures outbuf.Valid() && inbuf.Valid()
    ensures outbuf != inbuf ==> outbuf.view.repr !! inbuf.view.repr
    ensures outbuf.view.repr + inbuf.view.repr <= old(outbuf.view.repr + inbuf.view.repr)
    ensures outbuf.flags == old(outbuf.flags) && inbuf.flags == old(inbuf.flags)
    ensures var idle := old(inbuf.Contents()) == [] || outbuf == inbuf;
            && r == (if !idle && (outbuf.flags.freezeStart || inbuf.flags.freezeStart) then -1 else 0)
            && (if idle || r == -1
                then outbuf.Contents() == old(outbuf.Contents()) && inbuf.Contents() == old(inbuf.Contents())
                else outbuf.Contents() == old(inbuf.Contents() + outbuf.Contents()) && inbuf.Contents() == [])
    ensures old(inbuf.Accounted()) ==> inbuf.Accounted()
    ensures old(outbuf.Accounted()) ==> outbuf.Accounted()
    // The callbacks of both are told of all that moved.
    ensures old(outbuf.Quiet()) ==>
              outbuf.Quiet() && outbuf.reports == old(outbuf.reports)
                  + Report(|outbuf.Contents()| - |old(outbuf.Contents())|, 0, |outbuf.Contents()|)
    ensures old(inbuf.Quiet()) ==>
              inbuf.Quiet() && inbuf.reports == old(inbuf.reports)
                  + Report(0, |old(inbuf.Contents())| - |inbuf.Contents()|, |inbuf.Contents()|)
  {
    Silent(outbuf.reports, |outbuf.Contents()|);
    Silent(inbuf.reports, |inbuf.Contents()|);
    if inbuf.counts.total == 0 || outbuf == inbuf {
      return 0;
    }
    if outbuf.flags.freezeStart || inbuf.flags.freezeStart {
      return -1;
    }
    MoveAndTell(outbuf, inbuf, true);
    r := 0;
  }

  /** advance_last_with_data */
  method AdvanceLastWithData(buf: EvBuffer, ghost spine: seq<Chain>, ghost parts: seq<bytes>, ghost repr: set<Chain>,
      ghost at: nat)
    returns (slot: Slot)
    requires Listed(spine, parts, repr) && buf.ends.first == spine[0]
    requires at < |spine| && buf.ends.lastWithDatap == SlotAt(spine, at)
    ensures slot == SlotAt(spine, |spine| - 1)
  {
    slot := buf.ends.lastWithDatap;
    ghost var i := at;
    while buf.Deref(slot).next != null && buf.Deref(slot).next.blk.off != 0
      invariant i < |spine| && slot == SlotAt(spine, i)
      invariant buf.Deref(slot) == spine[i]
      decreases |spine| - i
    {
      slot := NextOf(buf.Deref(slot));
      i := i + 1;
    }
  }

  /** evbuffer_remove_buffer hangs the list from `head` to `tail` behind the chains of `dst`. */
  method HangBehind(dst: EvBuffer, head: Chain, tail: Chain, n: nat,
                    ghost spine: seq<Chain>, ghost parts: seq<bytes>, ghost repr: set<Chain>)
    requires dst.Valid() && Listed(spine, parts, repr) && repr !! dst.view.repr
    requires head == spine[0] && tail == spine[|spine| - 1] && n == |Concat(parts)|
    modifies dst`ends, dst`counts, dst`view, dst.view.repr`next
    ensures dst.Valid() && dst.Contents() == old(dst.Contents()) + Concat(parts)
    ensures dst.view.repr == old(dst.view.repr) + repr
    ensures dst.counts == old(dst.counts.(total := dst.counts.total + n))
  {
    ghost var was := dst.view;
    assert was.spine != [] ==> was.spine[|was.spine| - 1] in was.repr;
    var chp := dst.FreeTrailingEmptyChains();
    if chp == First {
      HangOnly(dst, head, tail, n, spine, parts, repr);
    } else {
      HangLast(dst, head, tail, n, spine, parts, repr);
    }
  }

  method HangOnly(dst: EvBuffer, head: Chain, tail: Chain, n: nat,
                  ghost spine: seq<Chain>, ghost parts: seq<bytes>, ghost repr: set<Chain>)
    requires dst.counts.total == 0 && dst.ends.lastWithDatap == First && Listed(spine, parts, repr)
    requires head == spine[0] && tail == spine[|spine| - 1] && n == |Concat(parts)|
    modifies dst`ends, dst`counts, dst`view
    ensures dst.Valid() && dst.Contents() == Concat(parts) && dst.view.repr == old(dst.view.repr) + repr
    ensures dst.counts == old(dst.counts.(total := dst.counts.total + n))
  {
    forall i | 0 <= i < |spine| ensures spine[i] in repr {
    }
    dst.ends := dst.ends.(first := head, last := tail);
    TakeOver(dst, n, spine, parts, dst.view.repr + repr, 0);
  }

  method HangLast(dst: EvBuffer, head: Chain, tail: Chain, n: nat,
                  ghost spine: seq<Chain>, ghost parts: seq<bytes>, ghost repr: set<Chain>)
    requires dst.Valid() && dst.counts.total > 0 && dst.ends.last != null && dst.ends.last in dst.view.repr
    requires Listed(spine, parts, repr) && repr !! dst.view.repr
    requires head == spine[0] && tail == spine[|spine| - 1] && n == |Concat(parts)|
    modifies dst`ends, dst`counts, dst`view, dst.ends.last`next
    ensures dst.Valid() && dst.Contents() == old(dst.Contents()) + Concat(parts)
    ensures dst.view.repr == old(dst.view.repr) + repr
    ensures dst.counts == old(dst.counts.(total := dst.counts.total + n))
  {
    ghost var a := dst.view;
    PositiveParts(a.parts);
    OwnedJoin(a.spine, a.repr, spine, repr);
    ConcatAppend(a.parts, parts);
    forall i | 0 <= i < |a.spine| - 1 ensures Apart(a.spine[i], a.spine[|a.spine| - 1]) && a.spine[i] in a.repr {
    }
    forall i | 0 <= i < |spine| ensures spine[i] in repr {
    }
    dst.ends.last.next, dst.ends := head, dst.ends.(last := tail);
    TakeOver(dst, n, a.spine + spine, a.parts + parts, a.repr + repr, |a.spine| - 1);
  }

  /** `n` bytes more have been linked to the chains of `dst`; its last chain with data has still to be found. */
  method TakeOver(dst: EvBuffer, n: nat, ghost spine: seq<Chain>, ghost parts: seq<bytes>, ghost repr: set<Chain>,
                  ghost at: nat)
    requires Listed(spine, parts, repr) && dst.counts.total + n == |Concat(parts)|
    requires dst.ends.first == spine[0] && dst.ends.last == spine[|spine| - 1]
    requires at < |spine| && dst.ends.lastWithDatap == SlotAt(spine, at)
    modifies dst`ends, dst`counts, dst`view
    ensures dst.Valid() && dst.Contents() == Concat(parts) && dst.view.repr == repr
    ensures dst.counts == old(dst.counts.(total := dst.counts.total + n))
  {
    var slot := AdvanceLastWithData(dst, spine, parts, repr, at);
    Install(dst, dst.ends.(lastWithDatap := slot), dst.counts.total + n, spine, parts, repr);
  }

  /** Cuts the first `k` chains off `src`, as a list of their own. */
  method Detach(src: EvBuffer, ghost k: nat, chain: Chain, previous: Chain, n: nat, slot: Slot)
    requires src.Valid()
    requires 0 < k < |src.view.spine| && chain == src.view.spine[k] && previous == src.view.spine[k - 1]
    requires chain in src.view.repr && previous in src.view.repr
    requires n == Offset(src.view.parts, k) && slot == SlotAt(src.view.spine[k..], |src.view.spine| - k - 1)
    modifies src`ends, src`counts, src`view, previous`next
    ensures src.Valid() && n <= |old(src.Contents())| && src.Contents() == old(src.Contents())[n..]
    ensures src.counts == old(src.counts).(total := old(src.counts.total) - n)
    ensures src.view.spine == old(src.view.spine)[k..] && src.ends.first == chain
    ensures src.view.repr == old(src.view.repr) - ChainSet(old(src.view.spine)[..k])
    ensures ChainSet(old(src.view.spine)[..k]) <= old(src.view.repr)
    ensures Listed(old(src.view.spine)[..k], old(src.view.parts)[..k], ChainSet(old(src.view.spine)[..k]))
    ensures Concat(old(src.view.parts)[..k]) == old(src.Contents())[..n]
  {
    ghost var spine, parts := src.view.spine, src.view.parts;
    FrontBytes(parts, k, n);
    OwnedUpTo(spine, src.view.repr, k);
    src.Unlink(k, chain, n, slot);
    previous.next := null;
  }

  lemma {:induction false} FrontBytes(parts: seq<bytes>, k: nat, n: nat)
    requires k <= |parts| && n == Offset(parts, k)
    ensures n <= |Concat(parts)| && Concat(parts[..k]) == Concat(parts)[..n]
  {
    OffsetIs(parts, k);
    ConcatSplit(parts, k);
  }

  /** The part of evbuffer_remove_buffer that hands over the first `k` chains whole. */
  method RemoveChains(src: EvBuffer, dst: EvBuffer, ghost k: nat, chain: Chain, previous: Chain, n: nat, slot: Slot)
    requires src.Valid() && dst.Valid() && src != dst && src.view.repr !! dst.view.repr
    requires 0 < k < |src.view.spine| && chain == src.view.spine[k] && previous == src.view.spine[k - 1]
    requires chain in src.view.repr && previous in src.view.repr
    requires n == Offset(src.view.parts, k) && slot == SlotAt(src.view.spine[k..], |src.view.spine| - k - 1)
    modifies src`ends, src`counts, src`view, dst`ends, dst`counts, dst`view, src.view.repr`next, dst.view.repr`next
    ensures src.Valid() && dst.Valid() && src.view.repr !! dst.view.repr
    ensures src.view.repr + dst.view.repr <= old(src.view.repr + dst.view.repr)
    ensures n <= |old(src.Contents())| && src.Contents() == old(src.Contents())[n..]
    ensures dst.Contents() == old(dst.Contents()) + old(src.Contents())[..n]
    ensures src.counts == old(src.counts).(total := old(src.counts.total) - n)
    ensures dst.counts == old(dst.counts).(total := old(dst.counts.total) + n)
    ensures src.ends.first == chain
  {
    ghost var spine, parts := src.view.spine, src.view.parts;
    var head := src.ends.first;
    assert spine[..k][0] == head && spine[..k][k - 1] == previous;
    Detach(src, k, chain, previous, n, slot);
    HangBehind(dst, head, previous, n, spine[..k], parts[..k], ChainSet(spine[..k]));
  }

  lemma {:induction false} OwnedUpTo(spine: seq<Chain>, repr: set<Chain>, k: nat)
    requires Owned(spine, repr) && 0 < k <= |spine|
    ensures Owned(spine[..k], ChainSet(spine[..k])) && ChainSet(spine[..k]) <= repr
    ensures forall i :: 0 <= i < |spine| && i != k - 1 ==> spine[i] != spine[k - 1]
    ensures forall i :: k <= i < |spine| ==> spine[i] !in ChainSet(spine[..k])
  {
    forall i | 0 <= i < k ensures spine[i] in repr && spine[..k][i] in ChainSet(spine[..k]) {
    }
    forall i, j | 0 <= i < j < |spine| ensures spine[i] != spine[j] && (j < k ==> Apart(spine[..k][i], spine[..k][j])) {
      assert Apart(spine[i], spine[j]);
    }
  }

  /** The walk of evbuffer_remove_buffer and the hand-over of whole chains; `left` bytes remain to be moved. */
  method RemoveFront(src: EvBuffer, dst: EvBuffer, datlen: nat) returns (left: nat)
    requires src.Valid() && dst.Valid() && src != dst && src.view.repr !! dst.view.repr && datlen < src.counts.total
    modifies src`ends, src`counts, src`view, dst`ends, dst`counts, dst`view, src.view.repr`next, dst.view.repr`next
    ensures src.Valid() && dst.Valid() && src.view.repr !! dst.view.repr
    ensures src.view.repr + dst.view.repr <= old(src.view.repr + dst.view.repr)
    ensures left <= datlen && src.Contents() == old(src.Contents())[datlen - left..]
    ensures dst.Contents() == old(dst.Contents()) + old(src.Contents())[..datlen - left]
    ensures src.counts == old(src.counts).(total := old(src.counts.total) - (datlen - left))
    ensures dst.counts == Counts(old(dst.counts.total) + datlen - left, old(dst.counts.added) + datlen - left,
            old(dst.counts.deleted))
    ensures src.ends.first != null && src.ends.first in src.view.repr && left < src.ends.first.blk.off
  {
    var chain, previous, rest, slot, k := FrontWalk(src, datlen);
    left := rest;
    var n := datlen - left;
    ghost var parts := src.view.parts;
    if previous != null {
      assert src.view.spine[k - 1] in src.view.repr;
      RemoveChains(src, dst, k, chain, previous, n, slot);
      dst.CountAdded(n);
      assert src.view.spine[0] in src.view.repr;
    } else {
      assert parts[..0] == [];
    }
  }

  /** The copied part of evbuffer_remove_buffer: evbuffer_add takes the bytes, then the chain gives them up. */
  method RemoveRest(src: EvBuffer, dst: EvBuffer, left: nat)
    requires src.Valid() && dst.Valid() && src != dst && src.view.repr !! dst.view.repr
    requires src.ends.first != null && src.ends.first in src.view.repr && left < src.ends.first.blk.off
    modifies src`ends, src`counts, src`view, dst, src.view.repr, dst.view.repr
    ensures src.Valid() && dst.Valid() && src.view.repr !! dst.view.repr && dst.flags == old(dst.flags)
    ensures fresh(src.view.repr + dst.view.repr - old(src.view.repr + dst.view.repr))
    ensures left <= |old(src.Contents())| && src.Contents() == old(src.Contents())[left..]
    ensures !dst.flags.freezeEnd && |old(dst.Contents())| + left <= SIZE_MAX ==>
              dst.Contents() == old(dst.Contents()) + old(src.Contents())[..left]
    ensures src.counts == old(src.counts).(total := old(src.counts.total) - left)
    ensures old(dst.Accounted()) ==> dst.Accounted()
    ensures dst.Prompt() && !dst.flags.freezeEnd && |old(dst.Contents())| + left <= SIZE_MAX ==>
              dst.Quiet() && dst.reports == old(dst.reports) + Report(old(dst.counts.added) + left,
                                                                      old(dst.counts.deleted), |dst.Contents()|)
  {
    var chain := src.ends.first;
    PartAt(src.view.parts, 0, 0, left);
    assert chain == src.view.spine[0] && chain.blk.Data()[..left] == src.Contents()[..left];
    AddPiece(dst, chain.blk.Data()[..left]);
    src.DropHead(left);
  }

  /** evbuffer_add of bytes that some chain holds. */
  method AddPiece(dst: EvBuffer, piece: bytes)
    requires dst.Valid() && ChainFits(|piece|)
    modifies dst, dst.view.repr
    ensures dst.Valid() && fresh(dst.view.repr - old(dst.view.repr)) && dst.flags == old(dst.flags)
    ensures old(dst.Accounted()) ==> dst.Accounted()
    ensures !dst.flags.freezeEnd && |old(dst.Contents())| + |piece| <= SIZE_MAX ==>
              && dst.Contents() == old(dst.Contents()) + piece
              && (dst.Prompt() ==>
                    dst.Quiet() && dst.reports == old(dst.reports) + Report(old(dst.counts.added) + |piece|,
                                                                            old(dst.counts.deleted), |dst.Contents()|))
  {
    var added := Ops.Add(dst, piece);
  }

  method RemoveSome(src: EvBuffer, dst: EvBuffer, datlen: nat)
    requires src.Valid() && dst.Valid() && src != dst && src.view.repr !! dst.view.repr && datlen < src.counts.total
    modifies src`ends, src`counts, src`view, dst, src.view.repr, dst.view.repr
    ensures src.Valid() && dst.Valid() && src.view.repr !! dst.view.repr && dst.flags == old(dst.flags)
    ensures fresh(src.view.repr + dst.view.repr - old(src.view.repr + dst.view.repr))
    ensures src.Contents() == old(src.Contents())[datlen..]
    ensures !dst.flags.freezeEnd && |old(dst.Contents())| + datlen <= SIZE_MAX ==>
              dst.Contents() == old(dst.Contents()) + old(src.Contents())[..datlen]
    ensures src.counts == old(src.counts).(total := old(src.counts.total) - datlen)
    ensures old(dst.Accounted()) ==> dst.Accounted()
    ensures old(dst.Quiet()) && !dst.flags.freezeEnd && |old(dst.Contents())| + datlen <= SIZE_MAX ==>
              dst.Quiet() && dst.reports == old(dst.reports) + Report(datlen, 0, |dst.Contents()|)
  {
    ghost var was, before := src.Contents(), dst.Contents();
    var left := RemoveFront(src, dst, datlen);
    RemoveRest(src, dst, left);
    TwoSteps(before, was, datlen - left, datlen);
  }

  lemma {:induction false} TwoSteps(d: bytes, s: bytes, a: nat, b: nat)
    requires a <= b <= |s|
    ensures s[a..][b - a..] == s[b..] && d + s[..a] + s[a..][..b - a] == d + s[..b]
  {
  }

  /** evbuffer_remove_buffer */
  method RemoveBuffer(src: EvBuffer, dst: EvBuffer, datlen: nat) returns (r: int)
    requires src.Valid() && dst.Valid()
    requires src != dst ==> src.view.repr !! dst.view.repr
    modifies src, dst, src.view.repr, dst.view.repr
    ensures src.Valid() && dst.Valid()
    ensures src != dst ==> src.view.repr !! dst.view.repr
    ensures fresh(src.view.repr + dst.view.repr - old(src.view.repr + dst.view.repr))
    ensures src.flags == old(src.flags) && dst.flags == old(dst.flags)
    ensures datlen == 0 || src == dst ==> r == 0
    ensures datlen > 0 && src != dst && (dst.flags.freezeEnd || src.flags.freezeStart) ==> r == -1
    ensures datlen == 0 || src == dst || dst.flags.freezeEnd || src.flags.freezeStart ==>
              src.Contents() == old(src.Contents()) && dst.Contents() == old(dst.Contents())
    // Otherwise the bytes asked for, as far as there are any, move in order. (No address space holds more than
    // SIZE_MAX.)
    ensures datlen > 0 && src != dst && !dst.flags.freezeEnd && !src.flags.freezeStart ==>
              var n := if datlen >= |old(src.Contents())| then |old(src.Contents())| else datlen;
              && r == CInt(n)
              && src.Contents() == old(src.Contents())[n..]
              && (|old(dst.Contents())| + n <= SIZE_MAX ==>
                  dst.Contents() == old(dst.Contents()) + old(src.Contents())[..n])
    ensures old(src.Accounted()) ==> src.Accounted()
    ensures old(dst.Accounted()) ==> dst.Accounted()
    // The callbacks of both are told of all that moved, those of the destination once for chains and copied bytes.
    ensures old(src.Quiet()) ==>
              src.Quiet() && src.reports == old(src.reports)
                  + Report(0, |old(src.Contents())| - |src.Contents()|, |src.Contents()|)
    ensures old(dst.Quiet()) && |old(dst.Contents())| + |old(src.Contents())| <= SIZE_MAX ==>
              dst.Quiet() && dst.reports == old(dst.reports)
                  + Report(|dst.Contents()| - |old(dst.Contents())|, 0, |dst.Contents()|)
  {
    if datlen == 0 || src == dst {
      return 0;
    }
    if dst.flags.freezeEnd || src.flags.freezeStart {
      return -1;
    }
    var n := if datlen >= src.counts.total then src.counts.total else datlen;
    RemoveFirst(src, dst, n);
    r := CInt(n);
  }

  /** The first `n` bytes, which may be all there are. */
  method RemoveFirst(src: EvBuffer, dst: EvBuffer, n: nat)
    requires src.Valid() && dst.Valid() && src != dst && src.view.repr !! dst.view.repr && n <= src.counts.total
    requires !dst.flags.freezeEnd && !src.flags.freezeStart
    modifies src, dst, src.view.repr, dst.view.repr
    ensures src.Valid() && dst.Valid() && src.view.repr !! dst.view.repr
    ensures fresh(src.view.repr + dst.view.repr - old(src.view.repr + dst.view.repr))
    ensures src.flags == old(src.flags) && dst.flags == old(dst.flags)
    ensures src.Contents() == old(src.Contents())[n..]
    ensures |old(dst.Contents())| + n <= SIZE_MAX ==>
              dst.Contents() == old(dst.Contents()) + old(src.Contents())[..n]
    ensures old(src.Accounted()) ==> src.Accounted()
    ensures old(dst.Accounted()) ==> dst.Accounted()
    ensures old(src.Quiet()) ==> src.Quiet() && src.reports == old(src.reports) + Report(0, n, |src.Contents()|)
    ensures old(dst.Quiet()) && |old(dst.Contents())| + n <= SIZE_MAX ==>
              dst.Quiet() && dst.reports == old(dst.reports) + Report(n, 0, |dst.Contents()|)
  {
    if n == src.counts.total {
      assert src.Contents()[..n] == src.Contents();
      var added := AddBuffer(dst, src);
    } else {
      RemovePart(src, dst, n);
    }
  }

  method RemovePart(src: EvBuffer, dst: EvBuffer, datlen: nat)
    requires src.Valid() && dst.Valid() && src != dst && src.view.repr !! dst.view.repr && datlen < src.counts.total
    modifies src, dst, src.view.repr, dst.view.repr
    ensures src.Valid() && dst.Valid() && src.view.repr !! dst.view.repr
    ensures fresh(src.view.repr + dst.view.repr - old(src.view.repr + dst.view.repr))
    ensures src.flags == old(src.flags) && dst.flags == old(dst.flags)
    ensures src.Contents() == old(src.Contents())[datlen..]
    ensures !dst.flags.freezeEnd && |old(dst.Contents())| + datlen <= SIZE_MAX ==>
              dst.Contents() == old(dst.Contents()) + old(src.Contents())[..datlen]
    ensures old(src.Accounted()) ==> src.Accounted()
    ensures old(dst.Accounted()) ==> dst.Accounted()
    ensures old(src.Quiet()) ==>
              src.Quiet() && src.reports == old(src.reports) + Report(0, datlen, |src.Contents()|)
    ensures old(dst.Quiet()) && !dst.flags.freezeEnd && |old(dst.Contents())| + datlen <= SIZE_MAX ==>
              dst.Quiet() && dst.reports == old(dst.reports) + Report(datlen, 0, |dst.Contents()|)
  {
    RemoveSome(src, dst, datlen);
    Settle(dst, src, 0, datlen, true);
  }
}
