/** evbuffer_add and evbuffer_prepend. */
module EvBufferOps {
  import opened Bytes
  import opened EvBuffers

  /** evbuffer_add finds or can allocate room for `n` more bytes. */
  ghost predicate CanAdd(buf: EvBuffer, n: nat)
    requires buf.Valid()
    reads buf, buf.view.repr
  {
    && !buf.flags.freezeEnd
    && n <= SIZE_MAX - buf.counts.total
    && if buf.ends.last == null then ChainFits(n) else
         assert buf.view.spine[|buf.view.spine| - 1] in buf.view.repr;
         RoomBehind(buf.ends.last.blk, n)
  }

  /** There is room behind the data of `b`, or after realigning it, or in a new chain. */
  predicate RoomBehind(b: Block, n: nat) {
    || b.misalign + b.off + n <= |b.mem|
    || ShouldRealign(|b.mem|, b.off, n)
    || ChainFits(n)
  }

  lemma {:induction false} AppendSplit(s: bytes, data: bytes, k: nat)
    requires k <= |data|
    ensures s + data[..k] + data[k..] == s + data
    ensures k == 0 ==> s + data[k..] == s + data
  {
  }

  method AddToNewChain(buf: EvBuffer, data: bytes, remain: nat) returns (ok: bool)
    requires buf.Valid() && buf.ends.last != null && buf.ends.last in buf.view.repr
    requires var b := buf.ends.last.blk; b.misalign + b.off + remain == |b.mem| && remain < |data|
    modifies buf, buf.view.repr
    ensures buf.Valid() && fresh(buf.view.repr - old(buf.view.repr)) && buf.flags == old(buf.flags)
    ensures ok == ChainFits(|data|)
    ensures !ok ==> buf.Contents() == old(buf.Contents()) && buf.counts == old(buf.counts)
    ensures ok ==> buf.Contents() == old(buf.Contents()) + data
    ensures ok ==> buf.counts.added == old(buf.counts.added) + |data| && buf.counts.deleted == old(buf.counts.deleted)
    ensures buf.baseLen == old(buf.baseLen) && buf.reports == old(buf.reports)
  {
    var tmp := ChainNewHolding(GrowSize(|buf.ends.last.blk.mem|, |data|), data[remain..], false);
    if tmp == null {
      return false;
    }
    if remain != 0 {
      buf.FillTail(data[..remain]);
    }
    buf.ChainInsert(tmp);
    AppendSplit(old(buf.Contents()), data, remain);
    buf.CountAdded(|data| - remain);
    ok := true;
  }

  method AddFirstChain(buf: EvBuffer, data: bytes) returns (ok: bool)
    requires buf.Valid() && buf.ends.last == null
    modifies buf, buf.view.repr
    ensures buf.Valid() && fresh(buf.view.repr - old(buf.view.repr)) && buf.flags == old(buf.flags)
    ensures ok == ChainFits(|data|)
    ensures !ok ==> buf.Contents() == old(buf.Contents()) && buf.counts == old(buf.counts)
    ensures ok ==>
              buf.Contents() == data
              && buf.counts == Counts(|data|, old(buf.counts.added) + |data|, old(buf.counts.deleted))
              && buf.ends.first != null && buf.ends.first in buf.view.repr && buf.ends.first.blk.misalign == 0
    ensures buf.baseLen == old(buf.baseLen) && buf.reports == old(buf.reports)
  {
    var chain := ChainNew(|data|);
    if chain == null {
      return false;
    }
    buf.ChainInsert(chain);
    buf.FillTail(data);
    ok := true;
  }

  method AddBehindLast(buf: EvBuffer, data: bytes) returns (ok: bool)
    requires buf.Valid() && buf.ends.last != null && buf.ends.last in buf.view.repr
    modifies buf, buf.view.repr
    ensures buf.Valid() && fresh(buf.view.repr - old(buf.view.repr)) && buf.flags == old(buf.flags)
    ensures ok == old(RoomBehind(buf.ends.last.blk, |data|))
    ensures !ok ==> buf.Contents() == old(buf.Contents()) && buf.counts == old(buf.counts)
    ensures ok ==> buf.Contents() == old(buf.Contents()) + data
    ensures ok ==> buf.counts.added == old(buf.counts.added) + |data| && buf.counts.deleted == old(buf.counts.deleted)
    ensures buf.baseLen == old(buf.baseLen) && buf.reports == old(buf.reports)
  {
    var blk := buf.ends.last.blk;
    var remain := |blk.mem| - blk.misalign - blk.off;
    if remain >= |data| {
      buf.FillTail(data);
      ok := true;
    } else if ShouldRealign(|blk.mem|, blk.off, |data|) {
      var aligned := blk.Align();
      buf.Restore(buf.ends.last, aligned);
      buf.FillTail(data);
      ok := true;
    } else {
      ok := AddToNewChain(buf, data, remain);
    }
  }

  /** evbuffer_add */
  method Add(buf: EvBuffer, data: bytes) returns (r: int)
    requires buf.Valid()
    modifies buf, buf.view.repr
    ensures buf.Valid() && fresh(buf.view.repr - old(buf.view.repr)) && buf.flags == old(buf.flags)
    ensures r == if old(CanAdd(buf, |data|)) then 0 else -1
    ensures buf.Contents() == if r == 0 then old(buf.Contents()) + data else old(buf.Contents())
    ensures old(buf.Accounted()) ==> buf.Accounted()
    ensures r == 0 && !buf.flags.deferredCbs ==> buf.counts.added == 0 && buf.counts.deleted == 0
    // The callbacks are told of exactly the data that was added, and of what was waiting.
    ensures buf.Prompt() && r == 0 ==>
              buf.reports == old(buf.reports) + Report(old(buf.counts.added) + |data|, old(buf.counts.deleted),
                                                       |buf.Contents()|)
    ensures r == -1 ==> buf.reports == old(buf.reports) && buf.counts == old(buf.counts)
    // In an empty buffer the data starts at the front of its chain.
    ensures r == 0 && old(buf.ends.last) == null ==>
              buf.ends.first != null && buf.ends.first in buf.view.repr && buf.ends.first.blk.misalign == 0
  {
    if buf.flags.freezeEnd || |data| > SIZE_MAX - buf.counts.total {
      return -1;
    }
    var ok := AddBytes(buf, data);
    if !ok {
      return -1;
    }
    buf.RunCallbacks(false);
    r := 0;
  }

  method AddBytes(buf: EvBuffer, data: bytes) returns (ok: bool)
    requires buf.Valid() && !buf.flags.freezeEnd && |data| <= SIZE_MAX - buf.counts.total
    modifies buf, buf.view.repr
    ensures buf.Valid() && fresh(buf.view.repr - old(buf.view.repr)) && buf.flags == old(buf.flags)
    ensures ok == old(CanAdd(buf, |data|))
    ensures !ok ==> buf.Contents() == old(buf.Contents()) && buf.counts == old(buf.counts)
    ensures ok ==> buf.Contents() == old(buf.Contents()) + data
    ensures ok ==> buf.counts.added == old(buf.counts.added) + |data| && buf.counts.deleted == old(buf.counts.deleted)
    ensures ok && old(buf.ends.last) == null ==>
              buf.ends.first != null && buf.ends.first in buf.view.repr && buf.ends.first.blk.misalign == 0
    ensures buf.baseLen == old(buf.baseLen) && buf.reports == old(buf.reports)
  {
    if buf.ends.last == null {
      ok := AddFirstChain(buf, data);
    } else {
      assert buf.view.spine[|buf.view.spine| - 1] in buf.view.repr;
      ok := AddBehindLast(buf, data);
    }
  }

  /** Room in front of the data of the first chain, once evbuffer_prepend has looked at it. */
  ghost function Headroom(buf: EvBuffer): nat
    requires buf.Valid() && buf.ends.first != null
    reads buf, buf.view.repr
  {
    assert buf.view.spine[0] in buf.view.repr;
    var b := buf.ends.first.blk;
    if b.off == 0 then |b.mem| else b.misalign
  }

  method PrependFirstChain(buf: EvBuffer, data: bytes) returns (ok: bool)
    requires buf.Valid() && buf.ends.first == null
    modifies buf, buf.view.repr
    ensures buf.Valid() && fresh(buf.view.repr - old(buf.view.repr)) && buf.flags == old(buf.flags)
    ensures ok == ChainFits(|data|)
    ensures !ok ==> buf.Contents() == old(buf.Contents()) && buf.counts == old(buf.counts)
    ensures ok ==>
              buf.ends.first != null && buf.Contents() == [] && buf.counts == old(buf.counts)
              && Headroom(buf) >= |data|
    ensures buf.baseLen == old(buf.baseLen) && buf.reports == old(buf.reports)
  {
    var chain := ChainNew(|data|);
    if chain == null {
      return false;
    }
    buf.ChainInsert(chain);
    ok := true;
  }

  /** The part of evbuffer_prepend that fits in front of the first chain; `left` bytes did not. */
  method PrependInPlace(buf: EvBuffer, data: bytes) returns (left: nat)
    requires buf.Valid() && buf.ends.first != null && buf.ends.first in buf.view.repr
    modifies buf, buf.view.repr
    ensures buf.Valid() && buf.view.repr == old(buf.view.repr) && buf.flags == old(buf.flags)
    ensures left == if old(Headroom(buf)) >= |data| then 0 else |data| - old(Headroom(buf))
    ensures buf.Contents() == data[left..] + old(buf.Contents())
    ensures left > 0 ==>
              buf.counts.total > 0 && buf.ends.first != null && buf.ends.first in buf.view.repr
              && buf.ends.first.blk.misalign == 0
    ensures buf.counts == old(buf.counts).(total := |buf.Contents()|, added := old(buf.counts.added) + |data| - left)
    ensures buf.baseLen == old(buf.baseLen) && buf.reports == old(buf.reports)
  {
    var blk := buf.ends.first.blk;
    if blk.off == 0 {
      blk := blk.(misalign := |blk.mem|);
      buf.Restore(buf.ends.first, blk);
    } else {
      assert buf.view.spine[0].blk.off == |buf.view.parts[0]|;
    }
    if blk.misalign >= |data| {
      buf.FillHead(data);
      left := 0;
    } else if blk.misalign != 0 {
      left := |data| - blk.misalign;
      buf.FillHead(data[left..]);
    } else {
      left := |data|;
      PositiveParts(buf.view.parts);
    }
  }

  method PrependNewChain(buf: EvBuffer, rest: bytes) returns (ok: bool)
    requires buf.Valid() && buf.counts.total > 0 && rest != []
    requires buf.ends.first != null && buf.ends.first in buf.view.repr && buf.ends.first.blk.misalign == 0
    modifies buf, buf.view.repr
    ensures buf.Valid() && fresh(buf.view.repr - old(buf.view.repr)) && buf.flags == old(buf.flags)
    ensures ok == ChainFits(|rest|)
    ensures buf.Contents() == (if ok then rest else []) + old(buf.Contents())
    ensures buf.counts == old(buf.counts).(total := |buf.Contents()|)
    ensures buf.baseLen == old(buf.baseLen) && buf.reports == old(buf.reports)
  {
    var chain := buf.ends.first;
    var tmp := ChainNewHolding(|rest|, rest, true);
    if tmp == null {
      return false;
    }
    buf.LinkFirst(tmp, tmp.blk);
    // The original adds the old first chain's misalignment here, not the bytes it has just stored.
    buf.CountAdded(chain.blk.misalign);
    ok := true;
  }

  method PrependBytes(buf: EvBuffer, data: bytes) returns (left: nat, ok: bool)
    requires buf.Valid() && buf.ends.first != null && buf.ends.first in buf.view.repr
    modifies buf, buf.view.repr
    ensures buf.Valid() && fresh(buf.view.repr - old(buf.view.repr)) && buf.flags == old(buf.flags)
    ensures left == if old(Headroom(buf)) >= |data| then 0 else |data| - old(Headroom(buf))
    ensures ok == ChainFits(left)
    ensures buf.Contents() == (if ok then data else data[left..]) + old(buf.Contents())
    ensures buf.counts == old(buf.counts).(total := |buf.Contents()|, added := old(buf.counts.added) + |data| - left)
    ensures buf.baseLen == old(buf.baseLen) && buf.reports == old(buf.reports)
  {
    left := PrependInPlace(buf, data);
    ok := true;
    if left != 0 {
      ok := PrependNewChain(buf, data[..left]);
      assert data[..left] + (data[left..] + old(buf.Contents())) == data + old(buf.Contents());
    }
  }

  /** evbuffer_prepend */
  method Prepend(buf: EvBuffer, data: bytes) returns (r: int)
    requires buf.Valid()
    modifies buf, buf.view.repr
    ensures buf.Valid() && fresh(buf.view.repr - old(buf.view.repr)) && buf.flags == old(buf.flags)
    ensures r == 0 || r == -1
    ensures r == 0 ==> !buf.flags.freezeStart && |data| <= SIZE_MAX - |old(buf.Contents())|
    ensures r == -1 && ChainFits(|data|) ==> buf.flags.freezeStart || |data| > SIZE_MAX - |old(buf.Contents())|
    ensures r == 0 ==> buf.Contents() == data + old(buf.Contents())
    ensures old(buf.Accounted()) && old(FitsInFront(buf, data)) ==> buf.Accounted()
    // A refusal leaves the buffer alone, unless the new chain was too big to allocate: then the
    // bytes already stored in front of the first chain stay.
    ensures r == -1 ==> exists k ::
                0 <= k <= |data| && (ChainFits(|data|) ==> k == |data|)
                && buf.Contents() == data[k..] + old(buf.Contents())
    // The callbacks are told of what fitted in front of the first chain, and of nothing else.
    ensures r == 0 && old(buf.Quiet()) ==>
              buf.Quiet() && buf.reports == old(buf.reports) + Report(old(Counted(buf, data)), 0, |buf.Contents()|)
    ensures r == -1 ==> buf.reports == old(buf.reports)
    ensures r == -1 && ChainFits(|data|) ==> buf.counts == old(buf.counts) && buf.Contents() == old(buf.Contents())
  {
    assert data[|data|..] + buf.Contents() == buf.Contents();
    if buf.flags.freezeStart || |data| > SIZE_MAX - buf.counts.total {
      return -1;
    }
    var left, ok := PrependAll(buf, data);
    if !ok {
      return -1;
    }
    buf.RunCallbacks(false);
    r := 0;
  }

  /** Everything but the checks and the callbacks. */
  method PrependAll(buf: EvBuffer, data: bytes) returns (left: nat, ok: bool)
    requires buf.Valid()
    modifies buf, buf.view.repr
    ensures buf.Valid() && fresh(buf.view.repr - old(buf.view.repr)) && buf.flags == old(buf.flags)
    ensures left <= |data| && (ChainFits(|data|) ==> ok)
    ensures buf.Contents() == (if ok then data else data[left..]) + old(buf.Contents())
    ensures buf.counts == old(buf.counts).(total := |buf.Contents()|, added := old(buf.counts.added) + |data| - left)
    ensures ok ==> |data| - left == old(Counted(buf, data))
    ensures buf.baseLen == old(buf.baseLen) && buf.reports == old(buf.reports)
  {
    if buf.ends.first == null {
      ok := PrependFirstChain(buf, data);
      if !ok {
        return |data|, false;
      }
    }
    assert buf.view.spine[0] in buf.view.repr;
    left, ok := PrependBytes(buf, data);
  }

  /** The bytes evbuffer_prepend counts as added: those that fit in front of the first chain. */
  ghost function Counted(buf: EvBuffer, data: bytes): nat
    requires buf.Valid()
    reads buf, buf.view.repr
  {
    if FitsInFront(buf, data) then |data| else Headroom(buf)
  }

  /** evbuffer_prepend needs no new chain in front of an existing one. */
  ghost predicate FitsInFront(buf: EvBuffer, data: bytes)
    requires buf.Valid()
    reads buf, buf.view.repr
  {
    buf.ends.first == null || |data| <= Headroom(buf)
  }

  /** A byte is put in front of another one: the callbacks are told of the first byte that came, not of the second. */
  method PrependMiscounts() returns (buf: EvBuffer)
    ensures fresh(buf) && buf.Valid() && buf.Contents() == [2, 1] && buf.Quiet()
    ensures buf.reports == [CbInfo(0, 1, 0, 1)]
  {
    buf := new EvBuffer();
    buf.flags := buf.flags.(hasCallbacks := true);
    var r := Add(buf, [1]);
    FirstHolds(buf);
    r := Prepend(buf, [2]);
  }

  lemma {:induction false} FirstHolds(buf: EvBuffer)
    requires buf.Valid() && buf.Contents() != []
    ensures buf.ends.first != null && buf.ends.first in buf.view.repr && buf.ends.first.blk.off > 0
  {
    PositiveParts(buf.view.parts);
    assert buf.view.spine[0] in buf.view.repr && buf.view.spine[0].blk.Ok();
  }
}
