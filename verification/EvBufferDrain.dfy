/** evbuffer_drain, _copyout_from, _remove and _pullup. */
module EvBufferDrain {
  import opened Bytes
  import opened EvBuffers

  /** C's conversion of an integer to `int`. */
  function CInt(n: int): (r: int)
    ensures -0x8000_0000 <= r < 0x8000_0000
    ensures (n - r) % 0x1_0000_0000 == 0
    ensures -0x8000_0000 <= n < 0x8000_0000 ==> r == n
  {
    var m := n % 0x1_0000_0000;
    if m < 0x8000_0000 then m else m - 0x1_0000_0000
  }

  /** struct evbuffer_ptr */
  datatype Ptr = Ptr(pos: int, chain: Chain?, posInChain: nat)

  const NOT_FOUND := Ptr(-1, null, 0)

  /** `p` names the byte `p.posInChain` of chain `k`, and that is byte `p.pos` of the flat string. */
  ghost predicate PtrAt(buf: EvBuffer, p: Ptr, k: nat)
    reads buf
  {
    && |buf.view.parts| == |buf.view.spine| && k < |buf.view.spine|
    && p.chain == buf.view.spine[k]
    && p.posInChain <= |buf.view.parts[k]|
    && p.pos == Offset(buf.view.parts, k) + p.posInChain
  }

  /** The pointers that evbuffer_ptr_set and the searches produce. */
  ghost predicate PtrOk(buf: EvBuffer, p: Ptr)
    reads buf
  {
    if p.chain == null then p.pos == |buf.Contents()| && p.posInChain == 0 else exists k :: PtrAt(buf, p, k)
  }

  lemma {:induction false} PtrInRange(buf: EvBuffer, p: Ptr)
    requires PtrOk(buf, p)
    ensures 0 <= p.pos <= |buf.Contents()|
  {
    if p.chain != null {
      var k: nat :| PtrAt(buf, p, k);
      PartAt(buf.view.parts, k, 0, 0);
    }
  }

  /** The walk of evbuffer_drain and evbuffer_remove_buffer over the chains that leave the buffer whole. */
  method FrontWalk(buf: EvBuffer, len: nat)
    returns (chain: Chain, previous: Chain?, remaining: nat, lastWithDatap: Slot, ghost k: nat)
    requires buf.Valid() && len < buf.counts.total
    ensures k < |buf.view.spine| && chain == buf.view.spine[k] && chain in buf.view.repr
    ensures previous == if k == 0 then null else buf.view.spine[k - 1]
    ensures remaining < chain.blk.off && len == Offset(buf.view.parts, k) + remaining
    ensures lastWithDatap == SlotAt(buf.view.spine[k..], |buf.view.spine| - k - 1)
  {
    ghost var spine, parts := buf.view.spine, buf.view.parts;
    chain, previous, remaining, lastWithDatap, k := buf.ends.first, null, len, buf.ends.lastWithDatap, 0;
    while remaining >= chain.blk.off
      invariant k < |spine| && chain == spine[k] && previous == if k == 0 then null else spine[k - 1]
      invariant len == Offset(parts, k) + remaining
      invariant lastWithDatap == SlotAt(spine[k..], |spine| - k - 1)
      decreases |spine| - k
    {
      OffsetIs(parts, k + 1);
      LastSlot(spine, buf.view.repr, k);
      remaining := remaining - chain.blk.off;
      if chain == buf.Deref(lastWithDatap) {
        lastWithDatap := First;
      }
      if lastWithDatap == NextOf(chain) {
        lastWithDatap := First;
      }
      previous, chain := chain, chain.next;
      k := k + 1;
    }
    assert spine[k] in buf.view.repr;
  }

  method DrainBytes(buf: EvBuffer, len: nat)
    requires buf.Valid() && len <= buf.counts.total
    modifies buf, buf.view.repr
    ensures buf.Valid() && buf.view.repr <= old(buf.view.repr) && buf.flags == old(buf.flags)
    ensures buf.Contents() == old(buf.Contents())[len..]
    ensures buf.counts
            == old(buf.counts.(total := buf.counts.total - len, deleted := buf.counts.deleted + len))
    ensures buf.baseLen == old(buf.baseLen) && buf.reports == old(buf.reports)
  {
    if len == buf.counts.total {
      buf.ZeroChain();
    } else {
      var chain, _, remaining, slot, k := FrontWalk(buf, len);
      buf.CutFront(k, chain, remaining, len, slot);
    }
    buf.CountDeleted(len);
  }

  /** evbuffer_drain */
  method Drain(buf: EvBuffer, len: nat) returns (r: int)
    requires buf.Valid()
    modifies buf, buf.view.repr
    ensures buf.Valid() && buf.view.repr <= old(buf.view.repr) && buf.flags == old(buf.flags)
    ensures r == if buf.flags.freezeStart && old(buf.Contents()) != [] then -1 else 0
    ensures var n := if len >= |old(buf.Contents())| then |old(buf.Contents())| else len;
            buf.Contents() == if r == -1 then old(buf.Contents()) else old(buf.Contents())[n..]
    ensures old(buf.Accounted()) ==> buf.Accounted()
    ensures old(buf.Quiet()) ==>
              buf.Quiet() && buf.reports == old(buf.reports) + Report(0, |old(buf.Contents())| - |buf.Contents()|,
                                                                      |buf.Contents()|)
  {
    if buf.counts.total == 0 {
      return 0;
    }
    if buf.flags.freezeStart {
      return -1;
    }
    DrainBytes(buf, if len >= buf.counts.total then buf.counts.total else len);
    buf.RunCallbacks(false);
    r := 0;
  }

  /** A chain of the buffer and what it holds. */
  lemma {:induction false} ChainAt(buf: EvBuffer, k: nat)
    requires buf.Valid() && k < |buf.view.spine|
    ensures var chain := buf.view.spine[k];
            && chain in buf.view.repr && chain.blk.Ok() && chain.blk.Data() == buf.view.parts[k]
            && chain.next == if k + 1 < |buf.view.spine| then buf.view.spine[k + 1] else null
  {
    assert buf.view.spine[k] in buf.view.repr;
  }

  /** The copying loop of evbuffer_copyout_from: whole chains. */
  method CopyChains(buf: EvBuffer, start: Ptr, n: nat, ghost k0: nat)
    returns (data: bytes, chain: Chain?, posInChain: nat, ghost k: nat)
    requires buf.Valid() && start.chain != null && PtrAt(buf, start, k0) && 0 <= start.pos
    requires start.pos + n <= |buf.Contents()|
    ensures |data| <= n && data == buf.Contents()[start.pos..start.pos + |data|]
    ensures |data| < n ==>
              k < |buf.view.spine| && chain == buf.view.spine[k] && posInChain + n - |data| <= |buf.view.parts[k]|
              && Offset(buf.view.parts, k) + posInChain == start.pos + |data|
  {
    ghost var spine, parts, flat := buf.view.spine, buf.view.parts, buf.Contents();
    data, chain, posInChain, k := [], start.chain, start.posInChain, k0;
    var left: nat := n;
    ChainAt(buf, k);
    while left != 0 && left >= chain.blk.off - posInChain
      invariant k <= |spine| && left + |data| == n
      invariant Offset(parts, k) + posInChain == start.pos + |data| <= |flat|
      invariant data == flat[start.pos..start.pos + |data|]
      invariant left > 0 ==> k < |spine| && chain == spine[k] && posInChain <= |parts[k]|
      decreases |spine| - k
    {
      assert spine[k] in buf.view.repr;
      var copylen := chain.blk.off - posInChain;
      CopyStep(parts, k, posInChain, copylen, data, start.pos);
      data := data + chain.blk.Data()[posInChain..posInChain + copylen];
      left, chain, posInChain, k := left - copylen, chain.next, 0, k + 1;
    }
    assert left != 0 ==> spine[k].blk.off == |parts[k]|;
  }

  method CopyFrom(buf: EvBuffer, start: Ptr, n: nat) returns (data: bytes)
    requires buf.Valid() && start.chain != null && PtrOk(buf, start)
    requires start.pos + n <= buf.counts.total
    ensures 0 <= start.pos && data == buf.Contents()[start.pos..start.pos + n]
  {
    ghost var k: nat :| PtrAt(buf, start, k);
    PtrInRange(buf, start);
    var chain, posInChain;
    data, chain, posInChain, k := CopyChains(buf, start, n, k);
    if |data| < n {
      var left := n - |data|;
      ChainAt(buf, k);
      CopyStep(buf.view.parts, k, posInChain, left, data, start.pos);
      data := data + chain.blk.Data()[posInChain..posInChain + left];
    }
  }

  /** evbuffer_copyout_from with a position, and evbuffer_copyout without. */
  method Copyout(buf: EvBuffer, pos: Ptr, datlen: nat) returns (r: int, data: bytes)
    requires buf.Valid() && PtrOk(buf, pos)
    ensures 0 <= pos.pos <= |buf.Contents()|
    ensures datlen > SSIZE_MAX - pos.pos ==> r == -1
    ensures datlen <= SSIZE_MAX - pos.pos ==>
              var n := if pos.pos + datlen > |buf.Contents()| then |buf.Contents()| - pos.pos else datlen;
              && r == (if n > 0 && buf.flags.freezeStart then -1 else n)
              && (r >= 0 ==> data == buf.Contents()[pos.pos..pos.pos + n])
  {
    PtrInRange(buf, pos);
    data := [];
    if datlen > SSIZE_MAX - pos.pos {
      return -1, [];
    }
    var n := if datlen + pos.pos > buf.counts.total then buf.counts.total - pos.pos else datlen;
    if n == 0 {
      return 0, [];
    }
    if buf.flags.freezeStart {
      return -1, [];
    }
    data := CopyFrom(buf, pos, n);
    r := n;
  }

  lemma {:induction false} StartOk(buf: EvBuffer)
    requires buf.Valid()
    ensures PtrOk(buf, Ptr(0, buf.ends.first, 0))
  {
    if buf.view.spine != [] {
      assert Concat(buf.view.parts[..0]) == [];
      assert PtrAt(buf, Ptr(0, buf.ends.first, 0), 0);
    }
  }

  /** evbuffer_remove */
  method Remove(buf: EvBuffer, datlen: nat) returns (r: int, data: bytes)
    requires buf.Valid()
    modifies buf, buf.view.repr
    ensures buf.Valid() && buf.view.repr <= old(buf.view.repr) && buf.flags == old(buf.flags)
    ensures var n := if datlen > |old(buf.Contents())| then |old(buf.Contents())| else datlen;
            if n > 0 && buf.flags.freezeStart
            then r == -1 && data == [] && buf.Contents() == old(buf.Contents())
            else r == CInt(n) && |data| == n && old(buf.Contents()) == data + buf.Contents()
    ensures old(buf.Accounted()) ==> buf.Accounted()
    ensures old(buf.Quiet()) ==>
              buf.Quiet() && buf.reports == old(buf.reports) + Report(0, |old(buf.Contents())| - |buf.Contents()|,
                                                                      |buf.Contents()|)
  {
    StartOk(buf);
    data := [];
    var n := if datlen > buf.counts.total then buf.counts.total else datlen;
    if n == 0 {
      return 0, [];
    }
    if buf.flags.freezeStart {
      return -1, [];
    }
    data := CopyFrom(buf, Ptr(0, buf.ends.first, 0), n);
    ghost var flat := buf.Contents();
    assert flat[0..n] + flat[n..] == flat;
    var drained := Drain(buf, n);
    r := CInt(n);
  }

  /** The copying loop of evbuffer_pullup, from chain `s` on. */
  method PullWalk(buf: EvBuffer, ghost s: nat, from: Chain, size: nat)
    returns (data: bytes, chain: Chain?, drop: nat, removedLast: bool, removedLastp: bool, ghost k: nat)
    requires buf.Valid() && s < |buf.view.spine| && from == buf.view.spine[s]
    requires Offset(buf.view.parts, s) + size <= buf.counts.total
    ensures s <= k <= |buf.view.spine|
    ensures chain == if k < |buf.view.spine| then buf.view.spine[k] else null
    ensures if chain == null then drop == 0 else chain in buf.view.repr && drop < chain.blk.off
    ensures var base := Offset(buf.view.parts, s); data == buf.Contents()[base..base + size]
    ensures Offset(buf.view.parts, s) + size == Offset(buf.view.parts, k) + drop
    ensures removedLast <==> k == |buf.view.spine|
    ensures removedLastp <==> |buf.view.spine| >= 2 && s <= |buf.view.spine| - 2 < k
  {
    data, chain, drop, removedLast, removedLastp, k := PullChains(buf, s, from, size);
    if chain != null {
      assert buf.view.spine[k] in buf.view.repr;
      CopyStep(buf.view.parts, k, 0, drop, data, Offset(buf.view.parts, s));
      data := data + chain.blk.Data()[..drop];
    }
  }

  /** Its turns for the chains that are copied whole. */
  method PullChains(buf: EvBuffer, ghost s: nat, from: Chain, size: nat)
    returns (data: bytes, chain: Chain?, drop: nat, removedLast: bool, removedLastp: bool, ghost k: nat)
    requires buf.Valid() && s < |buf.view.spine| && from == buf.view.spine[s]
    requires Offset(buf.view.parts, s) + size <= buf.counts.total
    ensures s <= k <= |buf.view.spine| && |data| + drop == size
    ensures chain == if k < |buf.view.spine| then buf.view.spine[k] else null
    ensures if chain == null then drop == 0 else chain in buf.view.repr && drop < chain.blk.off
    ensures var base := Offset(buf.view.parts, s);
            base + |data| == Offset(buf.view.parts, k) <= |buf.Contents()|
            && data == buf.Contents()[base..base + |data|]
    ensures removedLast <==> k == |buf.view.spine|
    ensures removedLastp <==> |buf.view.spine| >= 2 && s <= |buf.view.spine| - 2 < k
  {
    ghost var spine, parts, flat, base := buf.view.spine, buf.view.parts, buf.Contents(), Offset(buf.view.parts, s);
    data, chain, drop, removedLast, removedLastp, k := [], from, size, false, false, s;
    assert spine[s] in buf.view.repr;
    PartAt(parts, s, 0, 0);
    while chain != null && drop >= chain.blk.off
      invariant s <= k <= |spine| && chain == (if k < |spine| then spine[k] else null)
      invariant k < |spine| ==> spine[k] in buf.view.repr
      invariant |data| + drop == size && base + |data| == Offset(parts, k) <= |flat|
      invariant data == flat[base..base + |data|]
      invariant k == |spine| ==> base + |data| == |flat|
      invariant removedLast <==> k == |spine|
      invariant removedLastp <==> |spine| >= 2 && s <= |spine| - 2 < k
      decreases |spine| - k
    {
      CopyWhole(parts, k, data, base);
      data := data + chain.blk.Data();
      drop := drop - chain.blk.off;
      var last, lastp := LastFlags(buf, chain, k);
      removedLast, removedLastp := removedLast || last, removedLastp || lastp;
      chain := chain.next;
      k := k + 1;
      assert k < |spine| ==> spine[k] in buf.view.repr;
    }
  }

  /** Whether the chain is the last one with data, or leads to it. */
  method LastFlags(buf: EvBuffer, chain: Chain, ghost k: nat) returns (last: bool, lastp: bool)
    requires buf.Valid() && k < |buf.view.spine| && chain == buf.view.spine[k]
    ensures last <==> k == |buf.view.spine| - 1
    ensures lastp <==> k == |buf.view.spine| - 2
  {
    LastSlot(buf.view.spine, buf.view.repr, k);
    last := chain == buf.Deref(buf.ends.lastWithDatap);
    lastp := buf.ends.lastWithDatap == NextOf(chain);
  }

  /** The two ways evbuffer_pullup ends, and the pointer to the last chain with data it leaves. */
  method PullEnd(buf: EvBuffer, target: Chain, blk: Block, ghost s: nat, ghost k: nat, rest: Chain?, drop: nat,
                 removedLast: bool, removedLastp: bool)
    requires buf.Valid() && 0 < k <= |buf.view.spine| && s <= 1
    requires if s == 0 then target !in buf.view.repr else target == buf.view.spine[0]
    requires rest == if k < |buf.view.spine| then buf.view.spine[k] else null
    requires if rest == null then drop == 0 else rest in buf.view.repr && drop < rest.blk.off
    requires blk.Ok() && 0 < blk.off == Offset(buf.view.parts, k) + drop <= buf.counts.total
    requires blk.Data() == buf.Contents()[..blk.off]
    requires removedLast <==> k == |buf.view.spine|
    requires removedLastp <==> |buf.view.spine| >= 2 && s <= |buf.view.spine| - 2 < k
    modifies buf, buf.view.repr, target
    ensures buf.Valid() && buf.view.repr <= old(buf.view.repr) + {target} && buf.flags == old(buf.flags)
    ensures buf.Contents() == old(buf.Contents()) && buf.counts == old(buf.counts) && buf.baseLen == old(buf.baseLen)
            && buf.reports == old(buf.reports)
    ensures buf.ends.first == target && target in buf.view.repr && target.blk == blk
    ensures buf.ends.lastWithDatap ==
            if removedLast then First else if removedLastp then NextOf(target) else old(buf.ends.lastWithDatap)
  {
    if rest == null {
      OffsetIs(buf.view.parts, k);
      buf.PullAll(target, blk);
    } else {
      buf.PullSome(target, blk, k, rest, drop);
    }
  }

  method PullInPlace(buf: EvBuffer, n: nat)
    requires buf.Valid() && buf.ends.first != null && buf.ends.first in buf.view.repr
    requires buf.ends.first.blk.off < n <= buf.counts.total
    requires buf.ends.first.blk.misalign + n <= |buf.ends.first.blk.mem|
    modifies buf, buf.view.repr
    ensures buf.Valid() && fresh(buf.view.repr - old(buf.view.repr)) && buf.flags == old(buf.flags)
    ensures buf.Contents() == old(buf.Contents()) && buf.counts == old(buf.counts) && buf.baseLen == old(buf.baseLen)
            && buf.reports == old(buf.reports)
    ensures buf.ends.first == old(buf.ends.first) && buf.ends.first in buf.view.repr && buf.ends.first.blk.off == n
  {
    var first := buf.ends.first;
    BeyondFirst(buf.view.parts, n);
    var data, rest, drop, rl, rlp, k := PullWalk(buf, 1, first.next, n - first.blk.off);
    var blk := first.blk.Append(data);
    PullEnd(buf, first, blk, 1, k, rest, drop, rl, rlp);
  }

  method PullIntoNew(buf: EvBuffer, n: nat) returns (chain: Chain?)
    requires buf.Valid() && buf.ends.first != null && buf.ends.first in buf.view.repr
    requires buf.ends.first.blk.off < n <= buf.counts.total
    modifies buf, buf.view.repr
    ensures buf.Valid() && fresh(buf.view.repr - old(buf.view.repr)) && buf.flags == old(buf.flags)
    ensures buf.Contents() == old(buf.Contents()) && buf.counts == old(buf.counts) && buf.baseLen == old(buf.baseLen)
            && buf.reports == old(buf.reports)
    ensures chain != null <==> ChainFits(n)
    ensures chain != null ==> buf.ends.first == chain && chain in buf.view.repr && chain.blk.off == n
  {
    assert Concat(buf.view.parts[..0]) == [];
    var data, rest, drop, rl, rlp, k := PullWalk(buf, 0, buf.ends.first, n);
    chain := ChainNewHolding(n, data, false);
    if chain != null {
      assert k > 0 by {
        assert buf.view.spine[0].blk.off == |buf.view.parts[0]|;
      }
      PullEnd(buf, chain, chain.blk, 0, k, rest, drop, rl, rlp);
    }
  }

  /** evbuffer_pullup; the result is the chain whose data starts with the bytes asked for. */
  method Pullup(buf: EvBuffer, size: int) returns (chain: Chain?)
    requires buf.Valid()
    modifies buf, buf.view.repr
    ensures buf.Valid() && fresh(buf.view.repr - old(buf.view.repr)) && buf.flags == old(buf.flags)
    ensures buf.Contents() == old(buf.Contents()) && buf.counts == old(buf.counts) && buf.baseLen == old(buf.baseLen)
            && buf.reports == old(buf.reports)
    ensures var n := if size < 0 then |buf.Contents()| else size;
            && (chain != null ==> 0 < n <= |buf.Contents()| && chain == buf.ends.first && chain in buf.view.repr
                                  && chain.blk.Ok() && n <= chain.blk.off
                                      && chain.blk.Data()[..n] == buf.Contents()[..n])
            && (chain != null <==> 0 < n <= |buf.Contents()| && ChainFits(n))
  {
    var n := if size < 0 then buf.counts.total else size;
    if n == 0 || n > buf.counts.total {
      return null;
    }
    chain := buf.ends.first;
    assert buf.view.spine[0] in buf.view.repr;
    if chain.blk.off < n {
      var blk := chain.blk;
      if |blk.mem| - blk.misalign >= n {
        PullInPlace(buf, n);
      } else {
        chain := PullIntoNew(buf, n);
        if chain == null {
          return;
        }
      }
    }
    ReplaceFirst(buf.view.parts, buf.view.parts[0]);
    assert buf.view.spine[0] in buf.view.repr && buf.view.spine[0].blk.Ok();
  }
}
