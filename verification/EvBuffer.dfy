/**
 libevent's evbuffer: a linked list of partly filled chains that stands for one
 flat byte string. The model covers mutable, unpinned chains.
 */
module EvBuffers {
  import opened Bytes
  import opened Bits

  const SIZE_MAX := 0xFFFF_FFFF_FFFF_FFFF
  const SSIZE_MAX := 0x7FFF_FFFF_FFFF_FFFF
  const MIN_BUFFER_SIZE := 1024
  const CHAIN_SIZE := 48
  const CHAIN_MAX := SSIZE_MAX
  const CHAIN_MAX_AUTO_SIZE := 4096
  const MAX_TO_REALIGN := 2048

  /** The storage of one chain: `off` bytes of data, `misalign` bytes from the start of `mem`. */
  datatype Block = Block(mem: bytes, misalign: nat, off: nat) {
    ghost predicate Ok() {
      0 < |mem| <= CHAIN_MAX - CHAIN_SIZE && misalign + off <= |mem|
    }

    /** The bytes this chain contributes to the buffer. */
    function Data(): (d: bytes)
      requires Ok()
      ensures |d| == off
    {
      mem[misalign..misalign + off]
    }

    /** memcpy behind the data. */
    method Append(data: bytes) returns (r: Block)
      requires Ok() && misalign + off + |data| <= |mem|
      ensures r.Ok() && r.Data() == Data() + data
      ensures r.misalign == misalign && |r.mem| == |mem|
    {
      var at := misalign + off;
      r := Block(mem[..at] + data + mem[at + |data|..], misalign, off + |data|);
      assert r.mem[misalign..at] == mem[misalign..at];
    }

    /** memcpy into the misalignment, just before the data. */
    method Prepend(data: bytes) returns (r: Block)
      requires Ok() && |data| <= misalign
      ensures r.Ok() && r.Data() == data + Data()
      ensures r.misalign == misalign - |data| && |r.mem| == |mem|
    {
      r := Block(mem[..misalign - |data|] + data + mem[misalign..], misalign - |data|, off + |data|);
      Joined(mem[..misalign - |data|], data, mem[misalign..], off);
      assert mem[misalign..][..off] == Data();
    }

    /** Gives up the first `n` bytes. */
    method Drop(n: nat) returns (r: Block)
      requires Ok() && n <= off
      ensures r.Ok() && r.Data() == Data()[n..]
      ensures r.misalign == misalign + n && |r.mem| == |mem|
    {
      r := Block(mem, misalign + n, off - n);
    }

    /** evbuffer_chain_align */
    method Align() returns (r: Block)
      requires Ok()
      ensures r.Ok() && r.Data() == Data() && r.misalign == 0 && |r.mem| == |mem|
    {
      r := Block(Data() + mem[off..], 0, off);
    }
  }

  lemma {:induction false} Joined(a: bytes, data: bytes, rest: bytes, off: nat)
    requires off <= |rest|
    ensures (a + data + rest)[|a|..|a| + |data| + off] == data + rest[..off]
  {
  }

  class Chain {
    var next: Chain?
    var blk: Block

    constructor (size: nat)
      ensures next == null && |blk.mem| == size && blk.misalign == 0 && blk.off == 0
    {
      next, blk := null, Block(seq(size, _ => 0), 0, 0);
    }
  }

  predicate ChainFits(size: nat) {
    size <= CHAIN_MAX - CHAIN_SIZE
  }

  /** Small allocations are doubled from the least one until they suffice, big ones are made as they are. */
  ghost predicate Rounded(need: nat, alloc: nat) {
    if need < CHAIN_MAX / 2
    then need <= alloc && (alloc == MIN_BUFFER_SIZE || alloc < 2 * need)
        && exists k :: alloc == MIN_BUFFER_SIZE * Pow2(k)
    else alloc == need
  }

  /** evbuffer_chain_new, with malloc succeeding. */
  method ChainNew(size: nat) returns (chain: Chain?)
    ensures chain != null <==> ChainFits(size)
    ensures chain != null ==>
              && fresh(chain)
              && chain.next == null && chain.blk.misalign == 0 && chain.blk.off == 0
              && 0 < |chain.blk.mem| && size <= |chain.blk.mem| <= CHAIN_MAX - CHAIN_SIZE
              && Rounded(size + CHAIN_SIZE, |chain.blk.mem| + CHAIN_SIZE)
  {
    if size > CHAIN_MAX - CHAIN_SIZE {
      return null;
    }
    var need := size + CHAIN_SIZE;
    var toAlloc := need;
    if need < CHAIN_MAX / 2 {
      toAlloc := MIN_BUFFER_SIZE;
      ghost var k := 0;
      while toAlloc < need
        invariant MIN_BUFFER_SIZE <= toAlloc <= CHAIN_MAX && toAlloc == MIN_BUFFER_SIZE * Pow2(k)
        invariant toAlloc == MIN_BUFFER_SIZE || toAlloc < 2 * need
        decreases need - toAlloc
      {
        toAlloc, k := 2 * toAlloc, k + 1;
      }
    }
    chain := new Chain(toAlloc - CHAIN_SIZE);
  }

  /** A new chain of at least `size` bytes with `data` at its start, or at its end. */
  method ChainNewHolding(size: nat, data: bytes, atEnd: bool) returns (chain: Chain?)
    requires |data| <= size
    ensures chain != null <==> ChainFits(size)
    ensures chain != null ==> fresh(chain) && chain.next == null && chain.blk.Ok() && chain.blk.Data() == data
  {
    chain := ChainNew(size);
    if chain != null {
      var blk := chain.blk;
      if atEnd {
        blk := blk.(misalign := |blk.mem|);
        blk := blk.Prepend(data);
      } else {
        blk := blk.Append(data);
      }
      chain.blk := blk;
    }
  }

  /** evbuffer_chain_should_realign */
  predicate ShouldRealign(bufferLen: nat, off: nat, datlen: nat) {
    bufferLen - off >= datlen && off < bufferLen / 2 && off <= MAX_TO_REALIGN
  }

  /** What evbuffer_add asks evbuffer_chain_new for when the last chain has no room. */
  function GrowSize(bufferLen: nat, datlen: nat): (size: nat)
    ensures size >= datlen && size >= bufferLen
    ensures ChainFits(bufferLen) ==> (ChainFits(size) <==> ChainFits(datlen))
  {
    var toAlloc := if bufferLen <= CHAIN_MAX_AUTO_SIZE / 2 then 2 * bufferLen else bufferLen;
    if datlen > toAlloc then datlen else toAlloc
  }

  /** The place that holds a chain pointer: `&buf->first` or `&chain->next`. */
  datatype Slot = First | NextOf(chain: Chain)

  datatype Flags = Flags(freezeStart: bool, freezeEnd: bool, hasCallbacks: bool, deferredCbs: bool)

  datatype Ends = Ends(first: Chain?, last: Chain?, lastWithDatap: Slot)

  /** The chains from `first` to `last`, the bytes in each, and every chain the buffer owns. */
  datatype View = View(spine: seq<Chain>, parts: seq<bytes>, repr: set<Chain>)

  /** `total_len` and the two callback counters. */
  datatype Counts = Counts(total: nat, added: nat, deleted: nat)

  /** What a callback is told (struct evbuffer_cb_info). */
  datatype CbInfo = CbInfo(origSize: int, added: nat, deleted: nat, newSize: nat)

  /** The reports made when the counters stand so, at a length of `total`. */
  function Report(added: nat, deleted: nat, total: nat): seq<CbInfo> {
    if added + deleted == 0 then [] else [CbInfo(total + deleted - added, added, deleted, total)]
  }

  ghost function SlotAt(spine: seq<Chain>, i: nat): Slot
    requires i <= |spine|
  {
    if i == 0 then First else NextOf(spine[i - 1])
  }

  /** Two different chains; named so that the invariant below is used only where this is written. */
  ghost predicate Apart(a: Chain, b: Chain) {
    a != b
  }

  ghost predicate Owned(spine: seq<Chain>, repr: set<Chain>) {
    && (forall i {:trigger spine[i] in repr} :: 0 <= i < |spine| ==> spine[i] in repr)
    && (forall i, j {:trigger Apart(spine[i], spine[j])} :: 0 <= i < j < |spine| ==> Apart(spine[i], spine[j]))
  }

  ghost function ChainSet(spine: seq<Chain>): set<Chain> {
    set c | c in spine
  }

  /** The chains from `k` on, once those before `k` are given up. */
  lemma {:induction false} OwnedFrom(spine: seq<Chain>, repr: set<Chain>, k: nat)
    requires Owned(spine, repr) && k <= |spine|
    ensures Owned(spine[k..], repr - ChainSet(spine[..k]))
    ensures k < |spine| ==> forall i :: 0 < i < |spine| - k ==> spine[k..][i] != spine[k]
  {
    forall i | 0 <= i < |spine| - k ensures spine[k..][i] in repr - ChainSet(spine[..k]) {
      assert spine[k + i] in repr;
      forall j | 0 <= j < k ensures spine[j] != spine[k + i] {
        assert Apart(spine[j], spine[k + i]);
      }
    }
    forall i, j | 0 <= i < j < |spine| - k ensures Apart(spine[k..][i], spine[k..][j]) {
      assert Apart(spine[k + i], spine[k + j]);
    }
  }

  /** One chain more in front. */
  lemma {:induction false} OwnedMore(chain: Chain, spine: seq<Chain>, repr: set<Chain>)
    requires Owned(spine, repr) && chain !in repr
    ensures Owned([chain] + spine, repr + {chain})
    ensures forall i :: 0 <= i < |spine| ==> spine[i] != chain
  {
    forall i | 0 <= i < |spine| ensures spine[i] in repr {
    }
    forall i, j | 0 <= i < j < |spine| + 1 ensures Apart(([chain] + spine)[i], ([chain] + spine)[j]) {
      assert 0 < i ==> Apart(spine[i - 1], spine[j - 1]);
      assert spine[j - 1] in repr;
    }
  }

  lemma {:induction false} GivenUp(spine: seq<Chain>, repr: set<Chain>, k: nat, chain: Chain)
    requires 0 < k <= |spine| && (chain !in repr || chain == spine[0])
    ensures chain !in repr - ChainSet(spine[..k])
  {
    assert spine[..k][0] == spine[0];
  }

  /** Which link leads to the last chain. */
  lemma {:induction false} LastSlot(spine: seq<Chain>, repr: set<Chain>, k: nat)
    requires Owned(spine, repr) && k < |spine|
    ensures NextOf(spine[k]) == SlotAt(spine, |spine| - 1) <==> k == |spine| - 2
    ensures spine[k] == spine[|spine| - 1] <==> k == |spine| - 1
  {
    assert k < |spine| - 1 ==> Apart(spine[k], spine[|spine| - 1]);
    if |spine| >= 2 {
      assert k < |spine| - 2 ==> Apart(spine[k], spine[|spine| - 2]);
      assert k > |spine| - 2 ==> Apart(spine[|spine| - 2], spine[k]);
    }
  }

  ghost predicate NoEmpty(parts: seq<bytes>) {
    |parts| >= 2 ==> forall i :: 0 <= i < |parts| ==> parts[i] != []
  }

  class EvBuffer {
    var ends: Ends
    var counts: Counts
    var flags: Flags
    /** Everything the callbacks have been told so far. */
    var reports: seq<CbInfo>

    ghost var view: View
    /** The length when the callback counters were last cleared. */
    ghost var baseLen: nat

    ghost predicate Valid()
      reads this, view.repr
    {
      && |view.parts| == |view.spine|
      && Owned(view.spine, view.repr)
      && (forall i {:trigger view.spine[i].next} ::
            0 <= i < |view.spine| ==> view.spine[i].next == if i + 1 < |view.spine| then view.spine[i + 1] else null)
      && (forall i {:trigger view.spine[i].blk} ::
            0 <= i < |view.spine| ==> view.spine[i].blk.Ok() && view.spine[i].blk.Data() == view.parts[i])
      && NoEmpty(view.parts)
      && ends.first == (if view.spine == [] then null else view.spine[0])
      && ends.last == (if view.spine == [] then null else view.spine[|view.spine| - 1])
      && ends.lastWithDatap == SlotAt(view.spine, if view.spine == [] then 0 else |view.spine| - 1)
      && counts.total == |Concat(view.parts)|
    }

    /** The flat byte string the buffer stands for. */
    ghost function Contents(): (s: bytes)
      reads this
    {
      Concat(view.parts)
    }

    /** The counters explain exactly the change of length since they were last cleared. */
    ghost predicate Accounted()
      reads this
    {
      baseLen + counts.added - counts.deleted == counts.total
    }

    /** There are callbacks, and they run at once. */
    ghost predicate Prompt()
      reads this
    {
      flags.hasCallbacks && !flags.deferredCbs
    }

    /** So they do, and nothing is waiting to be reported. */
    ghost predicate Quiet()
      reads this
    {
      Prompt() && counts.added == 0 && counts.deleted == 0
    }

    /** evbuffer_new */
    constructor ()
      ensures Valid() && Contents() == [] && view == View([], [], {}) && Accounted() && counts == Counts(0, 0, 0)
      ensures flags == Flags(false, false, false, false) && reports == []
    {
      ends, counts := Ends(null, null, First), Counts(0, 0, 0);
      flags, reports := Flags(false, false, false, false), [];
      view, baseLen := View([], [], {}), 0;
    }

    /** The report evbuffer_run_callbacks prepares. */
    function Info(): CbInfo
      reads this
    {
      CbInfo(counts.total + counts.deleted - counts.added, counts.added, counts.deleted, counts.total)
    }

    /** evbuffer_run_callbacks, for callbacks that leave the buffer alone. */
    method RunCallbacks(runningDeferred: bool)
      modifies this`counts, this`reports, this`baseLen
      ensures counts.total == old(counts.total) && (old(Accounted()) ==> Accounted()) && (old(Valid()) ==> Valid())
      ensures !flags.hasCallbacks || !flags.deferredCbs || runningDeferred ==> counts.added == 0 && counts.deleted == 0
      ensures flags.hasCallbacks && flags.deferredCbs && !runningDeferred ==> counts == old(counts)
      ensures reports == old(reports) +
                if flags.hasCallbacks then old(Report(counts.added, counts.deleted, counts.total)) else []
      // A callback is told the true previous length whenever the counters are in order.
      ensures old(Accounted()) ==> old(Info()).origSize == old(baseLen)
    {
      if !flags.hasCallbacks {
        counts, baseLen := Counts(counts.total, 0, 0), counts.total;
        return;
      }
      if counts.added == 0 && counts.deleted == 0 {
        return;
      }
      var info := Info();
      if runningDeferred || !flags.deferredCbs {
        counts, baseLen := Counts(counts.total, 0, 0), counts.total;
      }
      reports := reports + [info];
    }

    /** `*slot` */
    function Deref(slot: Slot): Chain?
      reads this, if slot.NextOf? then {slot.chain} else {}
    {
      match slot
      case First => ends.first
      case NextOf(chain) => chain.next
    }

    /** The memcpy of evbuffer_add into the free tail of the last chain. */
    method FillTail(data: bytes)
      requires Valid() && ends.last != null
      requires ends.last.blk.misalign + ends.last.blk.off + |data| <= |ends.last.blk.mem|
      modifies this`counts, this`view, ends.last`blk
      ensures Valid() && Contents() == old(Contents()) + data
      ensures counts == old(counts.(total := counts.total + |data|, added := counts.added + |data|))
      ensures ends.last.blk.off == old(ends.last.blk.off) + |data| && view == old(view).(parts := view.parts)
      ensures ends.last.blk.misalign == old(ends.last.blk.misalign)
    {
      ghost var n := |view.spine| - 1;
      forall i | 0 <= i < n ensures Apart(view.spine[i], view.spine[n]) && view.spine[i] in view.repr {
      }
      var blk := ends.last.blk.Append(data);
      ReplaceLast(view.parts, view.parts[n] + data);
      ends.last.blk, counts, view :=
        blk, counts.(total := counts.total + |data|, added := counts.added + |data|),
        view.(parts := view.parts[n := view.parts[n] + data]);
    }

    /** `n_add_for_cb += n` */
    method CountAdded(n: nat)
      requires Valid()
      modifies `counts
      ensures Valid() && counts == old(counts.(added := counts.added + n))
    {
      counts := counts.(added := counts.added + n);
    }

    /** `n_del_for_cb += n` */
    method CountDeleted(n: nat)
      requires Valid()
      modifies `counts
      ensures Valid() && counts == old(counts.(deleted := counts.deleted + n))
    {
      counts := counts.(deleted := counts.deleted + n);
    }

    /** Rearranges the storage of the first or last chain without changing its bytes. */
    method Restore(chain: Chain, blk: Block)
      requires Valid() && chain in view.repr && chain in view.spine
      requires blk.Ok() && blk.Data() == chain.blk.Data()
      modifies chain`blk
      ensures Valid() && chain.blk == blk
    {
      forall i | 0 <= i < |view.spine| ensures view.spine[i] in view.repr {
      }
      ghost var k :| 0 <= k < |view.spine| && view.spine[k] == chain;
      assert view.parts[k] == blk.Data();
      chain.blk := blk;
    }

    /** The memcpy of evbuffer_prepend into the misalignment of the first chain. */
    method FillHead(data: bytes)
      requires Valid() && ends.first != null && |data| <= ends.first.blk.misalign
      modifies this`counts, this`view, ends.first`blk
      ensures Valid() && Contents() == data + old(Contents())
      ensures counts == old(counts.(total := counts.total + |data|, added := counts.added + |data|))
      ensures ends.first.blk.misalign == old(ends.first.blk.misalign) - |data|
              && view == old(view).(parts := view.parts)
    {
      forall i | 0 < i < |view.spine| ensures Apart(view.spine[0], view.spine[i]) && view.spine[i] in view.repr {
      }
      var blk := ends.first.blk.Prepend(data);
      ReplaceFirst(view.parts, data + view.parts[0]);
      ends.first.blk, counts, view :=
        blk, counts.(total := counts.total + |data|, added := counts.added + |data|),
        view.(parts := view.parts[0 := data + view.parts[0]]);
    }

    /** Puts `chain`, holding `blk`, in front of the first chain of a buffer with data. */
    method LinkFirst(chain: Chain, blk: Block)
      requires Valid() && counts.total > 0 && chain !in view.repr && blk.Ok() && blk.off > 0
      modifies this`ends, this`counts, this`view, chain
      ensures Valid() && Contents() == blk.Data() + old(Contents())
      ensures view.repr == old(view.repr) + {chain} && ends.first == chain && chain.blk == blk
      ensures ends.lastWithDatap == old(if ends.lastWithDatap == First then NextOf(chain) else ends.lastWithDatap)
      ensures counts == old(counts).(total := old(counts.total) + blk.off)
    {
      PositiveParts(view.parts);
      OwnedMore(chain, view.spine, view.repr);
      ConcatPrepend(blk.Data(), view.parts);
      var slot := if ends.lastWithDatap == First then NextOf(chain) else ends.lastWithDatap;
      chain.next, chain.blk, ends, counts, view :=
        ends.first, blk, ends.(first := chain, lastWithDatap := slot), counts.(total := counts.total + blk.off),
        View([chain] + view.spine, [blk.Data()] + view.parts, view.repr + {chain});
    }

    /** ZERO_CHAIN, after the chains were freed or given away. */
    method ZeroChain()
      modifies this`ends, this`counts, this`view
      ensures Valid() && Contents() == [] && view.repr == {} && counts == old(counts).(total := 0)
    {
      ends := Ends(null, null, First);
      counts := counts.(total := 0);
      view := View([], [], {});
    }

    /** Makes chain `k`, less its first `drop` bytes, the first chain. */
    method CutFront(ghost k: nat, chain: Chain, drop: nat, len: nat, lastWithDatap: Slot)
      requires Valid() && k < |view.spine| && chain == view.spine[k] && chain in view.repr
      requires drop < chain.blk.off && len == Offset(view.parts, k) + drop
      requires lastWithDatap == SlotAt(view.spine[k..], |view.spine| - k - 1)
      modifies this`ends, this`counts, this`view, chain`blk
      ensures Valid() && len <= |old(Contents())| && Contents() == old(Contents())[len..]
      ensures counts == old(counts).(total := old(counts.total) - len)
      ensures ends == old(ends).(first := chain, lastWithDatap := lastWithDatap)
              && chain.blk.off == old(chain.blk.off) - drop
      ensures view.spine == old(view.spine)[k..] && view.repr == old(view.repr) - ChainSet(old(view.spine)[..k])
    {
      Unlink(k, chain, len - drop, lastWithDatap);
      DropHead(drop);
    }

    /** Gives up the chains before `k`. */
    method Unlink(ghost k: nat, chain: Chain, len: nat, lastWithDatap: Slot)
      requires Valid() && k < |view.spine| && chain == view.spine[k] && len == Offset(view.parts, k)
      requires lastWithDatap == SlotAt(view.spine[k..], |view.spine| - k - 1)
      modifies this`ends, this`counts, this`view
      ensures Valid() && len <= |old(Contents())| && Contents() == old(Contents())[len..]
      ensures counts == old(counts).(total := old(counts.total) - len)
      ensures ends == old(ends).(first := chain, lastWithDatap := lastWithDatap)
      ensures view.spine == old(view.spine)[k..] && view.repr == old(view.repr) - ChainSet(old(view.spine)[..k])
    {
      forall i | 0 <= i < |view.spine| ensures view.spine[i] in view.repr {
      }
      PartsFrom(view.parts, k);
      OwnedFrom(view.spine, view.repr, k);
      ends, counts, view :=
        ends.(first := chain, lastWithDatap := lastWithDatap), counts.(total := counts.total - len),
        View(view.spine[k..], view.parts[k..], view.repr - ChainSet(view.spine[..k]));
    }

    /** Gives up the first `n` bytes of the first chain, but not all of them. */
    method DropHead(n: nat)
      requires Valid() && ends.first != null && n < ends.first.blk.off
      modifies this`counts, this`view, ends.first`blk
      ensures Valid() && n <= |old(Contents())| && Contents() == old(Contents())[n..]
      ensures counts == old(counts).(total := old(counts.total) - n)
      ensures ends.first.blk.off == old(ends.first.blk.off) - n && view == old(view).(parts := view.parts)
    {
      forall i | 0 < i < |view.spine| ensures Apart(view.spine[0], view.spine[i]) && view.spine[i] in view.repr {
      }
      assert view.spine[0].blk.off == |view.parts[0]|;
      var blk := ends.first.blk.Drop(n);
      ReplaceFirst(view.parts, view.parts[0][n..]);
      ends.first.blk, counts, view :=
        blk, counts.(total := counts.total - n), view.(parts := view.parts[0 := view.parts[0][n..]]);
    }

    /** The end of evbuffer_pullup: `target`, holding everything, is the only chain left. */
    method PullAll(target: Chain, blk: Block)
      requires Valid() && (target !in view.repr || (view.spine != [] && target == view.spine[0]))
      requires blk.Ok() && blk.off > 0 && blk.Data() == Contents()
      modifies this`ends, this`view, target
      ensures Valid() && Contents() == old(Contents())
      ensures view.repr == old(view.repr) + {target} && ends == Ends(target, target, First) && target.blk == blk
    {
      ConcatSingle(blk.Data());
      target.blk, target.next, view, ends :=
        blk, null, View([target], [blk.Data()], view.repr + {target}), Ends(target, target, First);
    }

    /**
     The end of evbuffer_pullup: `target`, holding `blk`, replaces the chains before `k` and takes
     over the first `drop` bytes of chain `k`.
     */
    method PullSome(target: Chain, blk: Block, ghost k: nat, rest: Chain, drop: nat)
      requires Valid() && 0 < k < |view.spine| && rest == view.spine[k] && rest in view.repr && drop < rest.blk.off
      requires target !in view.repr || target == view.spine[0]
      requires blk.Ok() && blk.off == Offset(view.parts, k) + drop <= counts.total
               && blk.Data() == Contents()[..blk.off]
      requires blk.off > 0
      modifies this`ends, this`counts, this`view, target, rest`blk
      ensures Valid() && Contents() == old(Contents()) && counts == old(counts)
      ensures view.repr <= old(view.repr) + {target} && target in view.repr && ends.first == target
              && target.blk == blk
      ensures ends.lastWithDatap == if k == |old(view.spine)| - 1 then NextOf(target) else old(ends.lastWithDatap)
    {
      ghost var spine, flat := view.spine, Contents();
      assert flat[..blk.off] + flat[blk.off..] == flat;
      GivenUp(spine, view.repr, k, target);
      LastSlot(spine, view.repr, k);
      CutFront(k, rest, drop, blk.off, if rest == ends.last then First else ends.lastWithDatap);
      LinkFirst(target, blk);
    }

    /** evbuffer_free_trailing_empty_chains: drops the single empty chain, if that is all there is. */
    method FreeTrailingEmptyChains() returns (ch: Slot)
      requires Valid()
      modifies this`ends, this`view
      ensures counts.total == 0 ==>
                view == View([], [], old(view.repr)) && ends.first == null
                && ends.lastWithDatap == First
      ensures counts.total > 0 ==> view == old(view) && ends == old(ends) && view.spine != []
      ensures ch == SlotAt(view.spine, |view.spine|)
    {
      PositiveParts(view.parts);
      ch := ends.lastWithDatap;
      ghost var i := if view.spine == [] then 0 else |view.spine| - 1;
      while Deref(ch) != null && Deref(ch).blk.off != 0
        invariant i <= |view.spine| && ch == SlotAt(view.spine, i)
        invariant view.spine != [] ==> i >= |view.spine| - 1
        invariant i == |view.spine| && view.spine != [] ==> ends.last.blk.off != 0
        decreases |view.spine| - i
      {
        ch := NextOf(Deref(ch));
        i := i + 1;
      }
      if Deref(ch) != null {
        assert i == |view.spine| - 1 && view.parts[i] == [];
        ends := ends.(first := null);
        view := View([], [], view.repr);
      } else if view.spine != [] {
        assert view.parts[|view.spine| - 1] != [];
      }
    }

    /** Hangs `chain` behind the last chain of a buffer with data. */
    method LinkLast(chain: Chain)
      requires Valid() && counts.total > 0 && chain !in view.repr && chain.blk.Ok() && chain.next == null
               && chain.blk.off > 0
      requires ends.last != null && ends.last in view.repr
      modifies this`ends, this`counts, this`view, ends.last`next
      ensures Valid() && Contents() == old(Contents() + chain.blk.Data())
      ensures ends.last == chain && view.repr == old(view.repr) + {chain}
      ensures counts == old(counts.(total := counts.total + chain.blk.off))
    {
      ghost var n, data := |view.spine| - 1, chain.blk.Data();
      forall i | 0 <= i < n ensures Apart(view.spine[i], view.spine[n]) && view.spine[i] in view.repr {
      }
      PositiveParts(view.parts);
      ConcatAppend(view.parts, [data]);
      ConcatSingle(data);
      ends.last.next, ends, counts, view :=
        chain, ends.(lastWithDatap := NextOf(ends.last), last := chain),
        counts.(total := counts.total + chain.blk.off),
        View(view.spine + [chain], view.parts + [data], view.repr + {chain});
    }

    /** Makes `chain` the only chain of a buffer without data. */
    method LinkOnly(chain: Chain)
      requires chain !in view.repr && chain.blk.Ok() && chain.next == null && counts.total == 0
      modifies this`ends, this`counts, this`view
      ensures Valid() && Contents() == chain.blk.Data()
      ensures ends.first == chain && ends.last == chain && view.repr == old(view.repr) + {chain}
      ensures counts == old(counts.(total := counts.total + chain.blk.off))
    {
      ConcatSingle(chain.blk.Data());
      ends, counts, view :=
        Ends(chain, chain, First), counts.(total := counts.total + chain.blk.off),
        View([chain], [chain.blk.Data()], view.repr + {chain});
    }

    /** evbuffer_chain_insert, for a chain that already holds its data. */
    method ChainInsert(chain: Chain)
      requires Valid() && chain !in view.repr && chain.blk.Ok() && chain.next == null
      requires chain.blk.off > 0 || view.spine == []
      modifies this`ends, this`counts, this`view, view.repr`next
      ensures Valid() && Contents() == old(Contents() + chain.blk.Data())
      ensures ends.last == chain && view.repr == old(view.repr) + {chain}
      ensures old(view.spine) == [] ==> ends.first == chain
      ensures counts == old(counts.(total := counts.total + chain.blk.off))
    {
      if Deref(ends.lastWithDatap) == null {
        LinkOnly(chain);
      } else {
        assert view.spine[|view.spine| - 1] in view.repr;
        var chp := FreeTrailingEmptyChains();
        if chp == First {
          LinkOnly(chain);
        } else {
          LinkLast(chain);
        }
      }
    }
  }

  lemma {:induction false} ReplaceLast(parts: seq<bytes>, p: bytes)
    requires parts != []
    ensures Concat(parts[|parts| - 1 := p]) == Concat(parts[..|parts| - 1]) + p
    ensures Concat(parts) == Concat(parts[..|parts| - 1]) + parts[|parts| - 1]
  {
    var n := |parts| - 1;
    ConcatAppend(parts[..n], [p]);
    ConcatSingle(p);
    ConcatExtend(parts, n);
    assert parts[..n + 1] == parts;
    assert parts[n := p] == parts[..n] + [p];
  }

  lemma {:induction false} ReplaceFirst(parts: seq<bytes>, p: bytes)
    requires parts != []
    ensures Concat(parts[0 := p]) == p + Concat(parts[1..])
    ensures Concat(parts) == parts[0] + Concat(parts[1..])
  {
    assert parts[0 := p][1..] == parts[1..];
  }

  lemma {:induction false} ConcatPrepend(p: bytes, parts: seq<bytes>)
    ensures Concat([p] + parts) == p + Concat(parts)
  {
    assert ([p] + parts)[1..] == parts;
  }

  /** What is left behind the first `k` parts. */
  lemma {:induction false} PartsFrom(parts: seq<bytes>, k: nat)
    requires k <= |parts|
    ensures Offset(parts, k) <= |Concat(parts)| && Concat(parts[k..]) == Concat(parts)[Offset(parts, k)..]
  {
    OffsetIs(parts, k);
    ConcatSplit(parts, k);
  }

  lemma {:induction false} PartAt(parts: seq<bytes>, k: nat, from: nat, n: nat)
    requires k < |parts| && from + n <= |parts[k]|
    ensures Offset(parts, k) + |parts[k]| <= |Concat(parts)|
    ensures parts[k][from..from + n] == Concat(parts)[Offset(parts, k) + from..Offset(parts, k) + from + n]
  {
    OffsetIs(parts, k);
    ConcatSplit(parts, k);
    ConcatExtend(parts, k);
    MiddleSlice(Concat(parts[..k]), parts[k], Concat(parts[k + 1..]), Concat(parts), from, n);
  }

  lemma {:induction false} MiddleSlice(a: bytes, b: bytes, c: bytes, s: bytes, from: nat, n: nat)
    requires s == a + (b + c) && from + n <= |b|
    ensures s[|a| + from..|a| + from + n] == b[from..from + n]
  {
  }

  /** Copying `n` more bytes, from byte `from` of part `k`, extends a slice of the flat string. */
  lemma {:induction false} CopyStep(parts: seq<bytes>, k: nat, from: nat, n: nat, data: bytes, a: nat)
    requires k < |parts| && from + n <= |parts[k]|
    requires var b := Offset(parts, k) + from; a <= b <= |Concat(parts)| && data == Concat(parts)[a..b]
    ensures var b := Offset(parts, k) + from + n;
            b <= |Concat(parts)| && data + parts[k][from..from + n] == Concat(parts)[a..b]
    ensures Offset(parts, k + 1) == Offset(parts, k) + |parts[k]| <= |Concat(parts)|
    ensures k + 1 == |parts| ==> Offset(parts, k + 1) == |Concat(parts)|
  {
    PartAt(parts, k, from, n);
    OffsetIs(parts, k + 1);
  }

  lemma {:induction false} CopyWhole(parts: seq<bytes>, k: nat, data: bytes, a: nat)
    requires k < |parts|
    requires var b := Offset(parts, k); a <= b <= |Concat(parts)| && data == Concat(parts)[a..b]
    ensures var b := Offset(parts, k + 1);
            b == Offset(parts, k) + |parts[k]| <= |Concat(parts)| && data + parts[k] == Concat(parts)[a..b]
    ensures k + 1 == |parts| ==> Offset(parts, k + 1) == |Concat(parts)|
  {
    CopyStep(parts, k, 0, |parts[k]|, data, a);
    assert parts[k][0..|parts[k]|] == parts[k];
  }

  /** More bytes than the first part has: there is a second one. */
  lemma {:induction false} BeyondFirst(parts: seq<bytes>, n: nat)
    requires parts != [] && |parts[0]| < n <= |Concat(parts)|
    ensures |parts| >= 2 && Offset(parts, 1) == |parts[0]|
    ensures Concat(parts)[..n] == parts[0] + Concat(parts)[|parts[0]|..n]
  {
    assert Concat(parts) == parts[0] + Concat(parts[1..]);
  }

  lemma {:induction false} PositiveParts(parts: seq<bytes>)
    requires NoEmpty(parts)
    ensures Concat(parts) == [] <==> parts == [] || (|parts| == 1 && parts[0] == [])
  {
    if parts != [] {
      assert Concat(parts) == parts[0] + Concat(parts[1..]);
      if |parts| == 1 {
        assert parts[1..] == [];
      }
    }
  }
}
