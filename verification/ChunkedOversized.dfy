/** Chunks that, with their size line, reach 2^32: where the client's arithmetic wraps around. */
module ChunkedOversized {
  import opened Options
  import opened Bytes
  import opened TextSearch
  import opened ChunkedMachine
  import opened ChunkedEnds

  /** `left` begins with a size line of length `i` that says `size`. */
  predicate FirstLine(left: bytes, i: nat, size: nat) {
    Find(left, CrLf) == i && i + 2 < Limit && i <= |left| && Strtoul16(left[..i]) == size > 0
  }

  /** The client that holds the first `k` bytes, the rest coming in one piece. */
  function Holding(left: bytes, k: nat): Client
    requires k <= |left|
  {
    Start(left[..k], [left[k..]])
  }

  /** With `k` bytes before it, the client finds the line and takes the chunk off at once. */
  predicate CutsAt(left: bytes, k: nat) {
    k <= |left| && Rounds(Holding(left, k), 2).Going? && !Rounds(Holding(left, k), 2).c.findFirstChunk
                && Find(left[..k], CrLf) >= 0
  }

  /** What it then hands on as the chunk's data. */
  function DataAt(left: bytes, k: nat): bytes
    requires CutsAt(left, k)
  {
    Rounds(Holding(left, k), 2).c.received
  }

  lemma {:induction false} PrefixLine(left: bytes, i: nat, k: nat)
    requires Find(left, CrLf) == i && k <= |left|
    ensures Find(left[..k], CrLf) == if k >= i + 2 then i else -1
    ensures k >= i + 2 ==> left[..k][..i] == left[..i]
  {
    assert left == left[..k] + left[k..];
    if Find(left[..k], CrLf) >= 0 {
      FindStable(left[..k], left[k..], CrLf);
    }
    if k >= i + 2 {
      assert left[..k][i..i + 2] == left[i..i + 2];
      FindLeast(left[..k], CrLf, 0, i);
    }
  }

  /** The sums in the source's arithmetic, all of it modulo 2^32. */
  lemma {:induction false} WrappedSums(i: nat, size: nat)
    requires i + 2 < Limit && 0 < size < Limit
    ensures Unsigned(Signed(i)) == i && Unsigned(Signed(i) + 2) == i + 2 && Unsigned(Signed(size)) == size
    ensures Unsigned(Signed(i) + 2 + Signed(size) + 2) == Taken(i, size) && Signed(size) != 0
  {
    var p := Borrowed(i);
    var q := Borrowed(size);
    WholeTurns(i, p);
    WholeTurns(i + 2, p);
    WholeTurns(size, q);
    Within(i);
    Within(i + 2);
    Within(size);
    SignedTotal(i, size);
  }

  /** The client once it has found the line. */
  function Sized(left: bytes, k: nat, i: nat, size: nat): Client
    requires k <= |left|
  {
    Client(left[..k], true, Signed(i), Signed(size), [], [left[k..]])
  }

  /** The client once it has taken the chunk off. */
  function Cut(left: bytes, k: nat, i: nat, size: nat): Client
    requires Needed(i, size) <= k <= |left|
  {
    Client(left[Taken(i, size)..k], false, Signed(i), Signed(size), Substr(left[..k], i + 2, size), [left[k..]])
  }

  lemma {:induction false} FindsLine(left: bytes, k: nat, i: nat, size: nat)
    requires FirstLine(left, i, size) && i + 2 <= k <= |left|
    ensures Round(Holding(left, k)) == Going(Sized(left, k, i, size))
  {
    PrefixLine(left, i, k);
    WrappedSums(i, size);
  }

  lemma {:induction false} TakesChunk(left: bytes, k: nat, i: nat, size: nat)
    requires FirstLine(left, i, size) && i + 2 <= k <= |left|
    ensures Seen(Sized(left, k, i, size))
    ensures Needed(i, size) <= k ==> Round(Sized(left, k, i, size)) == Going(Cut(left, k, i, size))
    ensures k < Needed(i, size) ==> Round(Sized(left, k, i, size)) == Received(Sized(left, k, i, size))
  {
    var c := Sized(left, k, i, size);
    WrappedSums(i, size);
    assert FirstLength(c) == Taken(i, size) && Unsigned(c.chunkSizeLength + 2) == i + 2;
    if Needed(i, size) <= k {
      MiddlePart(left, Taken(i, size), k);
      assert [] + Substr(left[..k], i + 2, size) == Substr(left[..k], i + 2, size);
    }
  }

  lemma {:induction false} MiddlePart(left: bytes, t: nat, k: nat)
    requires t <= k <= |left|
    ensures left[..k][t..] == left[t..k]
  {
  }

  /** At which points the client cuts, and what it cuts. */
  lemma {:induction false} CutIs(left: bytes, k: nat, i: nat, size: nat)
    requires FirstLine(left, i, size) && k <= |left|
    ensures CutsAt(left, k) <==> Needed(i, size) <= k
    ensures CutsAt(left, k) ==> DataAt(left, k) == Substr(left[..k], i + 2, size)
  {
    PrefixLine(left, i, k);
    if i + 2 <= k {
      FindsLine(left, k, i, size);
      TakesChunk(left, k, i, size);
      assert Rounds(Holding(left, k), 2) == Rounds(Sized(left, k, i, size), 1);
    }
  }

  /** All the points at which the client may cut give the same data. */
  ghost predicate CutsAgree(left: bytes) {
    forall k, k' :: CutsAt(left, k) && CutsAt(left, k') ==> DataAt(left, k) == DataAt(left, k')
  }

  /**
   The data of the first chunk is independent of how the stream is cut if and only if the chunk with its size
   line stays below 2^32, or the stream ends where the client can first cut.
   */
  lemma {:induction false} CutsAgreeExactly(left: bytes, i: nat, size: nat)
    requires FirstLine(left, i, size)
    ensures CutsAgree(left) <==> i + 4 + size < Limit || |left| <= Needed(i, size)
  {
    var m := Needed(i, size);
    if i + 4 + size < Limit {
      forall k, k' | CutsAt(left, k) && CutsAt(left, k') ensures DataAt(left, k) == DataAt(left, k') {
        ExactData(left, k, i, size);
        ExactData(left, k', i, size);
      }
    } else if |left| <= m {
      forall k, k' | CutsAt(left, k) && CutsAt(left, k') ensures DataAt(left, k) == DataAt(left, k') {
        CutIs(left, k, i, size);
        CutIs(left, k', i, size);
      }
    } else {
      OneByteMore(left, i, size);
    }
  }

  lemma {:induction false} OneByteMore(left: bytes, i: nat, size: nat)
    requires FirstLine(left, i, size) && i + 4 + size >= Limit && |left| > Needed(i, size)
    ensures !CutsAgree(left)
  {
    var m := Needed(i, size);
    CutIs(left, m, i, size);
    CutIs(left, m + 1, i, size);
    OversizedSize(i, size);
    SubstrLength(left, m, i + 2, size);
    SubstrLength(left, m + 1, i + 2, size);
  }

  lemma {:induction false} SubstrLength(left: bytes, k: nat, start: nat, count: nat)
    requires start <= k <= |left|
    ensures |Substr(left[..k], start, count)| == if count <= k - start then count else k - start
  {
  }

  lemma {:induction false} ExactData(left: bytes, k: nat, i: nat, size: nat)
    requires FirstLine(left, i, size) && i + 4 + size < Limit && CutsAt(left, k)
    ensures i + 4 + size <= |left| && DataAt(left, k) == left[i + 2..i + 2 + size]
  {
    CutIs(left, k, i, size);
    WholeChunk(i, size);
    WholeData(left, k, i + 2, size);
  }

  lemma {:induction false} WholeChunk(i: nat, size: nat)
    requires i + 4 + size < Limit
    ensures Taken(i, size) == i + 4 + size <= Needed(i, size)
  {
  }

  lemma {:induction false} WholeData(left: bytes, k: nat, start: nat, count: nat)
    requires start + count <= k <= |left|
    ensures Substr(left[..k], start, count) == left[start..start + count]
  {
  }

  /** An oversized chunk is cut when at most one byte of data is there. */
  lemma {:induction false} OversizedSize(i: nat, size: nat)
    requires i + 2 < Limit <= i + 4 + size && 0 < size < Limit
    ensures Needed(i, size) - (i + 2) < size && Needed(i, size) <= i + 3
  {
  }

  // The whole client, when what follows the first chunk is decoded without trouble.

  /** After the cut, the client goes on with the rest of the stream, the same one wherever it cut. */
  lemma {:induction false} CutOutcome(left: bytes, k: nat, i: nat, size: nat)
    requires FirstLine(left, i, size) && CutsAt(left, k) && Taken(i, size) <= |left|
             && Addressable(left[Taken(i, size)..])
    ensures EndsWith(Holding(left, k), Result(DataAt(left, k), Decode(left[Taken(i, size)..])))
  {
    CutIs(left, k, i, size);
    PrefixLine(left, i, k);
    FindsLine(left, k, i, size);
    TakesChunk(left, k, i, size);
    var c, t := Cut(left, k, i, size), Taken(i, size);
    AfterCut(left, k, t);
    EveryFragmentation(c, left[t..]);
    OneMore(Sized(left, k, i, size), c, Result(c.received, Decode(left[t..])));
    OneMore(Holding(left, k), Sized(left, k, i, size), Result(c.received, Decode(left[t..])));
  }

  lemma {:induction false} AfterCut(left: bytes, k: nat, t: nat)
    requires t <= k <= |left|
    ensures left[t..k] + Arriving([left[k..]]) == left[t..]
  {
    assert [left[k..]][1..] == [];
  }

  /** The client ends in the same way from every point at which it may cut. */
  ghost predicate OutcomesAgree(left: bytes) {
    forall k, k', end, end' ::
      (CutsAt(left, k) && CutsAt(left, k') && EndsWith(Holding(left, k), end) && EndsWith(Holding(left, k'), end')) ==>
        end == end'
  }

  /** The outcome is independent of the cut exactly if the data is, or if nothing complete follows. */
  lemma {:induction false} OutcomesAgreeExactly(left: bytes, i: nat, size: nat)
    requires FirstLine(left, i, size) && Taken(i, size) <= |left| && Addressable(left[Taken(i, size)..])
    ensures OutcomesAgree(left) <==>
            i + 4 + size < Limit || |left| <= Needed(i, size) || Decode(left[Taken(i, size)..]) == None
  {
    CutsAgreeExactly(left, i, size);
    var d := Decode(left[Taken(i, size)..]);
    if CutsAgree(left) || d == None {
      forall k, k', end, end' | CutsAt(left, k) && CutsAt(left, k')
        && EndsWith(Holding(left, k), end) && EndsWith(Holding(left, k'), end')
        ensures end == end'
      {
        CutOutcome(left, k, i, size);
        CutOutcome(left, k', i, size);
        SameEnd(Holding(left, k), end, Result(DataAt(left, k), d));
        SameEnd(Holding(left, k'), end', Result(DataAt(left, k'), d));
      }
    } else {
      var k, k' :| CutsAt(left, k) && CutsAt(left, k') && DataAt(left, k) != DataAt(left, k');
      CutOutcome(left, k, i, size);
      CutOutcome(left, k', i, size);
      OtherBody(DataAt(left, k), DataAt(left, k'), d.value);
    }
  }

  lemma {:induction false} OtherBody(a: bytes, b: bytes, rest: bytes)
    ensures a + rest == b + rest ==> a == b
  {
    assert a == (a + rest)[..|a|] && b == (b + rest)[..|b|];
  }

  lemma {:induction false} SameEnd(c: Client, end: Status, end': Status)
    requires Seen(c) && EndsWith(c, end) && EndsWith(c, end')
    ensures end == end'
  {
    var n: nat :| Rounds(c, n) == end;
    var m: nat :| Rounds(c, m) == end';
    OneEnd(c, n, m);
  }

  // One stream, two bodies.

  const EightFs: bytes := [70, 70, 70, 70, 70, 70, 70, 70]

  /** FFFFFFFF, a line end, "X", and a last chunk. */
  const Oversized: bytes := EightFs + CrLf + [88, 48, 13, 10]

  /** In one piece it is taken for the body "X0" with a line end; cut after eleven bytes, for the body "X". */
  lemma {:induction false} OneStreamTwoBodies()
    ensures EndsWith(Holding(Oversized, 14), Complete([88, 48, 13, 10]))
    ensures EndsWith(Holding(Oversized, 11), Complete([88]))
  {
    OversizedLine(Oversized);
    OversizedRest(Oversized[11..]);
    OversizedBody(Oversized, 14, [88, 48, 13, 10]);
    OversizedBody(Oversized, 11, [88]);
  }

  lemma {:induction false} OversizedLine(s: bytes)
    requires s == Oversized
    ensures FirstLine(s, 8, 0xffff_ffff) && Taken(8, 0xffff_ffff) == 11
  {
    EightF(EightFs);
    LineAt(EightFs, [88, 48, 13, 10], s);
  }

  lemma {:induction false} OversizedRest(rest: bytes)
    requires rest == [48, 13, 10]
    ensures Addressable(rest) && Decode(rest) == Some([])
  {
    assert rest == [48] + CrLf + [];
    LineAt([48], [], rest);
    assert Scan([48], 0) == 0 && SkipPrefix([48]) == [48];
  }

  lemma {:induction false} OversizedBody(s: bytes, k: nat, data: bytes)
    requires s == Oversized && 11 <= k <= 14 && data == s[10..k]
    requires FirstLine(s, 8, 0xffff_ffff) && Addressable(s[11..]) && Decode(s[11..]) == Some([])
    ensures EndsWith(Holding(s, k), Complete(data))
  {
    CutIs(s, k, 8, 0xffff_ffff);
    assert Substr(s[..k], 10, 0xffff_ffff) == data && data + [] == data;
    CutOutcome(s, k, 8, 0xffff_ffff);
  }

  lemma {:induction false} LineAt(line: bytes, rest: bytes, s: bytes)
    requires s == line + CrLf + rest && forall b <- line :: b != 13
    ensures Find(s, CrLf) == |line| && s[..|line|] == line
  {
    forall k: nat | k < |line| ensures !OccursAt(s, CrLf, k) {
      assert s[k] == line[k] && line[k] in line;
    }
    assert s[|line|..|line| + 2] == CrLf;
    FindIs(s, CrLf, |line|);
  }

  lemma {:induction false} EightF(line: bytes)
    requires line == [70, 70, 70, 70, 70, 70, 70, 70]
    ensures Strtoul16(line) == 0xffff_ffff
  {
    assert SkipPrefix(line) == line;
    assert line + [] == line;
    ScanThen(line, [], 0);
    assert Sixteens(8) == 0x1_0000_0000;
  }

  function Sixteens(n: nat): (r: nat)
    ensures r > 0
  {
    if n == 0 then 1 else 16 * Sixteens(n - 1)
  }

  // A chunk of exactly 2^32 bytes.

  /** However a stream is cut that begins with such a chunk, the loop never ends. */
  lemma {:induction false} NeverEnds(bodyHeader: bytes, incoming: seq<bytes>, i: nat, size: nat)
    requires FirstLine(bodyHeader + Arriving(incoming), i, size) && i + 4 + size == Limit
    ensures !Ends(Start(bodyHeader, incoming))
  {
    var left := bodyHeader + Arriving(incoming);
    WrappedSums(i, size);
    assert SizeAt(left, i) == size && Sticks(left);
    EndsExactly(Start(bodyHeader, incoming), left);
  }

  /** The size FFFFFFF4 is one: with its line and its line ends, exactly 2^32. */
  lemma {:induction false} FFFFFFF4NeverEnds(bodyHeader: bytes, incoming: seq<bytes>, rest: bytes)
    requires bodyHeader + Arriving(incoming) == SevenFs + [52] + CrLf + rest
    ensures !Ends(Start(bodyHeader, incoming))
  {
    LineAt(SevenFs + [52], rest, SevenFs + [52] + CrLf + rest);
    SevenFsAnd4(SevenFs + [52]);
    NeverEnds(bodyHeader, incoming, 8, 0xffff_fff4);
  }

  const SevenFs: bytes := [70, 70, 70, 70, 70, 70, 70]

  lemma {:induction false} SevenFsAnd4(line: bytes)
    requires line == SevenFs + [52]
    ensures Strtoul16(line) == 0xffff_fff4
  {
    assert SkipPrefix(line) == line;
    ScanThen(SevenFs, [52], 0);
    assert Sixteens(7) == 0x1000_0000;
    assert Scan([52], 0xfff_ffff) == 0xffff_fff4;
  }

  lemma {:induction false} ScanThen(s: bytes, t: bytes, acc: nat)
    requires forall i :: 0 <= i < |s| ==> s[i] == 70
    ensures Scan(s + t, acc) == Scan(t, (acc + 1) * Sixteens(|s|) - 1)
  {
    if s == [] {
      assert s + t == t;
    } else {
      assert (s + t)[1..] == s[1..] + t;
      ScanThen(s[1..], t, 16 * acc + 15);
      Factors(acc, Sixteens(|s| - 1));
    }
  }

  lemma {:induction false} Factors(acc: nat, p: nat)
    ensures (16 * acc + 16) * p == (acc + 1) * (16 * p)
  {
  }
}
