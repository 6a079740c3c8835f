/** When the loop of the HTTP client's chunked reader ends at all. */
module ChunkedEnds {
  import opened Options
  import opened Bytes
  import opened TextSearch
  import opened ChunkedMachine

  /** How many bytes the client takes off for a chunk of `size` behind a line of length `i`. */
  function Taken(i: nat, size: nat): nat {
    (i + 4 + size) % 0x1_0000_0000
  }

  /** The least number of bytes with which it takes the chunk for complete. */
  function Needed(i: nat, size: nat): nat {
    if Taken(i, size) > i + 2 then Taken(i, size) else i + 2
  }

  /** The size the client reads from a line of length `i`. */
  function SizeAt(s: bytes, i: nat): (size: nat)
    requires i <= |s|
    ensures size < Limit
  {
    LineLength(i);
    Strtoul16(s[..Unsigned(Signed(i))])
  }

  /**
   Chunk by chunk, as the client takes them off, the stream comes to one that with its size line is a multiple of
   2^32 long. How much is taken off does not depend on where the stream is cut.
   */
  predicate Sticks(s: bytes)
    decreases |s|
  {
    var i := Find(s, CrLf);
    i >= 0 &&
    var size := SizeAt(s, i);
    && size > 0
    && (Taken(i, size) == 0 || (Needed(i, size) <= |s| && Sticks(s[Taken(i, size)..])))
  }

  /** What the client has noted is the first line of its body. */
  predicate InOrder(c: Client) {
    && Seen(c)
    && (c.findFirstChunk ==>
          var i := Find(c.body, CrLf);
          i >= 0 && c.chunkSizeLength == Signed(i) && LineLengthOk(i, c.body)
              && c.chunkSize == Signed(Strtoul16(c.body[..Unsigned(Signed(i))])))
  }

  predicate LineLengthOk(i: nat, body: bytes) {
    Unsigned(Signed(i)) <= |body|
  }

  /** A chunk that, with its size line, is a multiple of 2^32 long: nothing is taken off. */
  predicate Stuck(c: Client) {
    InOrder(c) && c.findFirstChunk && c.chunkSize != 0 && FirstLength(c) == 0
  }

  lemma {:induction false} KeepsOrder(c: Client)
    requires InOrder(c) && Round(c).Going?
    ensures InOrder(Round(c).c)
  {
    if !c.findFirstChunk && Find(c.body, CrLf) >= 0 {
      LineLength(Find(c.body, CrLf));
    } else if c.findFirstChunk && Round(c) == Received(c) {
      var i, data := Find(c.body, CrLf), c.incoming[0];
      FindStable(c.body, data, CrLf);
      assert (c.body + data)[..Unsigned(Signed(i))] == c.body[..Unsigned(Signed(i))];
    }
  }

  /** Two turns later everything is as before, and the data has been handed on once more. */
  lemma {:induction false} StuckTurns(c: Client)
    requires Stuck(c)
    ensures Round(c).Going? && Round(Round(c).c) == Going(c.(received := Round(c).c.received))
  {
    assert c.body[0..] == c.body;
    assert Round(c).c.body == c.body;
  }

  /** Stuck, or about to note the same line once more. */
  predicate Loops(c: Client)
    requires Seen(c)
  {
    Stuck(c) || (!c.findFirstChunk && Round(c).Going? && Stuck(Round(c).c))
  }

  lemma {:induction false} LoopsOn(c: Client)
    requires Seen(c) && Loops(c)
    ensures Round(c).Going? && Loops(Round(c).c)
  {
    if Stuck(c) {
      StuckTurns(c);
      StuckStill(c, Round(c).c.received);
    }
  }

  lemma {:induction false} StuckStill(c: Client, received: bytes)
    requires Stuck(c)
    ensures Stuck(c.(received := received))
  {
  }

  lemma {:induction false} LoopsForever(c: Client, n: nat)
    requires Seen(c) && Loops(c)
    ensures Rounds(c, n).Going?
    decreases n
  {
    if n > 0 {
      LoopsOn(c);
      LoopsForever(Round(c).c, n - 1);
    }
  }

  /** A turn that is not stuck uses something up. */
  lemma {:induction false} UsesUp(c: Client)
    requires InOrder(c) && !Stuck(c) && Round(c).Going?
    ensures var c' := Round(c).c;
            || |c'.incoming| < |c.incoming|
            || (c'.incoming == c.incoming && |c'.body| < |c.body|)
            || (c'.incoming == c.incoming && c'.body == c.body && c'.findFirstChunk && !c.findFirstChunk)
  {
  }

  lemma {:induction false} OneTurnOn(c: Client)
    requires Seen(c) && Round(c).Going?
    ensures Ends(c) <==> Ends(Round(c).c)
  {
    var c' := Round(c).c;
    if Ends(c) {
      var n: nat :| !Rounds(c, n).Going?;
      assert !Rounds(c', n - 1).Going?;
    }
    if Ends(c') {
      var n: nat :| !Rounds(c', n).Going?;
      assert !Rounds(c, n + 1).Going?;
    }
  }

  /** The client's own numbers for its first line. */
  lemma {:induction false} Numbers(c: Client, left: bytes)
    requires InOrder(c) && c.findFirstChunk && c.body <= left
    ensures var i := Find(c.body, CrLf);
            && 0 <= i && i + 2 <= |c.body| && Find(left, CrLf) == i
            && (c.chunkSize == 0 <==> SizeAt(left, i) == 0) && FirstLength(c) == Taken(i, SizeAt(left, i))
  {
    var i, rest := Find(c.body, CrLf), left[|c.body|..];
    assert left == c.body + rest;
    FindStable(c.body, rest, CrLf);
    LineLength(i);
    assert left[..Unsigned(Signed(i))] == c.body[..Unsigned(Signed(i))];
    SignedTotal(i, SizeAt(left, i));
  }

  /** Sums of ints, brought back to a size_t, are sums modulo 2^32. */
  lemma {:induction false} SignedTotal(i: nat, size: nat)
    requires size < Limit
    ensures Unsigned(Signed(i) + 2 + Signed(size) + 2) == Taken(i, size) && (Signed(size) == 0 <==> size == 0)
  {
    SignedIs(i);
    SignedIs(size);
    var q := i / 0x1_0000_0000 + (if Signed(i % 0x1_0000_0000) == i % 0x1_0000_0000 then 0 else 1)
             + (if Signed(size) == size then 0 else 1);
    assert Signed(i) + 2 + Signed(size) + 2 == i + 4 + size - q * 0x1_0000_0000;
    WholeTurns(i + 4 + size, q);
  }

  lemma {:induction false} SignedIs(x: nat)
    ensures var r := x % 0x1_0000_0000;
            && Signed(x) == Signed(r) && (Signed(r) == r || Signed(r) == r - 0x1_0000_0000)
            && (Signed(r) == 0 <==> r == 0)
  {
  }

  /** The loop ends, however the stream is cut, if and only if the stream does not stick. */
  lemma {:induction false} EndsExactly(c: Client, left: bytes)
    requires InOrder(c) && left == c.body + Arriving(c.incoming)
    ensures Ends(c) <==> !Sticks(left)
    decreases |c.incoming|, |c.body|, !c.findFirstChunk
  {
    if c.findFirstChunk {
      Numbers(c, left);
    }
    if Stuck(c) {
      StuckEnds(c);
    } else if Round(c).Going? {
      KeepsOrder(c);
      UsesUp(c);
      Onward(c);
      EndsExactly(Round(c).c, Left(Round(c).c));
      OneTurnOn(c);
    } else {
      assert Rounds(c, 1) == Round(c);
      Finished(c, left);
    }
  }

  lemma {:induction false} StuckEnds(c: Client)
    requires Stuck(c)
    ensures !Ends(c)
  {
    forall n: nat ensures Rounds(c, n).Going? {
      LoopsForever(c, n);
    }
  }

  /** The loop is over: nothing is left to stick at. */
  lemma {:induction false} Finished(c: Client, left: bytes)
    requires InOrder(c) && left == c.body + Arriving(c.incoming) && !Round(c).Going?
    ensures !Sticks(left)
  {
    if c.findFirstChunk {
      Numbers(c, left);
    }
    assert c.body + [] == c.body;
  }

  function Left(c: Client): bytes {
    c.body + Arriving(c.incoming)
  }

  /** A turn leaves what sticks sticking. */
  lemma {:induction false} Onward(c: Client)
    requires InOrder(c) && !Stuck(c) && Round(c).Going?
    ensures Sticks(Left(c)) <==> Sticks(Left(Round(c).c))
  {
    if c.findFirstChunk && |c.body| >= FirstLength(c) {
      CutOnward(c);
    } else if c.findFirstChunk || Find(c.body, CrLf) == -1 {
      ReadOnward(c);
    }
  }

  lemma {:induction false} CutOnward(c: Client)
    requires InOrder(c) && c.findFirstChunk && 0 < FirstLength(c) <= |c.body| && Round(c).Going?
    ensures Sticks(Left(c)) <==> Sticks(Left(Round(c).c))
  {
    var left := Left(c);
    Numbers(c, left);
    SticksOn(left, Find(left, CrLf), FirstLength(c));
    CutLeft(c, FirstLength(c));
  }

  lemma {:induction false} CutLeft(c: Client, n: nat)
    requires Seen(c) && c.findFirstChunk && c.chunkSize != 0 && n == FirstLength(c) <= |c.body|
    ensures Round(c).Going? && Left(Round(c).c) == Left(c)[n..]
  {
    DropFront(c.body, Arriving(c.incoming), n);
  }

  lemma {:induction false} DropFront(body: bytes, coming: bytes, n: nat)
    requires n <= |body|
    ensures (body + coming)[n..] == body[n..] + coming
  {
  }

  lemma {:induction false} SticksOn(s: bytes, i: nat, n: nat)
    requires Find(s, CrLf) == i && i + 2 <= |s| && SizeAt(s, i) > 0 && 0 < n == Taken(i, SizeAt(s, i)) <= |s|
    ensures Sticks(s) <==> Sticks(s[n..])
  {
  }

  lemma {:induction false} ReadOnward(c: Client)
    requires Seen(c) && Received(c).Going?
    ensures Left(c) == Left(Received(c).c)
  {
    var data, later := c.incoming[0], Arriving(c.incoming[1..]);
    assert c.body + (data + later) == (c.body + data) + later;
  }

  /** A stream without oversized chunks does not stick. */
  lemma {:induction false} AddressableEnds(left: bytes)
    requires Addressable(left)
    ensures !Sticks(left)
  {
    var c := Start(left, []);
    assert left + [] == left;
    EveryFragmentation(c, left);
    var n: nat :| Rounds(c, n) == Result(c.received, Decode(left));
    EndsExactly(c, left);
  }
}
