/** Streams written as section 4.1 of RFC 7230 says, and what the client makes of them. */
module ChunkedStreams {
  import opened Bytes
  import opened TextSearch
  import opened Options
  import opened ChunkedMachine
  import opened ChunkedEnds
  import opened ChunkedBodies

  /** A chunk: its size in hexadecimal digits, its extensions, its data. */
  datatype Chunk = Chunk(digits: bytes, ext: bytes, data: bytes)

  const LowerDigits: string := "0123456789abcdef"
  const UpperDigits: string := "0123456789ABCDEF"

  /** `b` is the digit of value `d`, in either case. */
  predicate DigitFor(b: byte, d: nat)
    requires d < 16
  {
    b == LowerDigits[d] as int || b == UpperDigits[d] as int
  }

  /** `s` is the number `n` in hexadecimal digits, leading zeros and mixed cases allowed. */
  predicate Writes(s: bytes, n: nat) {
    if s == [] then n == 0 else DigitFor(s[|s| - 1], n % 16) && Writes(s[..|s| - 1], n / 16)
  }

  /** `n` as printf writes it with %x or %X. */
  function Printed(n: nat, table: string): seq<char>
    requires |table| == 16
  {
    if n < 16 then [table[n]] else Printed(n / 16, table) + [table[n % 16]]
  }

  /** The client takes for digits what the tables hold, and reads each as its place in them. */
  lemma {:induction false} TableRead(b: byte, d: nat)
    requires d < 16
    ensures DigitFor(b, d) <==> IsHex(b) && HexDigit(b) == d
  {
    var lower, upper := LowerDigits[d] as int, UpperDigits[d] as int;
    if d < 10 {
      TableTens(d);
    } else {
      TableLetters(d);
    }
  }

  lemma {:induction false} TableTens(d: nat)
    requires d < 10
    ensures LowerDigits[d] as int == UpperDigits[d] as int == 48 + d
  {
  }

  lemma {:induction false} TableLetters(d: nat)
    requires 10 <= d < 16
    ensures LowerDigits[d] as int == 87 + d && UpperDigits[d] as int == 55 + d
  {
  }

  lemma {:induction false} WritesIs(s: bytes, n: nat)
    requires Writes(s, n)
    ensures (forall b <- s :: IsHex(b)) && HexValue(s) == n
    decreases |s|
  {
    if s != [] {
      var front, last := s[..|s| - 1], s[|s| - 1];
      WritesIs(front, n / 16);
      TableRead(last, n % 16);
      forall b | b in s ensures IsHex(b) {
        assert s == front + [last];
        assert b in front || b == last;
      }
    }
  }

  function HexValue(s: bytes): nat
    requires forall b <- s :: IsHex(b)
  {
    if s == [] then 0 else 16 * HexValue(s[..|s| - 1]) + HexDigit(s[|s| - 1])
  }

  /** What else strtoul takes: spaces, a sign, "0x"; a minus wraps, and what is too large becomes the largest. */
  lemma {:induction false} SignsAndPrefixes(s: bytes, n: nat)
    requires s != [] && Writes(s, n) && (|s| >= 2 ==> s[1] != 120 && s[1] != 88)
    ensures Strtoul16([32] + s) == Strtoul16([43] + s) == Strtoul16([48, 120] + s) == Strtoul16(s)
    ensures Strtoul16(s) == if n < Limit then n else Limit - 1
    ensures Strtoul16([45] + s) == if n < Limit then (0 - n) % 0x1_0000_0000 else Limit - 1
  {
    WritesIs(s, n);
    ScanAll(s);
    assert s[0] in s;
    PlainNumber(s);
    assert ([32] + s)[1..] == s && ([43] + s)[1..] == s && ([45] + s)[1..] == s && ([48, 120] + s)[2..] == s;
    assert SkipPrefix(s) == s && SkipPrefix([48, 120] + s) == s;
  }

  function Line(c: Chunk): bytes {
    c.digits + c.ext
  }

  /** The size is the length of the data, nothing is read into the size from behind it, and the line is one line. */
  predicate WellFormed(c: Chunk) {
    && c.digits != [] && Writes(c.digits, |c.data|)
    && (c.ext != [] ==> !IsHex(c.ext[0]) && c.ext[0] != 120 && c.ext[0] != 88)
    && Find(Line(c), CrLf) == -1
    && |Line(c)| + 4 + |c.data| < Limit
  }

  function Text(c: Chunk): bytes {
    Line(c) + CrLf + c.data + CrLf
  }

  /** The chunks, the last chunk's line and whatever trailer or further response comes behind it. */
  function Stream(chunks: seq<Chunk>, last: Chunk, trailer: bytes): bytes {
    if chunks == [] then Line(last) + CrLf + trailer else Text(chunks[0]) + Stream(chunks[1..], last, trailer)
  }

  function Body(chunks: seq<Chunk>): bytes {
    if chunks == [] then [] else chunks[0].data + Body(chunks[1..])
  }

  lemma {:induction false} ScanIs(done: bytes, digits: bytes, ext: bytes)
    requires forall b <- done + digits :: IsHex(b)
    requires ext != [] ==> !IsHex(ext[0])
    ensures (forall b <- done :: IsHex(b)) && Scan(digits + ext, HexValue(done)) == HexValue(done + digits)
    decreases |digits|
  {
    assert forall b <- done :: b in done + digits;
    if digits == [] {
      assert digits + ext == ext && done + digits == done;
    } else {
      var d := digits[0];
      assert d in done + digits;
      var done' := done + [d];
      assert done' + digits[1..] == done + digits;
      ScanIs(done', digits[1..], ext);
      assert done'[..|done|] == done && done'[|done|] == d;
      assert (digits + ext)[1..] == digits[1..] + ext;
    }
  }

  /** The client reads the size that was written. */
  lemma {:induction false} SizeRead(c: Chunk)
    requires WellFormed(c)
    ensures Strtoul16(Line(c)) == |c.data|
  {
    WritesIs(c.digits, |c.data|);
    NumberStart(c);
    PlainNumber(Line(c));
    assert [] + c.digits == c.digits && HexValue([]) == 0;
    ScanIs([], c.digits, c.ext);
  }

  function Codes(s: string): (r: seq<int>)
    ensures |r| == |s| && forall i :: 0 <= i < |s| ==> r[i] == s[i] as int
  {
    seq(|s|, i requires 0 <= i < |s| => s[i] as int)
  }

  /** What printf writes of a size, in either case, strtoul reads back. */
  lemma {:induction false} PrintedRead(n: nat, table: string, s: bytes)
    requires n < Limit && (table == LowerDigits || table == UpperDigits) && s == Codes(Printed(n, table))
    ensures Strtoul16(s) == n
  {
    PrintedWrites(n, table, s);
    WrittenRead(s, n);
  }

  /** So it reads every number below 2^32, however many zeros it starts with. */
  lemma {:induction false} WrittenRead(s: bytes, n: nat)
    requires s != [] && Writes(s, n) && n < Limit
    ensures Strtoul16(s) == n
  {
    WritesIs(s, n);
    ScanAll(s);
    assert s[0] in s && (|s| >= 2 ==> s[1] in s);
    PlainNumber(s);
  }

  lemma {:induction false} ScanAll(s: bytes)
    requires forall b <- s :: IsHex(b)
    ensures Scan(s, 0) == HexValue(s)
  {
    assert [] + s == s && s + [] == s;
    assert forall b <- [] + s :: IsHex(b);
    ScanIs([], s, []);
  }

  lemma {:induction false} PrintedWrites(n: nat, table: string, s: bytes)
    requires (table == LowerDigits || table == UpperDigits) && s == Codes(Printed(n, table))
    ensures s != [] && Writes(s, n)
    decreases n
  {
    var digits := Printed(n, table);
    assert s[|s| - 1] == digits[|digits| - 1] as int;
    if n >= 16 {
      assert s[..|s| - 1] == Codes(Printed(n / 16, table));
      PrintedWrites(n / 16, table, s[..|s| - 1]);
    } else {
      assert s[..|s| - 1] == [] && n / 16 == 0;
    }
  }

  lemma {:induction false} NumberStart(c: Chunk)
    requires WellFormed(c)
    ensures var s := Line(c);
            IsHex(s[0]) && (|s| >= 2 ==> s[1] != 120 && s[1] != 88)
  {
    var s := Line(c);
    WritesIs(c.digits, |c.data|);
    assert s[0] == c.digits[0] && c.digits[0] in c.digits;
    if |c.digits| >= 2 {
      assert s[1] == c.digits[1] && c.digits[1] in c.digits;
    } else if |s| >= 2 {
      assert s[1] == c.ext[0];
    }
  }

  lemma {:induction false} PlainNumber(s: bytes)
    requires s != [] && IsHex(s[0]) && (|s| >= 2 ==> s[1] != 120 && s[1] != 88)
    ensures Strtoul16(s) == if Scan(s, 0) < Limit then Scan(s, 0) else Limit - 1
  {
    assert SkipPrefix(s) == s;
  }

  lemma {:induction false} LineFound(c: Chunk, rest: bytes, s: bytes)
    requires WellFormed(c) && s == Line(c) + CrLf + rest
    ensures Find(s, CrLf) == |Line(c)| && s[..|Line(c)|] == Line(c)
  {
    var line := Line(c);
    forall k: nat | k < |line| ensures !OccursAt(s, CrLf, k) {
      if OccursAt(s, CrLf, k) {
        assert s[k..k + 2][0] == s[k] == 13 && s[k..k + 2][1] == s[k + 1] == 10;
        assert s[|line|] == 13;
        assert line[k..k + 2] == s[k..k + 2];
        FindLeast(line, CrLf, 0, k);
      }
    }
    FindIs(s, CrLf, |line|);
  }

  /** A stream of well-formed chunks decodes to the data of its chunks, in order. */
  lemma {:induction false} StreamDecodes(chunks: seq<Chunk>, last: Chunk, trailer: bytes)
    requires forall c <- chunks :: WellFormed(c) && c.data != []
    requires WellFormed(last) && last.data == []
    ensures Decode(Stream(chunks, last, trailer)) == Some(Body(chunks))
    ensures Addressable(Stream(chunks, last, trailer))
  {
    var s := Stream(chunks, last, trailer);
    if chunks == [] {
      LineFound(last, trailer, s);
      SizeRead(last);
    } else {
      var c, rest := chunks[0], Stream(chunks[1..], last, trailer);
      StreamDecodes(chunks[1..], last, trailer);
      ChunkDecodes(c, rest, s);
    }
  }

  lemma {:induction false} ChunkDecodes(c: Chunk, rest: bytes, s: bytes)
    requires WellFormed(c) && c.data != [] && s == Text(c) + rest
    ensures Decode(s) == Behind(c.data, Decode(rest)) && (Addressable(s) <==> Addressable(rest))
  {
    TextSplit(c, rest, s);
    LineFound(c, c.data + CrLf + rest, s);
    SizeRead(c);
    FirstChunk(s, |Line(c)|, |c.data|, c.data, rest);
  }

  lemma {:induction false} TextSplit(c: Chunk, rest: bytes, s: bytes)
    requires s == Text(c) + rest
    ensures var i := |Line(c)|;
            && s == Line(c) + CrLf + (c.data + CrLf + rest)
            && i + 4 + |c.data| <= |s| && s[i + 2..i + 2 + |c.data|] == c.data && s[i + 4 + |c.data|..] == rest
  {
  }

  /**
   Whatever pieces a header and a well-formed chunked stream arrive in, the client ends with the header and the data.
   */
  method ReceiveWellFormed(socket: Socket, ghost header: bytes, ghost chunks: seq<Chunk>, ghost last: Chunk,
      ghost trailer: bytes)
    returns (complete: bool, head: bytes, body: bytes)
    requires |header| >= 4 && Find(header, HeaderEnd) == |header| - 4
    requires forall c <- chunks :: WellFormed(c) && c.data != []
    requires WellFormed(last) && last.data == []
    requires Arriving(socket.incoming) == header + Stream(chunks, last, trailer)
    modifies socket
    ensures complete && head == header && body == Body(chunks)
  {
    ghost var stream := Stream(chunks, last, trailer);
    StreamDecodes(chunks, last, trailer);
    FindStable(header, stream, HeaderEnd);
    assert (header + stream)[|header|..] == stream && (header + stream)[..|header|] == header;
    AddressableEnds(stream);
    complete, head, body := GetChunkedResponse(socket);
  }
}
