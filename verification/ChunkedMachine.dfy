/** The loop in which the HTTP client reads a chunked body, as steps of a machine, and what it makes of a stream. */
module ChunkedMachine {
  import opened Options
  import opened Bytes
  import opened TextSearch

  const CrLf: bytes := [13, 10]
  const HeaderEnd: bytes := [13, 10, 13, 10]
  const Limit := 0x1_0000_0000

  /** size_t, unsigned long and the conversion back from int, all 32 bits wide. */
  function Unsigned(x: int): nat {
    x % 0x1_0000_0000
  }

  function Signed(x: nat): int {
    if x % 0x1_0000_0000 < 0x8000_0000 then x % 0x1_0000_0000 else x % 0x1_0000_0000 - 0x1_0000_0000
  }

  predicate IsHex(b: byte) {
    48 <= b <= 57 || 65 <= b <= 70 || 97 <= b <= 102
  }

  function HexDigit(b: byte): nat
    requires IsHex(b)
  {
    if b <= 57 then b - 48 else if b <= 70 then b - 55 else b - 87
  }

  /** The number written in the hexadecimal digits `s` starts with, behind the digits that gave `acc`. */
  function Scan(s: bytes, acc: nat): nat {
    if s == [] || !IsHex(s[0]) then acc else Scan(s[1..], 16 * acc + HexDigit(s[0]))
  }

  function SkipPrefix(s: bytes): bytes {
    if |s| >= 2 && s[0] == 48 && (s[1] == 120 || s[1] == 88) then s[2..] else s
  }

  /** strtoul(s, 0, 16): spaces, a sign and "0x" are skipped, too large a number becomes the largest one. */
  function Strtoul16(s: bytes): (r: nat)
    ensures r < Limit
  {
    if s == [] then 0
    else if s[0] == 32 || 9 <= s[0] <= 13 then Strtoul16(s[1..])
    else
      var value := Scan(SkipPrefix(if s[0] == 45 || s[0] == 43 then s[1..] else s), 0);
      if value >= Limit then Limit - 1 else if s[0] == 45 then Unsigned(0 - value) else value
  }

  /** The body carried by a whole chunked stream, if the stream reaches its last chunk. */
  function Decode(s: bytes): Option<bytes>
    decreases |s|, 1
  {
    if Find(s, CrLf) < 0 then None else DecodeFrom(s, Find(s, CrLf), Strtoul16(s[..Find(s, CrLf)]))
  }

  /** The same from a first size line of length `i` that says `size`. */
  function DecodeFrom(s: bytes, i: nat, size: nat): Option<bytes>
    decreases |s|, 0
  {
    if size == 0 then Some([])
    else if |s| < i + 4 + size then None
    else Behind(s[i + 2..i + 2 + size], Decode(s[i + 4 + size..]))
  }

  /** No chunk with its size line is as long as 2^32. */
  predicate Addressable(s: bytes)
    decreases |s|
  {
    var i := Find(s, CrLf);
    i < 0 ||
    var size := Strtoul16(s[..i]);
    && i + 4 + size < Limit
    && (0 < size && i + 4 + size <= |s| ==> Addressable(s[i + 4 + size..]))
  }

  /** `d` with more data in front of it. */
  function Behind(acc: bytes, d: Option<bytes>): Option<bytes> {
    match d
    case None => None
    case Some(r) => Some(acc + r)
  }

  /** The bytes that will still arrive: reading stops at the first read that brings nothing. */
  function Arriving(incoming: seq<bytes>): bytes {
    if incoming == [] || incoming[0] == [] then [] else incoming[0] + Arriving(incoming[1..])
  }

  /** What downloadHeader ends with: the header, the part of the body that came with it, and the reads to come. */
  datatype Head = NoHead | Head(header: bytes, bodyHeader: bytes, incoming: seq<bytes>)

  function HeadOf(text: bytes, incoming: seq<bytes>): Head
    decreases |incoming|
  {
    if incoming == [] || incoming[0] == [] then NoHead
    else
      var text' := text + incoming[0];
      var end := Find(text', HeaderEnd);
      if end != -1 then Head(text'[..end + 4], text'[end + 4..], incoming[1..]) else HeadOf(text', incoming[1..])
  }

  /** The header of the whole stream, whatever the pieces. */
  lemma {:induction false} HeadSplits(text: bytes, incoming: seq<bytes>)
    requires Find(text, HeaderEnd) == -1
    ensures var stream := text + Arriving(incoming);
            var end := Find(stream, HeaderEnd);
            var head := HeadOf(text, incoming);
            && head.Head? == (end >= 0)
            && (end >= 0 ==> head.header == stream[..end + 4]
                             && head.bodyHeader + Arriving(head.incoming) == stream[end + 4..])
    decreases |incoming|
  {
    if incoming == [] || incoming[0] == [] {
      assert text + Arriving(incoming) == text;
    } else {
      var text' := text + incoming[0];
      assert text + Arriving(incoming) == text' + Arriving(incoming[1..]);
      if Find(text', HeaderEnd) == -1 {
        HeadSplits(text', incoming[1..]);
      } else {
        HeaderFound(text', Arriving(incoming[1..]), text + Arriving(incoming));
      }
    }
  }

  lemma {:induction false} HeaderFound(text: bytes, rest: bytes, stream: bytes)
    requires text + rest == stream && Find(text, HeaderEnd) >= 0
    ensures var end := Find(text, HeaderEnd);
            Find(stream, HeaderEnd) == end && text[..end + 4] == stream[..end + 4]
                && text[end + 4..] + rest == stream[end + 4..]
  {
    FindStable(text, rest, HeaderEnd);
  }

  // The loop of downloadChunkedBody, as steps of a machine.

  /** Its local variables, what the receiver has been given, and what the coming reads will return. */
  datatype Client = Client(body: bytes, findFirstChunk: bool, chunkSizeLength: int, chunkSize: int,
                           received: bytes, incoming: seq<bytes>)

  datatype Status = Going(c: Client) | Complete(body: bytes) | Broken

  /** A size line that was found lies within the body. */
  predicate Seen(c: Client) {
    c.findFirstChunk ==> Unsigned(c.chunkSizeLength + 2) <= |c.body|
  }

  function Start(bodyHeader: bytes, incoming: seq<bytes>): Client {
    Client(bodyHeader, false, 0, 0, [], incoming)
  }

  /** continueToReceiveBody */
  function Received(c: Client): (r: Status)
    requires Seen(c)
    ensures r.Going? ==> Seen(r.c)
  {
    if c.incoming == [] || c.incoming[0] == [] then Broken
    else Going(c.(body := c.body + c.incoming[0], incoming := c.incoming[1..]))
  }

  /** The length of the first chunk with its size line, in the source's int and size_t arithmetic. */
  function FirstLength(c: Client): nat {
    Unsigned(c.chunkSizeLength + 2 + c.chunkSize + 2)
  }

  /** One turn of the loop. */
  function Round(c: Client): (r: Status)
    requires Seen(c)
    ensures r.Going? ==> Seen(r.c)
  {
    if c.findFirstChunk then
      if c.chunkSize == 0 then Complete(c.received)
      else if |c.body| >= FirstLength(c) then
        var data := Substr(c.body, Unsigned(c.chunkSizeLength + 2), Unsigned(c.chunkSize));
        Going(c.(findFirstChunk := false, received := c.received + data, body := c.body[FirstLength(c)..]))
      else Received(c)
    else
      var index := Find(c.body, CrLf);
      if index != -1 then
        LineLength(index);
        var size := Strtoul16(c.body[..Unsigned(Signed(index))]);
        Going(c.(findFirstChunk := true, chunkSizeLength := Signed(index), chunkSize := Signed(size)))
      else Received(c)
  }

  /** `n` turns, or as many as there are. */
  function Rounds(c: Client, n: nat): Status
    requires Seen(c)
    decreases n
  {
    if n == 0 then Going(c)
    else match Round(c)
      case Going(c') => Rounds(c', n - 1)
      case end => end
  }

  /** The loop ends. */
  ghost predicate Ends(c: Client)
    requires Seen(c)
  {
    exists n: nat :: !Rounds(c, n).Going?
  }

  ghost predicate EndsWith(c: Client, end: Status)
    requires Seen(c)
  {
    !end.Going? && exists n: nat :: Rounds(c, n) == end
  }

  lemma {:induction false} Turn(c: Client, n: nat)
    requires Seen(c) && !Rounds(c, n).Going?
    ensures n > 0 && Rounds(c, n) == if Round(c).Going? then Rounds(Round(c).c, n - 1) else Round(c)
  {
  }

  lemma {:induction false} LineLength(i: nat)
    ensures Unsigned(Signed(i)) <= i && Unsigned(Signed(i) + 2) <= i + 2
  {
  }

  /** The loop can end in one way only. */
  lemma {:induction false} OneEnd(c: Client, n: nat, m: nat)
    requires Seen(c) && !Rounds(c, n).Going? && !Rounds(c, m).Going?
    ensures Rounds(c, n) == Rounds(c, m)
  {
    Iterated(c, n);
    Iterated(c, m);
    SameEnd(Turning, c, n, m);
  }

  /** Turns of any loop. */
  ghost function Iterate(step: Client -> Status, c: Client, n: nat): Status
    decreases n
  {
    if n == 0 then Going(c) else if step(c).Going? then Iterate(step, step(c).c, n - 1) else step(c)
  }

  ghost const Turning: Client -> Status := c => if Seen(c) then Round(c) else Broken

  lemma {:induction false} Iterated(c: Client, n: nat)
    requires Seen(c)
    ensures Rounds(c, n) == Iterate(Turning, c, n)
    decreases n
  {
    if n > 0 && Round(c).Going? {
      Iterated(Round(c).c, n - 1);
    }
  }

  lemma {:induction false} SameEnd(step: Client -> Status, c: Client, n: nat, m: nat)
    requires !Iterate(step, c, n).Going? && !Iterate(step, c, m).Going?
    ensures Iterate(step, c, n) == Iterate(step, c, m)
    decreases n
  {
    if step(c).Going? {
      SameEnd(step, step(c).c, n - 1, m - 1);
    }
  }

  /** std::string::substr */
  function Substr(s: bytes, start: nat, count: nat): (r: bytes)
    requires start <= |s|
    ensures |r| <= count && r <= s[start..] && (|r| < count ==> r == s[start..])
  {
    s[start..if count <= |s| - start then start + count else |s|]
  }

  // What the machine makes of a stream without oversized chunks.

  /** How the loop ends on a body decoded so far and the rest of the stream. */
  function Result(received: bytes, d: Option<bytes>): Status {
    match d
    case None => Broken
    case Some(rest) => Complete(received + rest)
  }

  /** The client has `left` before it, in the body and in the reads to come. */
  ghost predicate Tracks(c: Client, left: bytes) {
    && Seen(c) && left == c.body + Arriving(c.incoming) && Addressable(left)
    && (c.findFirstChunk ==> Noted(c.body, c.chunkSizeLength, c.chunkSize))
  }

  /** One turn changes nothing about how the stream must end. */
  ghost predicate Kept(c: Client, left: bytes, c': Client, left': bytes) {
    && Tracks(c', left')
    && Result(c.received, Decode(left)) == Result(c'.received, Decode(left'))
  }

  /** Every fragmentation: the loop ends, and as the stream decodes. */
  lemma {:induction false} EveryFragmentation(c: Client, left: bytes)
    requires Tracks(c, left)
    ensures EndsWith(c, Result(c.received, Decode(left)))
    decreases |c.incoming|, |c.body|, !c.findFirstChunk
  {
    var left' := left;
    if c.findFirstChunk {
      left' := ChunkTurn(c, left);
    } else {
      SizeTurn(c, left);
    }
    match Round(c)
    case Going(c') =>
      EveryFragmentation(c', left');
      OneMore(c, c', Result(c.received, Decode(left)));
    case end =>
      assert Rounds(c, 1) == end;
  }

  lemma {:induction false} OneMore(c: Client, c': Client, end: Status)
    requires Seen(c) && Round(c) == Going(c') && EndsWith(c', end)
    ensures EndsWith(c, end)
  {
    var n: nat :| Rounds(c', n) == end;
    assert Rounds(c, n + 1) == end;
  }

  /** And it ends in no other way. */
  lemma {:induction false} DecodedOnly(c: Client, end: Status)
    requires Seen(c) && EndsWith(c, end) && Tracks(c, c.body + Arriving(c.incoming))
    ensures end == Result(c.received, Decode(c.body + Arriving(c.incoming)))
  {
    EveryFragmentation(c, c.body + Arriving(c.incoming));
    var n: nat :| Rounds(c, n) == end;
    var m: nat :| Rounds(c, m) == Result(c.received, Decode(c.body + Arriving(c.incoming)));
    OneEnd(c, n, m);
  }

  /** No size line seen yet: it is looked for, or more is read. */
  lemma {:induction false} SizeTurn(c: Client, left: bytes)
    requires Tracks(c, left) && !c.findFirstChunk
    ensures match Round(c)
            case Going(c') =>
              && Tracks(c', left) && c'.received == c.received
              && (|c'.incoming| < |c.incoming|
                  || (c'.incoming == c.incoming && c'.body == c.body && c'.findFirstChunk))
            case Complete(_) => false
            case Broken => Decode(left) == None
  {
    if Find(c.body, CrLf) != -1 {
      SizeLine(c.body, left);
    } else {
      ReadTurn(c, left);
    }
  }

  /** Not enough has come. */
  lemma {:induction false} ReadTurn(c: Client, left: bytes)
    requires Tracks(c, left)
    ensures match Received(c)
            case Going(c') => Tracks(c', left) && c'.received == c.received && |c'.incoming| < |c.incoming|
            case Complete(_) => false
            case Broken => left == c.body
  {
    if c.incoming != [] && c.incoming[0] != [] {
      var data := c.incoming[0];
      assert c.body + (data + Arriving(c.incoming[1..])) == (c.body + data) + Arriving(c.incoming[1..]);
      if c.findFirstChunk {
        StillNoted(c.body, c.body + data, c.chunkSizeLength, c.chunkSize);
      }
    } else {
      assert c.body + [] == c.body;
    }
  }

  /** The size of the first chunk is known: the loop ends, takes the chunk off, or reads on. */
  lemma {:induction false} ChunkTurn(c: Client, left: bytes) returns (left': bytes)
    requires Tracks(c, left) && c.findFirstChunk
    ensures match Round(c)
            case Going(c') =>
              && Kept(c, left, c', left')
              && (|c'.incoming| < |c.incoming| || (c'.incoming == c.incoming && |c'.body| < |c.body|))
            case end => end == Result(c.received, Decode(left))
  {
    left' := left;
    if c.chunkSize == 0 {
      LastChunk(c, left);
    } else if |c.body| >= FirstLength(c) {
      left' := CutTurn(c, left);
    } else {
      ReadTurn(c, left);
      if Received(c).Broken? {
        ShortChunk(c);
      }
    }
  }

  lemma {:induction false} LastChunk(c: Client, left: bytes)
    requires Tracks(c, left) && c.findFirstChunk && c.chunkSize == 0
    ensures Result(c.received, Decode(left)) == Complete(c.received)
  {
    SizeLine(c.body, left);
    assert c.received + [] == c.received;
  }

  lemma {:induction false} ShortChunk(c: Client)
    requires Noted(c.body, c.chunkSizeLength, c.chunkSize) && c.chunkSize != 0 && Addressable(c.body)
    requires |c.body| < FirstLength(c)
    ensures Decode(c.body) == None
  {
    var i, size := ChunkReady(c, c.body);
  }

  /** Taking a whole chunk off: its data and then the body of what follows. */
  lemma {:induction false} CutTurn(c: Client, left: bytes) returns (left': bytes)
    requires Tracks(c, left) && c.findFirstChunk && c.chunkSize != 0 && |c.body| >= FirstLength(c)
    ensures Round(c).Going? && Kept(c, left, Round(c).c, left')
    ensures Round(c).c.incoming == c.incoming && |Round(c).c.body| < |c.body|
  {
    var c', coming := Round(c).c, Arriving(c.incoming);
    var i, size := ChunkReady(c, left);
    var data := CutData(c, i, size);
    ChunkAtFront(c.body, coming, i, size, data, c'.body);
    left' := c'.body + coming;
    ResultBehind(c.received, data, Decode(left'));
  }

  lemma {:induction false} CutData(c: Client, i: nat, size: nat) returns (data: bytes)
    requires Seen(c) && c.findFirstChunk && c.chunkSize != 0
    requires Unsigned(c.chunkSizeLength + 2) == i + 2 && Unsigned(c.chunkSize) == size
    requires FirstLength(c) == i + 4 + size <= |c.body|
    ensures data == c.body[i + 2..i + 2 + size]
    ensures Round(c) == Going(c.(findFirstChunk := false, received := c.received + data, body :=
            c.body[i + 4 + size..]))
  {
    data := Substr(c.body, i + 2, size);
  }

  lemma {:induction false} ResultBehind(received: bytes, data: bytes, d: Option<bytes>)
    ensures Result(received, Behind(data, d)) == Result(received + data, d)
  {
    assert d.Some? ==> received + (data + d.value) == (received + data) + d.value;
  }

  /** The client's numbers are those of the stream's first chunk. */
  lemma {:induction false} ChunkReady(c: Client, left: bytes) returns (i: nat, size: nat)
    requires Noted(c.body, c.chunkSizeLength, c.chunkSize) && c.chunkSize != 0 && c.body <= left && Addressable(left)
    ensures Unsigned(c.chunkSizeLength + 2) == i + 2 && Unsigned(c.chunkSize) == size > 0
    ensures FirstLength(c) == i + 4 + size
    ensures Find(left, CrLf) == i && i <= |left| && Strtoul16(left[..i]) == size
  {
    i := Find(c.body, CrLf);
    size := Strtoul16(c.body[..i]);
    assert c.chunkSizeLength == Signed(i) && c.chunkSize == Signed(size);
    SizeLine(c.body, left);
    ClientNumbers(c, i, size);
  }

  lemma {:induction false} ClientNumbers(c: Client, i: nat, size: nat)
    requires c.chunkSizeLength == Signed(i) && c.chunkSize == Signed(size) && i + 4 + size < Limit
    ensures Unsigned(c.chunkSizeLength + 2) == i + 2 && Unsigned(c.chunkSize) == size
    ensures FirstLength(c) == i + 4 + size && (c.chunkSize == 0 <==> size == 0)
  {
    SignedSum(i, size);
  }

  /** A whole chunk at the front: the stream's body is its data and then the body of what follows. */
  lemma {:induction false} ChunkAtFront(body: bytes, coming: bytes, i: nat, size: nat, data: bytes, behind: bytes)
    requires var left := body + coming;
             Find(left, CrLf) == i && Strtoul16(left[..i]) == size > 0 && i + 4 + size <= |body| && Addressable(left)
    requires data == body[i + 2..i + 2 + size] && behind == body[i + 4 + size..]
    ensures Decode(body + coming) == Behind(data, Decode(behind + coming))
    ensures Addressable(behind + coming)
  {
    CutChunk(body, coming, i + 2, size);
    FirstChunk(body + coming, i, size, data, behind + coming);
  }

  lemma {:induction false} CutChunk(body: bytes, rest: bytes, start: nat, size: nat)
    requires start + size + 2 <= |body|
    ensures (body + rest)[start..start + size] == body[start..start + size]
    ensures (body + rest)[start + size + 2..] == body[start + size + 2..] + rest
  {
  }

  /** The size line found at the front of `body` has been taken down. */
  predicate Noted(body: bytes, chunkSizeLength: int, chunkSize: int) {
    var i := Find(body, CrLf);
    i >= 0 && chunkSizeLength == Signed(i) && chunkSize == Signed(Strtoul16(body[..i]))
  }

  lemma {:induction false} StillNoted(body: bytes, body': bytes, chunkSizeLength: int, chunkSize: int)
    requires Noted(body, chunkSizeLength, chunkSize) && body <= body'
    ensures Noted(body', chunkSizeLength, chunkSize)
  {
    assert body' == body + body'[|body|..];
    FindStable(body, body'[|body|..], CrLf);
    KeepsLine(body, body'[|body|..]);
  }

  lemma {:induction false} KeepsLine(body: bytes, data: bytes)
    requires Find(body, CrLf) >= 0
    ensures (body + data)[..Find(body, CrLf)] == body[..Find(body, CrLf)]
  {
  }

  /** The size line the client sees is the stream's own, and its int arithmetic does not lose anything. */
  lemma {:induction false} SizeLine(body: bytes, left: bytes)
    requires Find(body, CrLf) >= 0 && body <= left && Addressable(left)
    ensures var i := Find(body, CrLf);
            var size := Strtoul16(body[..i]);
            && Find(left, CrLf) == i && left[..i] == body[..i]
            && i + 4 + size < Limit
            && Unsigned(Signed(i)) == i && Unsigned(Signed(i) + 2) == i + 2
            && Unsigned(Signed(i) + 2 + Signed(size) + 2) == i + 4 + size
            && Unsigned(Signed(size)) == size && (Signed(size) == 0 <==> size == 0)
  {
    var rest := left[|body|..];
    assert left == body + rest;
    FindStable(body, rest, CrLf);
    KeepsLine(body, rest);
    var i := Find(body, CrLf);
    SignedSum(i, Strtoul16(body[..i]));
  }

  lemma {:induction false} SignedSum(i: nat, size: nat)
    requires i + 4 + size < Limit
    ensures Unsigned(Signed(i)) == i && Unsigned(Signed(i) + 2) == i + 2
    ensures Unsigned(Signed(i) + 2 + Signed(size) + 2) == i + 4 + size
    ensures Unsigned(Signed(size)) == size && (Signed(size) == 0 <==> size == 0)
  {
    var p := Borrowed(i);
    var q := Borrowed(size);
    WholeTurns(i, p);
    WholeTurns(i + 2, p);
    WholeTurns(size, q);
    WholeTurns(i + 4 + size, p + q);
    Within(i);
    Within(i + 2);
    Within(size);
    Within(i + 4 + size);
  }

  /** How often 2^32 is taken off in the conversion to int. */
  lemma {:induction false} Borrowed(x: nat) returns (p: nat)
    requires x < Limit
    ensures p <= 1 && Signed(x) == x - p * 0x1_0000_0000
  {
    Within(x);
    p := if x < 0x8000_0000 then 0 else 1;
  }

  lemma {:induction false} Within(x: nat)
    requires x < Limit
    ensures x % 0x1_0000_0000 == x
  {
  }

  lemma {:induction false} WholeTurns(x: int, q: nat)
    ensures (x - q * 0x1_0000_0000) % 0x1_0000_0000 == x % 0x1_0000_0000
  {
  }

  /** Decoding unfolded over the first chunk. */
  lemma {:induction false} FirstChunk(s: bytes, i: nat, size: nat, data: bytes, behind: bytes)
    requires Find(s, CrLf) == i && Strtoul16(s[..i]) == size > 0 && i + 4 + size <= |s|
    requires data == s[i + 2..i + 2 + size] && behind == s[i + 4 + size..]
    ensures Decode(s) == Behind(data, Decode(behind))
    ensures Addressable(s) <==> i + 4 + size < Limit && Addressable(behind)
  {
    FirstDecoded(s, i, size);
    FirstAddressable(s, i, size);
  }

  lemma {:induction false} FirstDecoded(s: bytes, i: nat, size: nat)
    requires Find(s, CrLf) == i && Strtoul16(s[..i]) == size > 0 && i + 4 + size <= |s|
    ensures Decode(s) == Behind(s[i + 2..i + 2 + size], Decode(s[i + 4 + size..]))
  {
  }

  lemma {:induction false} FirstAddressable(s: bytes, i: nat, size: nat)
    requires Find(s, CrLf) == i && Strtoul16(s[..i]) == size > 0 && i + 4 + size <= |s|
    ensures Addressable(s) <==> i + 4 + size < Limit && Addressable(s[i + 4 + size..])
  {
    assert 0 < size && i + 4 + size <= |s|;
  }
}
