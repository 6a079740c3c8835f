/** How the HTTP client reads a response with a chunked body off a socket. */
module ChunkedBodies {
  import opened Options
  import opened Bytes
  import opened TextSearch
  import opened ChunkedMachine
  import opened ChunkedEnds

  class Socket {
    /** What the coming reads will return. */
    var incoming: seq<bytes>

    /** An empty result stands for a return value of 0 or below. */
    method Read() returns (data: bytes)
      modifies this
      ensures data == (if old(incoming) == [] then [] else old(incoming)[0])
      ensures incoming == if data == [] then [] else old(incoming)[1..]
    {
      if incoming == [] || incoming[0] == [] {
        data, incoming := [], [];
      } else {
        data, incoming := incoming[0], incoming[1..];
      }
    }
  }

  /** downloadHeader: it succeeds exactly when the stream holds an empty line, wherever the pieces are cut. */
  method DownloadHeader(socket: Socket) returns (complete: bool, header: bytes, bodyHeader: bytes)
    modifies socket
    ensures var head := HeadOf([], old(socket.incoming));
            complete == head.Head? && (complete ==> head == Head(header, bodyHeader, socket.incoming))
    ensures var stream := old(Arriving(socket.incoming));
            var end := Find(stream, HeaderEnd);
            && complete == (end >= 0)
            && (complete ==> header == stream[..end + 4] && bodyHeader + Arriving(socket.incoming) == stream[end + 4..])
  {
    ghost var start := socket.incoming;
    complete, header, bodyHeader := false, [], [];
    var text: bytes := [];
    assert [] + Arriving(start) == Arriving(start);
    HeadSplits([], start);
    while !complete
      invariant !complete ==> HeadOf([], start) == HeadOf(text, socket.incoming)
      invariant complete ==> HeadOf([], start) == Head(header, bodyHeader, socket.incoming)
      decreases !complete, |socket.incoming|
    {
      var data := socket.Read();
      if data == [] {
        break;
      }
      text := text + data;
      var end := Find(text, HeaderEnd);
      if end != -1 {
        complete := true;
        bodyHeader := text[end + 4..];
        header := text[..end + 4];
      }
    }
  }

  /** downloadChunkedBody, on every stream on which its loop ends. */
  method DownloadChunkedBody(socket: Socket, bodyHeader: bytes) returns (complete: bool, received: bytes)
    requires !Sticks(bodyHeader + Arriving(socket.incoming))
    modifies socket
    ensures EndsWith(Start(bodyHeader, old(socket.incoming)), if complete then Complete(received) else Broken)
    // Whatever pieces the stream arrives in, the client finishes exactly when the stream reaches its last chunk.
    ensures var stream := bodyHeader + old(Arriving(socket.incoming));
            Addressable(stream) ==>
              complete == Decode(stream).Some? && (complete ==> received == Decode(stream).value)
  {
    ghost var start := Start(bodyHeader, socket.incoming);
    EndsExactly(start, bodyHeader + Arriving(socket.incoming));
    complete, received := ChunkLoop(socket, bodyHeader);
    if Addressable(bodyHeader + Arriving(start.incoming)) {
      DecodedOnly(start, if complete then Complete(received) else Broken);
    }
  }

  /** The loop. */
  method ChunkLoop(socket: Socket, bodyHeader: bytes) returns (complete: bool, received: bytes)
    requires Ends(Start(bodyHeader, socket.incoming))
    modifies socket
    ensures EndsWith(Start(bodyHeader, old(socket.incoming)), if complete then Complete(received) else Broken)
  {
    ghost var start := Start(bodyHeader, socket.incoming);
    ghost var n: nat :| !Rounds(start, n).Going?;
    ghost var end := Rounds(start, n);
    var body := bodyHeader;
    complete, received := false, [];
    var findFirstChunk, chunkSizeLength, chunkSize := false, 0, 0;
    while true
      invariant Seen(Client(body, findFirstChunk, chunkSizeLength, chunkSize, received, socket.incoming))
      invariant Rounds(Client(body, findFirstChunk, chunkSizeLength, chunkSize, received, socket.incoming), n) == end
      decreases n
    {
      Turn(Client(body, findFirstChunk, chunkSizeLength, chunkSize, received, socket.incoming), n);
      var outcome;
      if findFirstChunk {
        outcome, findFirstChunk, body, received := ChunkPart(socket, body, chunkSizeLength, chunkSize, received);
      } else {
        outcome, findFirstChunk, body, chunkSizeLength, chunkSize :=
          SizePart(socket, body, chunkSizeLength, chunkSize, received);
      }
      if outcome != More {
        complete := outcome == Last;
        break;
      }
      n := n - 1;
    }
    assert end == if complete then Complete(received) else Broken;
  }

  datatype Outcome = More | Last | Failed

  /** What a turn of the loop has come to. */
  ghost predicate Comes(r: Status, outcome: Outcome, c: Client) {
    match outcome
    case More => r == Going(c)
    case Last => r == Complete(c.received)
    case Failed => r == Broken
  }

  /** The part of the loop for a chunk whose size is known. */
  method ChunkPart(socket: Socket, body: bytes, chunkSizeLength: int, chunkSize: int, received: bytes)
    returns (outcome: Outcome, findFirstChunk: bool, body': bytes, received': bytes)
    requires Seen(Client(body, true, chunkSizeLength, chunkSize, received, socket.incoming))
    modifies socket
    ensures Comes(Round(Client(body, true, chunkSizeLength, chunkSize, received, old(socket.incoming))), outcome,
                  Client(body', findFirstChunk, chunkSizeLength, chunkSize, received', socket.incoming))
  {
    outcome, findFirstChunk, body', received' := More, true, body, received;
    if chunkSize == 0 {
      outcome := Last;
    } else {
      var firstChunk := Unsigned(chunkSizeLength + 2 + chunkSize + 2);
      if |body| >= firstChunk {
        findFirstChunk := false;
        received' := received + Substr(body, Unsigned(chunkSizeLength + 2), Unsigned(chunkSize));
        body' := body[firstChunk..];
      } else {
        var ok;
        ok, body' := ContinueToReceiveBody(socket, body);
        outcome := if ok then More else Failed;
      }
    }
  }

  /** The part that looks for the next size. */
  method SizePart(socket: Socket, body: bytes, chunkSizeLength: int, chunkSize: int, ghost received: bytes)
    returns (outcome: Outcome, findFirstChunk: bool, body': bytes, chunkSizeLength': int, chunkSize': int)
    modifies socket
    ensures Comes(Round(Client(body, false, chunkSizeLength, chunkSize, received, old(socket.incoming))), outcome,
                  Client(body', findFirstChunk, chunkSizeLength', chunkSize', received, socket.incoming))
    ensures outcome != Last
  {
    outcome, findFirstChunk, body', chunkSizeLength', chunkSize' := More, false, body, chunkSizeLength, chunkSize;
    var index := Find(body, CrLf);
    if index != -1 {
      LineLength(index);
      findFirstChunk := true;
      chunkSizeLength' := Signed(index);
      chunkSize' := Signed(Strtoul16(body[..Unsigned(chunkSizeLength')]));
    } else {
      var ok;
      ok, body' := ContinueToReceiveBody(socket, body);
      outcome := if ok then More else Failed;
    }
  }

  method ContinueToReceiveBody(socket: Socket, body: bytes) returns (ok: bool, body': bytes)
    modifies socket
    ensures ok == (old(socket.incoming) != [] && old(socket.incoming)[0] != [])
    ensures body' == if ok then body + old(socket.incoming)[0] else body
    ensures ok ==> socket.incoming == old(socket.incoming)[1..]
  {
    var data := socket.Read();
    ok, body' := data != [], body + data;
  }

  /** The whole response, header and chunked body. */
  method GetChunkedResponse(socket: Socket) returns (complete: bool, header: bytes, body: bytes)
    requires var stream := Arriving(socket.incoming);
             Find(stream, HeaderEnd) >= 0 ==> !Sticks(stream[Find(stream, HeaderEnd) + 4..])
    modifies socket
    ensures var head := HeadOf([], old(socket.incoming));
            if head.NoHead? then !complete
            else header == head.header && EndsWith(Start(head.bodyHeader, head.incoming), if complete
                then Complete(body) else Broken)
    ensures var stream := old(Arriving(socket.incoming));
            var end := Find(stream, HeaderEnd);
            end >= 0 && Addressable(stream[end + 4..]) ==>
              && complete == Decode(stream[end + 4..]).Some?
              && (complete ==> header == stream[..end + 4] && body == Decode(stream[end + 4..]).value)
  {
    body := [];
    var bodyHeader;
    complete, header, bodyHeader := DownloadHeader(socket);
    if complete {
      complete, body := DownloadChunkedBody(socket, bodyHeader);
    }
  }
}
