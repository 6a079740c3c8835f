/** Packets over a byte stream: cPacketizer frames them, AddReceivedData takes them apart again. */
module Packets {
  import opened Bytes
  import opened Bits
  import opened RingBuffers
  import opened VarInts

  /** A packet on the wire: its length, then its payload. */
  function Frame(payload: bytes): (s: bytes) {
    VarInt(|payload|) + payload
  }

  function Stream(payloads: seq<bytes>): bytes {
    if payloads == [] then [] else Frame(payloads[0]) + Stream(payloads[1..])
  }

  /** What a buffer of the given capacity keeps of a list of writes, each all or nothing. */
  function Fill(capacity: nat, have: bytes, pieces: seq<bytes>): (r: bytes)
    requires |have| <= capacity
    ensures |r| <= capacity
    decreases pieces
  {
    if pieces == [] then have
    else Fill(capacity, if |have| + |pieces[0]| <= capacity then have + pieces[0] else have, pieces[1..])
  }

  /** Nothing is dropped when everything fits. */
  lemma {:induction false} FillFits(capacity: nat, have: bytes, pieces: seq<bytes>)
    requires |have| + |Concat(pieces)| <= capacity
    ensures Fill(capacity, have, pieces) == have + Concat(pieces)
    decreases pieces
  {
    if pieces != [] {
      FillFits(capacity, have + pieces[0], pieces[1..]);
      assert have + pieces[0] + Concat(pieces[1..]) == have + (pieces[0] + Concat(pieces[1..]));
    }
  }

  /** The constructor of cPacketizer and its field writers. */
  method WritePacket(out: ByteBuffer, packetType: nat, fields: seq<bytes>)
    requires out.Valid() && out.Model().data == [] && packetType < U32
    modifies out`writePos, out.buffer
    ensures out.Valid()
    ensures out.Model() == old(out.Model()).(data := Fill(old(out.Model().capacity), [], [VarInt(packetType)] + fields))
  {
    Pow64();
    PowAdd(32, 3);
    assert packetType < Pow2(35);
    ghost var was := out.Model();
    ghost var pieces := [VarInt(packetType)] + fields;
    assert pieces[1..] == fields;
    var ok := WriteVarInt(out, packetType, 5);
    for i := 0 to |fields|
      invariant out.Valid() && out.Model() == was.(data := out.Model().data)
      invariant Fill(was.capacity, out.Model().data, fields[i..]) == Fill(was.capacity, [], pieces)
    {
      assert fields[i..][1..] == fields[i + 1..];
      ok := out.Write(fields[i]);
    }
  }

  /** The destructor of cPacketizer; `sent` is what goes to SendData. */
  method FlushPacket(out: ByteBuffer) returns (sent: bytes)
    requires out.Valid() && out.Model().cursor == 0
    modifies out`readPos, out`dataStart
    ensures out.Valid() && out.Model() == Queue([], 0, old(out.Model().capacity))
    ensures sent == VarInt(|old(out.Model()).data| % 0x1_0000_0000) + old(out.Model()).data
  {
    var used := out.GetUsedSpace();
    var prefix := LengthPrefix(used % 0x1_0000_0000);
    var body := out.ReadAll();
    out.CommitRead();
    sent := prefix + body;
  }

  method LengthPrefix(packetLen: nat) returns (prefix: bytes)
    requires packetLen < 0x1_0000_0000
    ensures prefix == VarInt(packetLen)
  {
    Pow64();
    PowAdd(32, 3);
    assert packetLen < Pow2(35);
    Cells(packetLen, 5);
    var lenBuffer := new ByteBuffer(20);
    var ok := WriteVarInt(lenBuffer, packetLen, 5);
    prefix := lenBuffer.ReadAll();
    lenBuffer.CommitRead();
  }

  /** A packet as the protocol code describes it. */
  datatype Packet = Packet(kind: nat, fields: seq<bytes>) {
    function Pieces(): seq<bytes> {
      [VarInt(kind)] + fields
    }

    function Payload(): bytes {
      Concat(Pieces())
    }
  }

  /** One packet from constructor to destructor. */
  method SendPacket(out: ByteBuffer, packet: Packet) returns (sent: bytes)
    requires out.Valid() && out.Model() == Queue([], 0, out.Model().capacity) && packet.kind < U32
    modifies out`writePos, out`readPos, out`dataStart, out.buffer
    // The buffer is empty again for the next packet.
    ensures out.Valid() && out.Model() == old(out.Model())
    ensures old(out.Model().capacity) < U32 ==> sent == Frame(Fill(old(out.Model().capacity), [], packet.Pieces()))
  {
    WritePacket(out, packet.kind, packet.fields);
    SmallLength(|out.Model().data|);
    sent := FlushPacket(out);
  }

  lemma {:induction false} SmallLength(n: nat)
    ensures n < U32 ==> n % 0x1_0000_0000 == n
  {
  }

  function Payloads(packets: seq<Packet>): (ps: seq<bytes>)
    ensures |ps| == |packets|
  {
    if packets == [] then [] else [packets[0].Payload()] + Payloads(packets[1..])
  }

  lemma {:induction false} StreamAppend(a: seq<bytes>, b: seq<bytes>)
    ensures Stream(a + b) == Stream(a) + Stream(b)
  {
    if a == [] {
      assert a + b == b;
    } else {
      StreamAppend(a[1..], b);
      assert (a + b)[1..] == a[1..] + b;
      Regroup(Frame(a[0]), Stream(a[1..]), Stream(b));
    }
  }

  lemma {:induction false} Regroup(a: bytes, b: bytes, c: bytes)
    ensures a + (b + c) == a + b + c
  {
  }

  lemma {:induction false} StreamMore(done: seq<bytes>, p: bytes)
    ensures Stream(done + [p]) == Stream(done) + Frame(p)
  {
    StreamAppend(done, [p]);
    assert [p][1..] == [];
  }

  lemma {:induction false} PayloadsMore(packets: seq<Packet>, i: nat, done: seq<bytes>)
    requires i < |packets|
    ensures done + Payloads(packets[i..]) == (done + [packets[i].Payload()]) + Payloads(packets[i + 1..])
  {
    assert packets[i..][1..] == packets[i + 1..];
  }

  /** One packet after another; what is sent is the stream of their payloads. */
  method SendAll(out: ByteBuffer, packets: seq<Packet>) returns (sent: bytes)
    requires out.Valid() && out.Model() == Queue([], 0, out.Model().capacity) && out.Model().capacity < U32
    requires forall i :: 0 <= i < |packets| ==> packets[i].kind < U32 && |packets[i].Payload()| <= out.Model().capacity
    modifies out`writePos, out`readPos, out`dataStart, out.buffer
    ensures out.Valid() && out.Model() == old(out.Model())
    ensures sent == Stream(Payloads(packets))
  {
    sent := [];
    ghost var capacity := out.Model().capacity;
    ghost var done: seq<bytes> := [];
    assert packets[0..] == packets;
    for i := 0 to |packets|
      invariant out.Valid() && out.Model() == old(out.Model())
      invariant sent == Stream(done) && done + Payloads(packets[i..]) == Payloads(packets)
    {
      ghost var p := packets[i].Payload();
      FillFits(capacity, [], packets[i].Pieces());
      var one := SendPacket(out, packets[i]);
      StreamMore(done, p);
      PayloadsMore(packets, i, done);
      sent, done := sent + one, done + [p];
    }
    assert packets[|packets|..] == [] && done + [] == done;
  }

  datatype Taken = Wait | Got(payload: bytes, rest: bytes)

  /** The first whole frame of `s`, if there is one. */
  function TakeFrame(s: bytes): (t: Taken)
    ensures t.Got? ==> |t.rest| < |s|
  {
    var n := Length(s);
    if n == 0 then Wait
    else
      var len := Value(s[..n]) % 0x1_0000_0000_0000_0000 % 0x1_0000_0000;
      if |s| - n < len then Wait else Got(s[n..n + len], s[n + len..])
  }

  /** A payload the receiver hands on: its type can be read, and a buffer for it can be made. */
  predicate Good(payload: bytes) {
    Length(payload) > 0 && |payload| < U32 - 1
  }

  /** What AddReceivedData makes of the bytes it has: payloads handed on, and bytes kept. */
  function Parse(s: bytes): (seq<bytes>, bytes)
    decreases |s|
  {
    var t := TakeFrame(s);
    if t == Wait then ([], s)
    // The buffer for a payload of 2^32 - 1 bytes has room for none, so only the length is dropped.
    else if |t.payload| == U32 - 1 then ([], s[Length(s)..])
    else if Length(t.payload) == 0 then ([], t.rest)
    else
      var r := Parse(t.rest);
      ([t.payload] + r.0, r.1)
  }

  /** What cPacketizer sends is good: it starts with its type. */
  lemma {:induction false} PayloadGood(packet: Packet)
    requires |packet.Payload()| < U32 - 1
    ensures Good(packet.Payload())
  {
    assert packet.Pieces()[1..] == packet.fields;
    RoundTrip(packet.kind, Concat(packet.fields));
  }

  /** A frame is taken whole, whatever follows it. */
  lemma {:induction false} FrameTaken(p: bytes, rest: bytes)
    requires |p| < U32
    ensures TakeFrame(Frame(p) + rest) == Got(p, rest)
  {
    var s, n := Frame(p) + rest, |VarInt(|p|)|;
    assert s == VarInt(|p|) + (p + rest);
    RoundTrip(|p|, p + rest);
    assert s[..n] == VarInt(|p|);
    assert s[n..n + |p|] == p && s[n + |p|..] == rest;
    SmallFrameAt(s, n, |p|);
  }

  lemma {:induction false} SmallFrameAt(s: bytes, n: nat, len: nat)
    requires 0 < n == Length(s) <= |s| && len == Value(s[..n]) < U32
    ensures TakeFrame(s) == if |s| - n < len then Wait else Got(s[n..n + len], s[n + len..])
  {
    SmallLength(len);
    FrameAt(s, n, len, len);
  }

  /** A frame that is not all there is left alone. */
  lemma {:induction false} PartialWaits(p: bytes, k: nat)
    requires |p| < U32 && k < |Frame(p)|
    ensures TakeFrame(Frame(p)[..k]) == Wait
  {
    var s, v := Frame(p)[..k], VarInt(|p|);
    if k < |v| {
      assert s == v[..k];
      PrefixIsShort(|p|, k);
    } else {
      assert s == v + p[..k - |v|];
      RoundTrip(|p|, p[..k - |v|]);
      assert s[..|v|] == v;
      SmallFrameAt(s, |v|, |p|);
    }
  }

  lemma {:induction false} CutStream(f: bytes, rest: bytes, a: bytes, b: bytes)
    requires a + b == f + rest
    ensures |a| < |f| ==> a == f[..|a|]
    ensures |a| >= |f| ==> a == f + a[|f|..] && a[|f|..] + b == rest
  {
    assert a == (f + rest)[..|a|];
    if |a| >= |f| {
      assert a[|f|..] + b == (a + b)[|f|..];
    }
  }

  lemma {:induction false} ParseFrame(p: bytes, rest: bytes)
    requires Good(p)
    ensures Parse(Frame(p) + rest).0 == [p] + Parse(rest).0 && Parse(Frame(p) + rest).1 == Parse(rest).1
  {
    FrameTaken(p, rest);
  }

  lemma {:induction false} ParseWaits(a: bytes)
    requires a == [] || TakeFrame(a) == Wait
    ensures TakeFrame(a) == Wait && Parse(a).0 == [] && Parse(a).1 == a
  {
  }

  /** From any first part of a stream the receiver takes the whole frames and keeps the rest. */
  lemma {:induction false} ParsePrefix(ps: seq<bytes>, a: bytes, b: bytes) returns (k: nat)
    requires forall i :: 0 <= i < |ps| ==> Good(ps[i])
    requires a + b == Stream(ps)
    ensures k <= |ps| && Parse(a).0 == ps[..k] && Parse(a).1 + b == Stream(ps[k..])
    ensures TakeFrame(Parse(a).1) == Wait
    decreases |ps|
  {
    k := 0;
    assert ps[0..] == ps;
    if ps == [] {
      ParseWaits(a);
    } else {
      var f := Frame(ps[0]);
      CutStream(f, Stream(ps[1..]), a, b);
      if |a| < |f| {
        PartialWaits(ps[0], |a|);
        ParseWaits(a);
      } else {
        var rest := a[|f|..];
        var j := ParsePrefix(ps[1..], rest, b);
        k := j + 1;
        FrameBefore(ps, rest, b, j);
      }
    }
  }

  lemma {:induction false} FrameBefore(ps: seq<bytes>, rest: bytes, b: bytes, j: nat)
    requires ps != [] && Good(ps[0]) && j < |ps|
    requires Parse(rest).0 == ps[1..][..j] && Parse(rest).1 + b == Stream(ps[1..][j..])
    ensures var a := Frame(ps[0]) + rest;
            Parse(a).0 == ps[..j + 1] && Parse(a).1 == Parse(rest).1 && Parse(a).1 + b == Stream(ps[j + 1..])
  {
    ParseFrame(ps[0], rest);
    AfterFirst(ps, j);
  }

  lemma {:induction false} AfterFirst<T>(ps: seq<T>, j: nat)
    requires j < |ps|
    ensures ps[..j + 1] == [ps[0]] + ps[1..][..j] && ps[j + 1..] == ps[1..][j..]
  {
  }

  /** The receiver over a list of fragments, from the bytes it has kept. */
  function Feed(kept: bytes, fragments: seq<bytes>): (seq<bytes>, bytes)
    decreases fragments
  {
    if fragments == [] then ([], kept)
    else
      var now := Parse(kept + fragments[0]);
      var later := Feed(now.1, fragments[1..]);
      (now.0 + later.0, later.1)
  }

  /** Every fragment finds room behind the bytes kept when it arrives. */
  predicate AllFit(capacity: nat, kept: bytes, fragments: seq<bytes>)
    decreases fragments
  {
    fragments == [] ||
    (|kept| + |fragments[0]| <= capacity && AllFit(capacity, Parse(kept + fragments[0]).1, fragments[1..]))
  }

  /** However a stream is cut up, the same payloads come out, and nothing is left over. */
  lemma {:induction false} AnyFragmentation(ps: seq<bytes>, kept: bytes, fragments: seq<bytes>)
    requires forall i :: 0 <= i < |ps| ==> Good(ps[i])
    requires kept + Concat(fragments) == Stream(ps) && TakeFrame(kept) == Wait
    ensures Feed(kept, fragments).0 == ps && Feed(kept, fragments).1 == []
    decreases fragments
  {
    if fragments == [] {
      assert kept + Concat(fragments) == kept;
      if ps != [] {
        FrameTaken(ps[0], Stream(ps[1..]));
        assert false;
      }
    } else {
      var a, b := kept + fragments[0], Concat(fragments[1..]);
      assert a + b == kept + Concat(fragments);
      var k := ParsePrefix(ps, a, b);
      AnyFragmentation(ps[k..], Parse(a).1, fragments[1..]);
      assert ps == ps[..k] + ps[k..];
    }
  }

  /** The payload goes to a buffer of its own, one byte bigger in 32-bit arithmetic. */
  method TakePayload(buf: ByteBuffer, packetLen: nat) returns (bb: ByteBuffer)
    requires buf.Valid() && packetLen < U32 && buf.Model().cursor + packetLen <= |buf.Model().data|
    modifies buf`readPos, buf`dataStart
    ensures fresh(bb) && fresh(bb.buffer) && bb.Valid() && buf.Valid()
    ensures var s, n := old(buf.Model()).data, old(buf.Model()).cursor;
            if packetLen < U32 - 1
            then && bb.Model() == Queue(s[n..n + packetLen], 0, packetLen + 1)
                 && buf.Model() == Queue(s[n + packetLen..], 0, old(buf.Model().capacity))
            else bb.Model().data == [] && buf.Model() == Queue(s[n..], 0, old(buf.Model().capacity))
    ensures bb.Model().cursor == 0
  {
    ghost var was := buf.Model();
    OneMore(packetLen);
    var size := (packetLen + 1) % 0x1_0000_0000;
    bb := new ByteBuffer(size);
    PayloadMoved(was, packetLen);
    MovePayload(buf, bb, packetLen, was);
  }

  lemma {:induction false} OneMore(n: nat)
    requires n < U32
    ensures (n + 1) % 0x1_0000_0000 == if n < U32 - 1 then n + 1 else 0
  {
  }

  /** Into a new buffer, if it is big enough. */
  method MovePayload(buf: ByteBuffer, bb: ByteBuffer, packetLen: nat, ghost was: Queue)
    requires buf.Valid() && bb.Valid() && bb != buf && bb.buffer != buf.buffer
    requires buf.Model() == was && bb.Model() == Queue([], 0, bb.Model().capacity)
    requires was.cursor + packetLen <= |was.data|
    modifies buf`readPos, buf`dataStart, bb`writePos, bb.buffer
    ensures buf.Valid() && bb.Valid()
    ensures if packetLen <= old(bb.Model().capacity)
            then && bb.Model() == Queue([] + was.Unread()[..packetLen], 0, old(bb.Model().capacity))
                 && buf.Model() == Queue(was.data[was.cursor + packetLen..], 0, was.capacity)
            else bb.Model() == old(bb.Model()) && buf.Model() == Queue(was.data[was.cursor..], 0, was.capacity)
  {
    var ok := buf.ReadToByteBuffer(bb, packetLen);
    buf.CommitRead();
  }

  lemma {:induction false} PayloadMoved(q: Queue, n: nat)
    requires q.cursor + n <= |q.data|
    ensures [] + q.Unread()[..n] == q.data[q.cursor..q.cursor + n]
  {
  }

  /** A frame was taken off the front of `s`; one of 2^32 - 1 bytes loses only its length. */
  ghost predicate FrameRead(s: bytes, payload: bytes, rest: bytes) {
    var t := TakeFrame(s);
    && t.Got?
    && if |t.payload| < U32 - 1 then payload == t.payload && rest == t.rest else payload == [] && rest == s[Length(s)..]
  }

  /** The frame part of one turn: the length, the wait for the payload, and the payload in a buffer of its own. */
  method ReadFrame(buf: ByteBuffer) returns (bb: ByteBuffer?)
    requires buf.Valid() && buf.Model().cursor == 0
    modifies buf`readPos, buf`dataStart
    ensures buf.Valid() && buf.Model().cursor == 0 && buf.Model().capacity == old(buf.Model().capacity)
    ensures bb != null ==> fresh(bb) && fresh(bb.buffer) && bb.Valid()
    ensures if bb == null then TakeFrame(old(buf.Model()).data) == Wait && buf.Model().data == old(buf.Model()).data
            else bb.Model().cursor <= 0 && FrameRead(old(buf.Model()).data, bb.Model().data, buf.Model().data)
  {
    ghost var s := buf.Model().data;
    assert buf.Model().Unread() == s;
    var ok, len := ReadVarInt(buf);
    if ok {
      var packetLen := len % 0x1_0000_0000;
      FrameAt(s, Length(s), len, packetLen);
      var readable := buf.GetReadableSpace();
      if packetLen <= readable {
        bb := TakePayload(buf, packetLen);
        return;
      }
    }
    buf.ResetRead();
    bb := null;
  }

  lemma {:induction false} FrameAt(s: bytes, n: nat, len: nat, packetLen: nat)
    requires 0 < n == Length(s) <= |s| && len == Value(s[..n]) % 0x1_0000_0000_0000_0000
             && packetLen == len % 0x1_0000_0000
    ensures TakeFrame(s) == if |s| - n < packetLen then Wait else Got(s[n..n + packetLen], s[n + packetLen..])
  {
  }

  /** One turn of the loop in AddReceivedData. */
  method ReceiveOne(buf: ByteBuffer) returns (more: bool, payload: bytes)
    requires buf.Valid() && buf.Model().cursor == 0
    modifies buf`readPos, buf`dataStart
    ensures buf.Valid() && buf.Model().cursor == 0 && buf.Model().capacity == old(buf.Model().capacity)
    ensures Turn(old(buf.Model()).data, more, payload, buf.Model().data)
  {
    payload := [];
    var bb := ReadFrame(buf);
    if bb == null {
      return false, [];
    }
    assert bb.Model().data == [] ==> bb.Model().Unread() == [];
    assert bb.Model().cursor == 0 ==> bb.Model().Unread() == bb.Model().data;
    var typed, _ := ReadVarInt(bb);
    if typed {
      bb.ResetRead();
      payload := bb.ReadAll();
    }
    more := typed;
  }

  /** One turn: a good payload is taken off the front, or the parse ends here. */
  ghost predicate Turn(s: bytes, more: bool, payload: bytes, rest: bytes) {
    if more then TakeFrame(s) == Got(payload, rest) && Good(payload)
    else Parse(s).0 == [] && Parse(s).1 == rest
  }

  lemma {:induction false} TurnStep(done: seq<bytes>, s: bytes, more: bool, payload: bytes, rest: bytes)
    requires Turn(s, more, payload, rest)
    ensures if more then done + Parse(s).0 == done + [payload] + Parse(rest).0 && Parse(s).1 == Parse(rest).1
            && |rest| < |s|
            else done + Parse(s).0 == done && Parse(s).1 == rest
  {
  }

  /** AddReceivedData; `full` is PacketBufferFull, and every packet is handled. */
  method AddReceivedData(buf: ByteBuffer, data: bytes) returns (full: bool, payloads: seq<bytes>)
    requires buf.Valid() && buf.Model().cursor == 0
    modifies buf, buf.buffer
    ensures buf.Valid() && buf.Model().cursor == 0 && buf.Model().capacity == old(buf.Model().capacity)
    ensures full <==> |data| > old(buf.Model().capacity - |buf.Model().data|)
    ensures full ==> payloads == [] && buf.Model() == old(buf.Model())
    ensures !full ==> var r := Parse(old(buf.Model()).data + data); payloads == r.0 && buf.Model().data == r.1
  {
    payloads := [];
    var ok := buf.Write(data);
    if !ok {
      return true, [];
    }
    ghost var all := Parse(buf.Model().data);
    ghost var s := buf.Model().data;
    var more := true;
    while more
      invariant buf.Valid() && buf.Model() == Queue(s, 0, old(buf.Model().capacity))
      invariant if more then all.0 == payloads + Parse(s).0 && all.1 == Parse(s).1 else all.0 == payloads && all.1 == s
      decreases more, |s|
    {
      var payload;
      more, payload := ReceiveOne(buf);
      TurnStep(payloads, s, more, payload, buf.Model().data);
      s := buf.Model().data;
      if more {
        payloads := payloads + [payload];
      }
    }
    full := false;
  }

  /** Every fragment in turn; stops at the first one that does not fit. */
  method Receive(buf: ByteBuffer, fragments: seq<bytes>, ghost ps: seq<bytes>) returns (ok: bool, payloads: seq<bytes>)
    requires buf.Valid() && buf.Model() == Queue([], 0, buf.Model().capacity)
    requires (forall i :: 0 <= i < |ps| ==> Good(ps[i])) && Concat(fragments) == Stream(ps)
    modifies buf, buf.buffer
    ensures buf.Valid()
    // Exactly when everything fits, the payloads that were sent come out.
    ensures ok <==> AllFit(old(buf.Model().capacity), [], fragments)
    ensures ok ==> payloads == ps && buf.Model() == old(buf.Model())
  {
    payloads := [];
    ghost var capacity := buf.Model().capacity;
    assert Concat(fragments) == [] + Concat(fragments) && fragments[0..] == fragments;
    AnyFragmentation(ps, [], fragments);
    for i := 0 to |fragments|
      invariant buf.Valid() && buf.Model() == Queue(buf.Model().data, 0, old(buf.Model().capacity))
      invariant var rest := Feed(buf.Model().data, fragments[i..]); payloads + rest.0 == ps && rest.1 == []
      invariant AllFit(capacity, buf.Model().data, fragments[i..]) == AllFit(capacity, [], fragments)
    {
      assert fragments[i..][1..] == fragments[i + 1..];
      var full, got := AddReceivedData(buf, fragments[i]);
      if full {
        return false, payloads;
      }
      payloads := payloads + got;
    }
    ok := true;
  }

  /** The fragments of the given lengths, and then the rest. */
  function CutAt(s: bytes, lengths: seq<nat>): (fragments: seq<bytes>)
    ensures Concat(fragments) == s
    decreases lengths
  {
    if lengths == [] || lengths[0] >= |s| then ConcatSingle(s); [s]
    else
      var later := CutAt(s[lengths[0]..], lengths[1..]);
      assert ([s[..lengths[0]]] + later)[1..] == later;
      [s[..lengths[0]]] + later
  }

  /** Both ends: packets sent through cPacketizer arrive as they were, however the stream is cut up. */
  method SendAndReceive(out: ByteBuffer, into: ByteBuffer, packets: seq<Packet>, lengths: seq<nat>)
    returns (ok: bool, payloads: seq<bytes>)
    requires out.Valid() && out.Model() == Queue([], 0, out.Model().capacity) && out.Model().capacity < U32 - 1
    requires forall i :: 0 <= i < |packets| ==> packets[i].kind < U32 && |packets[i].Payload()| <= out.Model().capacity
    requires into.Valid() && into.Model() == Queue([], 0, into.Model().capacity)
    requires out != into && out.buffer != into.buffer
    modifies out, out.buffer, into, into.buffer
    ensures ok <==> AllFit(old(into.Model().capacity), [], CutAt(Stream(Payloads(packets)), lengths))
    ensures ok ==> payloads == Payloads(packets)
    ensures out.Valid() && out.Model() == old(out.Model())
  {
    AllGood(packets);
    var sent := SendAll(out, packets);
    ok, payloads := Receive(into, CutAt(sent, lengths), Payloads(packets));
  }

  lemma {:induction false} AllGood(packets: seq<Packet>)
    requires forall i :: 0 <= i < |packets| ==> |packets[i].Payload()| < U32 - 1
    ensures forall i :: 0 <= i < |packets| ==> Good(Payloads(packets)[i])
  {
    if packets != [] {
      PayloadGood(packets[0]);
      AllGood(packets[1..]);
    }
  }
}
