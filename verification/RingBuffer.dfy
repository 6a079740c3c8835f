/** cByteBuffer: a ring of bytes with a committed start, a read cursor and a write position. */
module RingBuffers {
  import opened Bytes

  /** The index `x`, taken around the end of a ring of `n` cells. */
  function Wrap(x: int, n: int): int {
    if x < n then x else x - n
  }

  /** How far `b` lies ahead of `a` in a ring of `n` cells. */
  function Ahead(a: int, b: int, n: int): int {
    if a <= b then b - a else b - a + n
  }

  /** The cells from `a` up to `b`, around the end if need be. */
  function Ring(s: bytes, a: nat, b: nat): (r: bytes)
    requires a <= |s| && b <= |s|
    ensures |r| == Ahead(a, b, |s|)
  {
    if a <= b then s[a..b] else s[a..] + s[..b]
  }

  lemma {:induction false} RingAt(s: bytes, a: nat, b: nat, i: nat)
    requires a < |s| && b < |s| && i < Ahead(a, b, |s|)
    ensures Ring(s, a, b)[i] == s[Wrap(a + i, |s|)]
  {
  }

  lemma {:induction false} RingSplit(s: bytes, a: nat, m: nat, b: nat)
    requires a < |s| && m < |s| && b < |s|
    requires Ahead(a, m, |s|) <= Ahead(a, b, |s|)
    ensures Ring(s, a, b) == Ring(s, a, m) + Ring(s, m, b)
  {
    forall i | 0 <= i < Ahead(a, b, |s|) ensures Ring(s, a, b)[i] == (Ring(s, a, m) + Ring(s, m, b))[i] {
      RingAt(s, a, b, i);
    }
  }

  /** The cursor moves on from `r` to `m`. */
  lemma {:induction false} ReadOn(s: bytes, d: nat, r: nat, m: nat, w: nat)
    requires d < |s| && r < |s| && m < |s| && w < |s|
    requires Ahead(d, r, |s|) <= Ahead(d, w, |s|) && Ahead(r, m, |s|) <= Ahead(r, w, |s|)
    ensures Ahead(d, m, |s|) == Ahead(d, r, |s|) + Ahead(r, m, |s|) <= Ahead(d, w, |s|)
    ensures Ring(s, r, m) == Ring(s, r, w)[..Ahead(r, m, |s|)]
  {
    RingSplit(s, r, m, w);
  }

  /** `t` is `s` with `data` written around the ring from cell `w` on. */
  ghost predicate Written(s: bytes, t: bytes, w: nat, data: bytes) {
    && |t| == |s| && w < |s| && |data| < |s|
    && (forall i :: 0 <= i < |data| ==> t[Wrap(w + i, |s|)] == data[i])
    && (forall j :: 0 <= j < |s| && Ahead(w, j, |s|) >= |data| ==> t[j] == s[j])
  }

  lemma {:induction false} RingWritten(s: bytes, t: bytes, a: nat, w: nat, data: bytes)
    requires Written(s, t, w, data) && a < |s| && Ahead(a, w, |s|) + |data| < |s|
    ensures Ring(t, a, Wrap(w + |data|, |s|)) == Ring(s, a, w) + data
  {
    var n := |s|;
    var e := Wrap(w + |data|, n);
    assert Ahead(a, e, n) == Ahead(a, w, n) + |data|;
    forall i | 0 <= i < Ahead(a, e, n) ensures Ring(t, a, e)[i] == (Ring(s, a, w) + data)[i] {
      RingAt(t, a, e, i);
      if i < Ahead(a, w, n) {
        RingAt(s, a, w, i);
        assert Ahead(w, Wrap(a + i, n), n) >= |data|;
      } else {
        assert Wrap(a + i, n) == Wrap(w + (i - Ahead(a, w, n)), n);
      }
    }
  }

  /** The abstract object: a bounded queue of bytes, of which the first `cursor` have been read. */
  datatype Queue = Queue(data: bytes, cursor: nat, capacity: nat) {
    ghost predicate Ok() {
      cursor <= |data| <= capacity
    }

    function Unread(): bytes
      requires cursor <= |data|
    {
      data[cursor..]
    }
  }

  /** memcpy */
  method Memcpy(dst: array<byte>, at: nat, src: bytes)
    requires at + |src| <= dst.Length
    modifies dst
    ensures forall j :: 0 <= j < dst.Length ==> dst[j] == if at <= j < at + |src| then src[j - at] else old(dst[j])
  {
    forall i | 0 <= i < |src| {
      dst[at + i] := src[i];
    }
  }

  class ByteBuffer {
    const buffer: array<byte>
    var dataStart: nat
    var writePos: nat
    var readPos: nat

    ghost predicate Valid()
      reads this
    {
      && dataStart < buffer.Length && writePos < buffer.Length && readPos < buffer.Length
      && Ahead(dataStart, readPos, buffer.Length) <= Ahead(dataStart, writePos, buffer.Length)
    }

    ghost function Model(): (q: Queue)
      requires Valid()
      reads this, buffer
      ensures q.Ok()
    {
      Queue(Ring(buffer[..], dataStart, writePos), Ahead(dataStart, readPos, buffer.Length), buffer.Length - 1)
    }

    /** The bytes between the cursor and the write position are the unread ones. */
    lemma {:induction false} UnreadIsRing()
      requires Valid()
      ensures Model().Unread() == Ring(buffer[..], readPos, writePos)
      ensures Model().data[..Model().cursor] == Ring(buffer[..], dataStart, readPos)
    {
      RingSplit(buffer[..], dataStart, readPos, writePos);
    }

    /** One cell more than asked for, to tell full from empty. */
    constructor (size: nat)
      ensures Valid() && fresh(buffer) && Model() == Queue([], 0, size)
    {
      buffer := new byte[size + 1](_ => 0);
      dataStart, writePos, readPos := 0, 0, 0;
    }

    method GetFreeSpace() returns (n: nat)
      requires Valid()
      ensures n == Model().capacity - |Model().data|
    {
      if writePos >= dataStart {
        n := buffer.Length - writePos + dataStart - 1;
      } else {
        n := dataStart - writePos - 1;
      }
    }

    method GetUsedSpace() returns (n: nat)
      requires Valid()
      ensures n == |Model().data|
    {
      var free := GetFreeSpace();
      n := buffer.Length - free - 1;
    }

    method GetReadableSpace() returns (n: nat)
      requires Valid()
      ensures n == |Model().Unread()|
    {
      if readPos > writePos {
        n := buffer.Length - readPos + writePos;
      } else {
        n := writePos - readPos;
      }
    }

    /** Write and WriteBuf */
    method Write(data: bytes) returns (ok: bool)
      requires Valid()
      modifies this`writePos, buffer
      ensures Valid()
      ensures ok <==> |data| <= old(Model().capacity - |Model().data|)
      ensures Model() == if ok then old(Model()).(data := old(Model()).data + data) else old(Model())
    {
      var free := GetFreeSpace();
      if free < |data| {
        return false;
      }
      ghost var w, s := writePos, buffer[..];
      Place(data);
      RingWritten(s, buffer[..], dataStart, w, data);
      ok := true;
    }

    /** The copying itself, in one piece or two. */
    method Place(data: bytes)
      requires writePos < buffer.Length && |data| < buffer.Length
      modifies this`writePos, buffer
      ensures Written(old(buffer[..]), buffer[..], old(writePos), data)
      ensures writePos == Wrap(old(writePos) + |data|, buffer.Length)
    {
      var rest := data;
      var tillEnd := buffer.Length - writePos;
      if tillEnd <= |rest| {
        Memcpy(buffer, writePos, rest[..tillEnd]);
        rest := rest[tillEnd..];
        writePos := 0;
      }
      if |rest| > 0 {
        Memcpy(buffer, writePos, rest);
        writePos := writePos + |rest|;
      }
    }

    /** ReadBuf and ReadString */
    method Read(count: nat) returns (ok: bool, data: bytes)
      requires Valid()
      modifies this`readPos
      ensures Valid()
      ensures ok <==> count <= |old(Model().Unread())|
      ensures ok ==> data == old(Model().Unread())[..count]
                     && Model() == old(Model()).(cursor := old(Model()).cursor + count)
      ensures !ok ==> data == [] && Model() == old(Model())
    {
      var readable := GetReadableSpace();
      if count > readable {
        return false, [];
      }
      UnreadIsRing();
      ghost var r := readPos;
      data := Gather(count);
      ReadOn(buffer[..], dataStart, r, readPos, writePos);
      ok := true;
    }

    /** The next `count` bytes, in one piece or two. */
    method Gather(count: nat) returns (data: bytes)
      requires readPos < buffer.Length && count < buffer.Length
      modifies this`readPos
      ensures readPos < buffer.Length && Ahead(old(readPos), readPos, buffer.Length) == count
      ensures data == Ring(buffer[..], old(readPos), readPos)
    {
      var left := count;
      data := [];
      var toEnd := buffer.Length - readPos;
      if toEnd <= left {
        data := buffer[readPos..];
        left := left - toEnd;
        readPos := 0;
      }
      if left > 0 {
        data := data + buffer[readPos..readPos + left];
        readPos := readPos + left;
      }
    }

    /** SkipRead, by AdvanceReadPos: a read whose bytes are thrown away. */
    method SkipRead(count: nat) returns (ok: bool)
      requires Valid()
      modifies this`readPos
      ensures Valid()
      ensures ok <==> count <= |old(Model().Unread())|
      ensures Model() == if ok then old(Model()).(cursor := old(Model()).cursor + count) else old(Model())
    {
      var readable := GetReadableSpace();
      if count > readable {
        return false;
      }
      readPos := readPos + count;
      if readPos >= buffer.Length {
        readPos := readPos - buffer.Length;
      }
      ok := true;
    }

    method ReadAll() returns (data: bytes)
      requires Valid()
      modifies this`readPos
      ensures Valid() && data == old(Model().Unread())
      ensures Model() == old(Model()).(cursor := |old(Model()).data|)
    {
      var n := GetReadableSpace();
      var ok;
      ok, data := Read(n);
    }

    method CommitRead()
      requires Valid()
      modifies this`dataStart
      ensures Valid() && Model() == Queue(old(Model().Unread()), 0, old(Model().capacity))
    {
      UnreadIsRing();
      dataStart := readPos;
    }

    method ResetRead()
      requires Valid()
      modifies this`readPos
      ensures Valid() && Model() == old(Model()).(cursor := 0)
    {
      readPos := dataStart;
    }

    method ReadAgain(prefix: bytes) returns (out: bytes)
      requires Valid()
      ensures out == prefix + Model().data[..Model().cursor]
    {
      UnreadIsRing();
      out := prefix;
      var start := dataStart;
      if readPos < dataStart {
        out := out + buffer[dataStart..];
        start := 0;
      }
      out := out + buffer[start..readPos];
    }

    /** Moves `num` bytes more, after `done` bytes of the unread ones in `was` have gone to the end of `to`. */
    method MoveChunk(dst: ByteBuffer, num: nat, ghost was: Queue, ghost to: Queue, ghost done: nat)
      requires Valid() && dst.Valid() && dst != this && dst.buffer != buffer
      requires was.Ok() && done + num <= |was.Unread()| && |to.data| + done + num <= to.capacity
      requires Model() == was.(cursor := was.cursor + done)
               && dst.Model() == to.(data := to.data + was.Unread()[..done])
      modifies this`readPos, dst`writePos, dst.buffer
      ensures Valid() && dst.Valid()
      ensures Model() == was.(cursor := was.cursor + (done + num))
      ensures dst.Model() == to.(data := to.data + was.Unread()[..done + num])
    {
      var read, chunk := Read(num);
      var written := dst.Write(chunk);
      ChunkJoin(to.data, was, done, num);
    }

    /** Moves `count` bytes, at most 1024 at a time. */
    method ReadToByteBuffer(dst: ByteBuffer, count: nat) returns (ok: bool)
      requires Valid() && dst.Valid() && dst != this && dst.buffer != buffer
      modifies this`readPos, dst`writePos, dst.buffer
      ensures Valid() && dst.Valid()
      ensures ok <==> count <= |old(Model().Unread())| && count <= old(dst.Model().capacity - |dst.Model().data|)
      ensures ok ==>
                && Model() == old(Model()).(cursor := old(Model()).cursor + count)
                && dst.Model() == old(dst.Model()).(data := old(dst.Model()).data + old(Model().Unread())[..count])
      ensures !ok ==> Model() == old(Model()) && dst.Model() == old(dst.Model())
    {
      var free := dst.GetFreeSpace();
      var readable := GetReadableSpace();
      if count > free || count > readable {
        return false;
      }
      ghost var was, to := Model(), dst.Model();
      var left := count;
      while left != 0
        invariant 0 <= left <= count && Valid() && dst.Valid()
        invariant Model() == was.(cursor := was.cursor + (count - left))
        invariant dst.Model() == to.(data := to.data + was.Unread()[..count - left])
      {
        var num := if left > 1024 then 1024 else left;
        MoveChunk(dst, num, was, to, count - left);
        left := left - num;
      }
      ok := true;
    }
  }

  lemma {:induction false} ChunkJoin(s: bytes, q: Queue, done: nat, num: nat)
    requires q.Ok() && q.cursor + done + num <= |q.data|
    ensures s + q.Unread()[..done] + q.(cursor := q.cursor + done).Unread()[..num] == s + q.Unread()[..done + num]
  {
  }
}
