/** The variable-length integers of cByteBuffer: seven bits a byte, lowest first, the top bit for "more". */
module VarInts {
  import opened Bytes
  import opened Bits
  import opened RingBuffers

  const U32 := 0x1_0000_0000
  const U64 := 0x1_0000_0000_0000_0000

  /** The encoding of `v`. */
  function VarInt(v: nat): (s: bytes)
    ensures |s| > 0
  {
    if v < 128 then [v] else [v % 128 + 128] + VarInt(v / 128)
  }

  /** The number that the low seven bits of all bytes of `s` spell. */
  function Value(s: bytes): nat {
    if s == [] then 0 else s[0] % 128 + 128 * Value(s[1..])
  }

  /** The length of the first encoding in `s`, or 0 if it is not all there. */
  function Length(s: bytes): (n: nat)
    ensures n <= |s|
  {
    if s == [] then 0
    else if s[0] < 128 then 1
    else if Length(s[1..]) == 0 then 0
    else Length(s[1..]) + 1
  }

  /** The encoding ends with the first byte that says "no more". */
  lemma {:induction false} LengthIs(s: bytes, k: nat)
    requires k <= |s| && forall i :: 0 <= i < k ==> s[i] >= 128
    ensures k < |s| && s[k] < 128 ==> Length(s) == k + 1
    ensures k == |s| ==> Length(s) == 0
  {
    if k > 0 {
      LengthIs(s[1..], k - 1);
    }
  }

  /** What an encoding decodes to, and that its decoder stops where it ends. */
  lemma {:induction false} RoundTrip(v: nat, rest: bytes)
    ensures Length(VarInt(v) + rest) == |VarInt(v)|
    ensures Value(VarInt(v)) == v
  {
    var s := VarInt(v) + rest;
    if v < 128 {
      assert Value([v][1..]) == 0;
    } else {
      RoundTrip(v / 128, rest);
      assert s[1..] == VarInt(v / 128) + rest;
      assert VarInt(v)[1..] == VarInt(v / 128);
    }
  }

  /** No proper prefix of an encoding decodes. */
  lemma {:induction false} PrefixIsShort(v: nat, k: nat)
    requires k < |VarInt(v)|
    ensures Length(VarInt(v)[..k]) == 0
  {
    var s := VarInt(v)[..k];
    if k > 0 && v >= 128 {
      assert s[1..] == VarInt(v / 128)[..k - 1];
      PrefixIsShort(v / 128, k - 1);
    }
  }

  /** How many bytes a number needs. */
  lemma {:induction false} Cells(v: nat, cells: nat)
    requires v < Pow2(7 * cells) && cells > 0
    ensures |VarInt(v)| <= cells
  {
    if v >= 128 {
      assert cells > 1;
      PowAdd(7, 7 * (cells - 1));
      assert Pow2(7) == 128;
      Cells(v / 128, cells - 1);
    }
  }

  /** One more byte on the high end. */
  lemma {:induction false} ValueSnoc(s: bytes, b: byte)
    ensures Value(s + [b]) == Value(s) + (b % 128) * Pow2(7 * |s|)
    ensures Value(s) < Pow2(7 * |s|)
  {
    assert Pow2(7) == 128;
    if s == [] {
      assert Value(([b])[1..]) == 0;
    } else {
      ValueSnoc(s[1..], b);
      assert (s + [b])[1..] == s[1..] + [b];
      assert Value(s + [b]) == s[0] % 128 + 128 * Value(s[1..] + [b]);
      PowAdd(7, 7 * (|s| - 1));
      assert Pow2(7 * |s|) == 128 * Pow2(7 * (|s| - 1));
      Scaled(b % 128, Pow2(7 * (|s| - 1)));
    }
  }

  lemma {:induction false} Scaled(d: nat, p: nat)
    ensures 128 * (d * p) == d * (128 * p)
  {
  }

  /** One turn of the decoding loop in 64 bits; bits shifted out beyond the word are gone. */
  lemma {:induction false} OrDigit(s: bytes, b: byte)
    ensures BitOr(Value(s) % 0x1_0000_0000_0000_0000, ((b % 128) * Pow2(7 * |s|)) % 0x1_0000_0000_0000_0000)
            == Value(s + [b]) % 0x1_0000_0000_0000_0000
  {
    ValueSnoc(s, b);
    Pow64();
    var shift: nat, digit: nat := 7 * |s|, b % 128;
    OrWord(Value(s), digit, shift, 64);
  }

  /** One turn of the encoding loop. */
  lemma {:induction false} DigitStep(before: bytes, v: nat, all: bytes)
    requires before + VarInt(v) == all
    ensures var d := v % 128 + if v > 127 then 128 else 0;
            if v / 128 == 0 then before + [d] == all else (before + [d]) + VarInt(v / 128) == all
  {
  }

  /** WriteVarInt32 with five cells, WriteVarInt64 with ten. */
  method WriteVarInt(buf: ByteBuffer, value: nat, cells: nat) returns (ok: bool)
    requires buf.Valid() && cells > 0 && value < Pow2(7 * cells)
    modifies buf`writePos, buf.buffer
    ensures buf.Valid()
    ensures ok <==> |VarInt(value)| <= old(buf.Model().capacity - |buf.Model().data|)
    ensures buf.Model() == if ok then old(buf.Model()).(data := old(buf.Model()).data + VarInt(value))
            else old(buf.Model())
  {
    Cells(value, cells);
    var b := new byte[cells];
    var idx, v := 0, value;
    ghost var was := buf.Model();
    while true
      invariant buf.Valid() && buf.Model() == was
      invariant 0 <= idx && idx + |VarInt(v)| == |VarInt(value)|
      invariant b[..idx] + VarInt(v) == VarInt(value)
      decreases v
    {
      ghost var before := b[..idx];
      DigitStep(before, v, VarInt(value));
      b[idx] := v % 128 + if v > 127 then 128 else 0;
      assert b[..idx + 1] == before + [b[idx]];
      v := v / 128;
      idx := idx + 1;
      if v == 0 {
        break;
      }
    }
    assert b[..idx] == VarInt(value);
    ok := buf.Write(b[..idx]);
  }

  lemma {:induction false} NextDigit(s: bytes, k: nat)
    requires k < |s| && forall i :: 0 <= i < k ==> s[i] >= 128
    ensures BitOr(Value(s[..k]) % 0x1_0000_0000_0000_0000, ((s[k] % 128) * Pow2(7 * k)) % 0x1_0000_0000_0000_0000)
            == Value(s[..k + 1]) % 0x1_0000_0000_0000_0000
    ensures s[k] < 128 ==> Length(s) == k + 1
  {
    assert s[..k + 1] == s[..k] + [s[k]];
    OrDigit(s[..k], s[k]);
    LengthIs(s, k);
  }

  /** One byte more of a buffer from which `k` have been read. */
  method NextByte(buf: ByteBuffer, ghost was: Queue, ghost k: nat) returns (got: bool, b: byte)
    requires buf.Valid() && was.Ok() && k <= |was.Unread()| && buf.Model() == was.(cursor := was.cursor + k)
    modifies buf`readPos
    ensures buf.Valid() && (got <==> k < |was.Unread()|) && (got ==> b == was.Unread()[k])
    ensures buf.Model() == was.(cursor := was.cursor + if got then k + 1 else k)
  {
    var data;
    got, data := buf.Read(1);
    b := if got then data[0] else 0;
  }

  /** ReadVarInt64; running out of bytes leaves the cursor at the end. */
  method ReadVarInt(buf: ByteBuffer) returns (ok: bool, value: nat)
    requires buf.Valid()
    modifies buf`readPos
    ensures buf.Valid()
    ensures var s, n := old(buf.Model().Unread()), Length(old(buf.Model().Unread()));
            && (ok <==> n > 0)
            && (ok ==> value == Value(s[..n]) % 0x1_0000_0000_0000_0000 && value < U64)
            && buf.Model() == old(buf.Model()).(cursor := old(buf.Model()).cursor + if ok then n else |s|)
  {
    ghost var was := buf.Model();
    ghost var s := was.Unread();
    ghost var k := 0;
    var shift := 0;
    value := 0;
    while true
      invariant buf.Valid() && 0 <= k <= |s| && buf.Model() == was.(cursor := was.cursor + k)
      invariant shift == 7 * k && value == Value(s[..k]) % 0x1_0000_0000_0000_0000
      invariant forall i :: 0 <= i < k ==> s[i] >= 128
      decreases |s| - k
    {
      var got, b := NextByte(buf, was, k);
      if !got {
        LengthIs(s, k);
        return false, 0;
      }
      NextDigit(s, k);
      value := BitOr(value, ((b % 128) * Pow2(shift)) % 0x1_0000_0000_0000_0000);
      shift := shift + 7;
      k := k + 1;
      if b < 128 {
        return true, value;
      }
    }
  }

  lemma {:induction false} ThreeHundred()
    ensures VarInt(300) == [0xac, 0x02]
  {
    assert VarInt(2) == [2];
  }
}
