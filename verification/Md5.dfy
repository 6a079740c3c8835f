/** The streaming part of the MD5 class: update and final around a compression function. */
module Md5s {
  import opened Bytes
  import opened Bits

  type word = x: int | 0 <= x < 0x1_0000_0000

  datatype State = State(a: word, b: word, c: word, d: word)

  /** The four rounds of `transform`, applied to a state and the sixteen words of a block. */
  type Rounds = (State, seq<word>) -> State

  const Initial := State(0x67452301, 0xefcdab89, 0x98badcfe, 0x10325476)

  /** The little-endian digits of `x`, `n` of them. */
  function LittleEndian(x: nat, n: nat): (r: bytes)
    ensures |r| == n
  {
    if n == 0 then [] else [x % 256] + LittleEndian(x / 256, n - 1)
  }

  function Encoded(words: seq<word>): (r: bytes)
    ensures |r| == 4 * |words|
  {
    if words == [] then [] else LittleEndian(words[0], 4) + Encoded(words[1..])
  }

  function WordOf(b0: int, b1: int, b2: int, b3: int): int {
    b0 + 0x100 * b1 + 0x1_0000 * b2 + 0x100_0000 * b3
  }

  function WordAt(s: bytes, j: nat): word
    requires j + 4 <= |s|
  {
    WordOf(s[j], s[j + 1], s[j + 2], s[j + 3])
  }

  function Decoded(s: bytes): (words: seq<word>)
    ensures |words| == |s| / 4
  {
    if |s| < 4 then [] else [WordAt(s, 0)] + Decoded(s[4..])
  }

  /** The compression function over the whole blocks of `s`, an unfinished last block being left alone. */
  function Fold(f: Rounds, st: State, s: bytes): State
    decreases |s|
  {
    if |s| < 64 then st else Fold(f, f(st, Decoded(s[..64])), s[64..])
  }

  /** Zero bits after the single one bit: as few as bring the length to 56 modulo 64 (section 3.1 of RFC 1321). */
  function Zeros(length: nat): nat {
    (55 - length) % 64
  }

  function Zeroed(n: nat): bytes {
    seq(n, _ => 0)
  }

  /** The message with its padding and its bit length modulo 2^64 (sections 3.1 and 3.2 of RFC 1321). */
  function Padded(m: bytes): (r: bytes)
    ensures |r| == |m| + Zeros(|m|) + 9
  {
    m + [0x80] + Zeroed(Zeros(|m|)) + LittleEndian(8 * |m| % 0x1_0000_0000_0000_0000, 8)
  }

  /** The padding is the shortest that fills the last block. */
  lemma {:induction false} ZerosLeast(length: nat, k: nat)
    ensures (length + Zeros(length) + 9) % 64 == 0
    ensures k < Zeros(length) ==> (length + k + 9) % 64 != 0
  {
    var q, r := length / 64, length % 64;
    ModUnique(55 - length, 64, if r <= 55 then 0 - q else -1 - q, if r <= 55 then 55 - r else 119 - r);
    ModUnique(length + Zeros(length) + 9, 64, if r <= 55 then q + 1 else q + 2, 0);
  }

  function Words(st: State): seq<word> {
    [st.a, st.b, st.c, st.d]
  }

  function DigestOf(f: Rounds, m: bytes): bytes {
    Encoded(Words(Fold(f, Initial, Padded(m))))
  }

  /** The bytes of `m` after its last whole block. */
  function Pending(m: bytes): bytes {
    m[|m| - |m| % 64..]
  }

  lemma {:induction false} FoldSplit(f: Rounds, st: State, s: bytes, t: bytes)
    requires |s| % 64 == 0
    ensures Fold(f, st, s + t) == Fold(f, Fold(f, st, s), t)
    decreases |s|
  {
    if s == [] {
      assert s + t == t;
    } else {
      assert (s + t)[..64] == s[..64] && (s + t)[64..] == s[64..] + t;
      FoldSplit(f, f(st, Decoded(s[..64])), s[64..], t);
    }
  }

  lemma {:induction false} FoldBlock(f: Rounds, st: State, s: bytes, block: bytes)
    requires |s| % 64 == 0 && |block| == 64
    ensures Fold(f, st, s + block) == f(Fold(f, st, s), Decoded(block))
  {
    FoldSplit(f, st, s, block);
    assert block[..64] == block && block[64..] == [];
  }

  /** A tail too short to be a block does not change the state. */
  lemma {:induction false} FoldTail(f: Rounds, st: State, s: bytes, tail: bytes)
    requires |s| % 64 == 0 && |tail| < 64
    ensures Fold(f, st, s + tail) == Fold(f, st, s) && Pending(s + tail) == tail
  {
    FoldSplit(f, st, s, tail);
    ModUnique(|s + tail|, 64, |s| / 64, |tail|);
    assert (s + tail)[|s|..] == tail;
  }

  /** What `encode` writes, `decode` reads back. */
  lemma {:induction false} DecodeEncode(words: seq<word>)
    ensures Decoded(Encoded(words)) == words
  {
    if words != [] {
      DecodeEncode(words[1..]);
      var w, s := words[0], Encoded(words);
      FourDigits(w);
      assert s[..4] == LittleEndian(w, 4) && s[4..] == Encoded(words[1..]);
      assert WordAt(s, 0) == WordAt(s[..4], 0);
    }
  }

  lemma {:induction false} FourDigits(w: word)
    ensures LittleEndian(w, 4) == [w % 256, w / 0x100 % 256, w / 0x1_0000 % 256, w / 0x100_0000 % 256]
    ensures WordAt(LittleEndian(w, 4), 0) == w
  {
    var w1, w2, w3 := w / 256, w / 256 / 256, w / 256 / 256 / 256;
    assert LittleEndian(w3, 1) == [w3 % 256];
    assert LittleEndian(w2, 2) == [w2 % 256, w3 % 256];
    assert LittleEndian(w1, 3) == [w1 % 256, w2 % 256, w3 % 256];
  }

  /** The carry between the two halves of the counter: they count bits modulo 2^64. */
  lemma {:induction false} CountBits(c0: word, c1: word, bits: nat, length: nat)
    requires length < 0x1_0000_0000 && c0 + 0x1_0000_0000 * c1 == bits % 0x1_0000_0000_0000_0000
    ensures var low := length * 8 % 0x1_0000_0000;
            var sum := (c0 + low) % 0x1_0000_0000;
            var carry := if sum < low then 1 else 0;
            sum + 0x1_0000_0000 * ((c1 + carry + length / 0x2000_0000) % 0x1_0000_0000)
              == (bits + 8 * length) % 0x1_0000_0000_0000_0000
  {
    var B := 0x1_0000_0000;
    var low, hi := length * 8 % B, length / 0x2000_0000;
    assert length * 8 == hi * B + low;
    var sum := (c0 + low) % B;
    var carry := if sum < low then 1 else 0;
    assert c0 + low == carry * B + sum;
    var up := c1 + carry + hi;
    var q := bits / (B * B);
    ModUnique(bits + 8 * length, B * B, q + up / B, sum + B * (up % B));
  }

  lemma {:induction false} EncodedAppend(words: seq<word>, w: word)
    ensures Encoded(words + [w]) == Encoded(words) + LittleEndian(w, 4)
  {
    if words == [] {
      assert words + [w] == [w] && Encoded([w][1..]) == [];
    } else {
      assert (words + [w])[1..] == words[1..] + [w];
      EncodedAppend(words[1..], w);
    }
  }

  lemma {:induction false} DecodedAppend(s: bytes, four: bytes)
    requires |s| % 4 == 0 && |four| == 4
    ensures Decoded(s + four) == Decoded(s) + [WordAt(four, 0)]
    decreases |s|
  {
    if s == [] {
      assert s + four == four && Decoded(four[4..]) == [];
    } else {
      assert (s + four)[4..] == s[4..] + four;
      assert WordAt(s + four, 0) == WordAt(s, 0);
      DecodedAppend(s[4..], four);
    }
  }

  /** The bytes of a word do not overlap. */
  lemma {:induction false} OrFour(b0: byte, b1: byte, b2: byte, b3: byte)
    ensures BitOr(BitOr(BitOr(b0, 0x100 * b1 as int), 0x1_0000 * b2 as int), 0x100_0000 * b3 as int)
            == WordOf(b0, b1, b2, b3)
    ensures 0 <= WordOf(b0, b1, b2, b3) < 0x1_0000_0000
  {
    var x1 := WordOf(b0, b1, 0, 0);
    var x2 := WordOf(b0, b1, b2, 0);
    OrBytes(b0, b1, b2, b3, x1, x2);
  }

  lemma {:induction false} OrBytes(b0: nat, b1: nat, b2: nat, b3: nat, x1: nat, x2: nat)
    requires b0 < 0x100 && x1 < 0x1_0000 && x2 < 0x100_0000
    ensures BitOr(b0, 0x100 * b1) == b0 + 0x100 * b1
    ensures BitOr(x1, 0x1_0000 * b2) == x1 + 0x1_0000 * b2
    ensures BitOr(x2, 0x100_0000 * b3) == x2 + 0x100_0000 * b3
  {
    SmallPowers();
    OrAbove(b0, b1, 8, 0x100);
    OrAbove(x1, b2, 16, 0x1_0000);
    OrAbove(x2, b3, 24, 0x100_0000);
  }

  method Encode(input: seq<word>, output: array<byte>)
    requires output.Length == 4 * |input|
    modifies output
    ensures output[..] == Encoded(input)
  {
    var i := 0;
    assert input[..0] == [];
    while i < |input|
      invariant 0 <= i <= |input|
      invariant output[..4 * i] == Encoded(input[..i])
    {
      ghost var before := output[..4 * i];
      var j, w := 4 * i, input[i];
      output[j] := w % 256;
      output[j + 1] := w / 0x100 % 256;
      output[j + 2] := w / 0x1_0000 % 256;
      output[j + 3] := w / 0x100_0000 % 256;
      FourDigits(w);
      EncodedAppend(input[..i], w);
      assert output[..4 * (i + 1)] == before + LittleEndian(w, 4);
      assert input[..i + 1] == input[..i] + [w];
      i := i + 1;
    }
    assert input[..i] == input && output[..4 * i] == output[..];
  }

  method Decode(input: bytes) returns (output: seq<word>)
    requires |input| % 4 == 0
    ensures output == Decoded(input)
  {
    output := [];
    var j := 0;
    assert input[..0] == [];
    while j < |input|
      invariant 0 <= j <= |input| && j % 4 == 0
      invariant output == Decoded(input[..j])
    {
      assert input[..j + 4] == input[..j] + input[j..j + 4];
      DecodedAppend(input[..j], input[j..j + 4]);
      OrFour(input[j], input[j + 1], input[j + 2], input[j + 3]);
      var w := BitOr(BitOr(BitOr(input[j], 0x100 * input[j + 1] as int), 0x1_0000 * input[j + 2] as int),
          0x100_0000 * input[j + 3] as int);
      output := output + [w];
      j := j + 4;
    }
    assert input[..j] == input;
  }

  class Md5 {
    const rounds: Rounds
    const buffer: array<byte>
    const digest: array<byte>
    var state: State
    var count0: word
    var count1: word
    var finished: bool

    ghost predicate Valid() {
      buffer.Length == 64 && digest.Length == 16 && buffer != digest
    }

    /** The object has taken in exactly the message `m` since it was reset. */
    ghost predicate Holds(m: bytes)
      reads this, buffer
    {
      && Valid()
      && count0 + 0x1_0000_0000 * count1 == 8 * |m| % 0x1_0000_0000_0000_0000
      && state == Fold(rounds, Initial, m)
      && buffer[..|m| % 64] == Pending(m)
    }

    constructor (rounds: Rounds)
      ensures Holds([]) && !finished && this.rounds == rounds
      ensures fresh(buffer) && fresh(digest)
    {
      this.rounds := rounds;
      buffer := new byte[64];
      digest := new byte[16];
      count0, count1, state, finished := 0, 0, Initial, false;
    }

    method Reset()
      requires Valid()
      modifies this
      ensures Holds([]) && !finished
    {
      finished := false;
      count0, count1 := 0, 0;
      state := Initial;
    }

    method Transform(block: bytes)
      requires |block| == 64
      modifies this`state
      ensures state == rounds(old(state), Decoded(block))
    {
      var x := Decode(block);
      state := rounds(state, x);
    }

    /** memcpy(&_buffer[at], s, |s|) */
    method Fill(at: nat, s: bytes)
      requires Valid() && at + |s| <= 64
      modifies buffer
      ensures buffer[..] == old(buffer[..at]) + s + old(buffer[at + |s|..])
    {
      forall k | 0 <= k < |s| {
        buffer[at + k] := s[k];
      }
    }

    /** The bit count of a message `length` bytes longer. */
    method CountIn(length: nat, ghost bits: nat)
      requires length < 0x1_0000_0000 && count0 + 0x1_0000_0000 * count1 == bits % 0x1_0000_0000_0000_0000
      modifies this`count0, this`count1
      ensures count0 + 0x1_0000_0000 * count1 == (bits + 8 * length) % 0x1_0000_0000_0000_0000
    {
      CountBits(count0, count1, bits, length);
      CarryIn(count1 + 1, length / 0x2000_0000);
      count0 := (count0 + length * 8 % 0x1_0000_0000) % 0x1_0000_0000;
      if count0 < length * 8 % 0x1_0000_0000 {
        count1 := (count1 + 1) % 0x1_0000_0000;
      }
      count1 := (count1 + length / 0x2000_0000) % 0x1_0000_0000;
    }

    /** The bytes of `input` from `start` on, block by block as long as there are whole blocks. */
    method TransformBlocks(input: bytes, start: word, ghost done: bytes) returns (i: word)
      requires start <= |input| <= 0xffff_ffc0
      requires |done| % 64 == 0 && state == Fold(rounds, Initial, done)
      modifies this`state
      ensures start <= i <= |input| && |input| - i < 64 && (i - start) % 64 == 0
      ensures state == Fold(rounds, Initial, done + input[start..i])
    {
      i := start;
      ghost var k := 0;
      assert done + input[start..start] == done;
      while (i + 63) % 0x1_0000_0000 < |input|
        invariant start <= i <= |input| && i == start + 64 * k
        invariant state == Fold(rounds, Initial, done + input[start..i])
      {
        BlockTaken(rounds, done, input, start, k, input[i..i + 64]);
        Transform(input[i..i + 64]);
        i, k := i + 64, k + 1;
      }
      assert (64 * k) % 64 == 0;
    }

    /** Completes the block begun in the buffer, then goes on with the blocks of the input itself. */
    method TakeBlocks(input: bytes, index: nat, ghost m: bytes) returns (i: word)
      requires Valid() && index == |m| % 64 && 64 - index <= |input| <= 0xffff_ffc0
      requires state == Fold(rounds, Initial, m) && buffer[..index] == Pending(m)
      modifies this`state, buffer
      ensures 64 - index <= i <= |input| && |m + input| % 64 == |input| - i
      ensures state == Fold(rounds, Initial, m + input) && Pending(m + input) == input[i..]
      ensures buffer[..] == old(buffer[..index]) + input[..64 - index]
    {
      var partLen := 64 - index;
      ghost var was := buffer[..index];
      Fill(index, input[..partLen]);
      assert buffer[..] == was + input[..partLen];
      Filled(|m|, partLen);
      BlockFilled(rounds, m, input[..partLen], buffer[..]);
      Transform(buffer[..]);
      i := TransformBlocks(input, partLen, m + input[..partLen]);
      BlocksTaken(rounds, m, input, partLen, i);
    }

    /** Takes in `input`. */
    method Update(input: bytes, ghost m: bytes)
      requires Holds(m) && |input| <= 0xffff_ffc0
      modifies this, buffer
      ensures Holds(m + input) && !finished
      // When the input ends with the block, the buffer is left holding that block.
      ensures |m| % 64 + |input| == 64 ==> buffer[..] == old(buffer[..|m| % 64]) + input
    {
      finished := false;
      var index: nat := count0 / 8 % 64;
      IndexIs(count0, count1, |m|);
      CountIn(|input|, 8 * |m|);
      TakeIn(input, index, m);
    }

    method TakeIn(input: bytes, index: nat, ghost m: bytes)
      requires Valid() && index == |m| % 64 && |input| <= 0xffff_ffc0
      requires state == Fold(rounds, Initial, m) && buffer[..index] == Pending(m)
      modifies this`state, buffer
      ensures state == Fold(rounds, Initial, m + input) && buffer[..|m + input| % 64] == Pending(m + input)
      ensures index + |input| == 64 ==> buffer[..] == old(buffer[..index]) + input
    {
      var i: word, at := 0, index;
      if |input| >= 64 - index {
        i := TakeBlocks(input, index, m);
        at := 0;
      } else {
        TailTaken(rounds, m, input);
      }
      Fill(at, input[i..]);
    }

    /** Computes the digest; state and count are put back, what the buffer holds is not. */
    method Final(ghost m: bytes)
      requires Holds(m)
      modifies this, buffer, digest
      ensures digest[..] == DigestOf(rounds, m)
      ensures state == old(state) && count0 == old(count0) && count1 == old(count1) && !finished
      ensures Holds(m) <==> Reusable(m)
    {
      var oldState, oldCount0, oldCount1 := state, count0, count1;
      var bits := new byte[8];
      Encode([count0, count1], bits);
      CountEncoded(count0, count1);
      PadOut(bits[..], m);
      Encode(Words(state), digest);
      state, count0, count1 := oldState, oldCount0, oldCount1;
    }

    /** Pads to 56 bytes modulo 64, then takes in the length. */
    method PadOut(length: bytes, ghost m: bytes)
      requires Holds(m) && length == LittleEndian(8 * |m| % 0x1_0000_0000_0000_0000, 8)
      modifies this, buffer
      ensures Holds(Padded(m)) && !finished
      ensures buffer[..|m| % 64] == Pending(m) <==> Reusable(m)
    {
      var index: nat := count0 / 8 % 64;
      IndexIs(count0, count1, |m|);
      var padLen := if index < 56 then 56 - index else 120 - index;
      PaddingIs(m, padLen, length);
      ghost var padded := m + Padding()[..padLen];
      Update(Padding()[..padLen], m);
      assert buffer[..56] == Pending(padded);
      Update(length, padded);
      LeftBehind(m, padLen, length, buffer[..]);
    }

    /** `final` runs every time: the updates inside it clear the flag that digest() sets before it. */
    method Digest(ghost m: bytes)
      requires Holds(m) && !finished
      modifies this, buffer, digest
      ensures digest[..] == DigestOf(rounds, m)
      ensures !finished && (Holds(m) <==> Reusable(m))
    {
      if !finished {
        finished := true;
        Final(m);
      }
    }
  }

  /** Any division of a message into update calls gives the digest of the whole message. */
  method DigestOfParts(rounds: Rounds, parts: seq<bytes>) returns (r: bytes)
    requires forall part <- parts :: |part| <= 0xffff_ffc0
    ensures r == DigestOf(rounds, Concat(parts))
  {
    var md5 := new Md5(rounds);
    var k := 0;
    while k < |parts|
      invariant 0 <= k <= |parts|
      invariant fresh(md5) && fresh(md5.buffer) && fresh(md5.digest)
      invariant md5.Holds(Concat(parts[..k])) && !md5.finished && md5.rounds == rounds
    {
      ConcatExtend(parts, k);
      md5.Update(parts[k], Concat(parts[..k]));
      k := k + 1;
    }
    assert parts[..k] == parts;
    md5.Digest(Concat(parts));
    r := md5.digest[..];
  }

  function Padding(): (r: bytes)
    ensures |r| == 64
  {
    [0x80] + Zeroed(63)
  }

  /** Whether the object still holds `m` after a digest: the padding must not have run over its pending bytes. */
  predicate Reusable(m: bytes) {
    var length := LittleEndian(8 * |m| % 0x1_0000_0000_0000_0000, 8);
    |m| % 64 < 56 || Pending(m) == (Zeroed(56) + length)[..|m| % 64]
  }

  /** A message that the object no longer holds after its first digest. */
  lemma {:induction false} NotReusable(m: bytes)
    requires |m| == 56 && m[0] == 1
    ensures !Reusable(m)
  {
    assert Pending(m) == m;
    assert (Zeroed(56) + LittleEndian(8 * |m| % 0x1_0000_0000_0000_0000, 8))[..56][0] == 0;
  }

  function Power256(n: nat): nat {
    if n == 0 then 1 else 256 * Power256(n - 1)
  }

  lemma {:induction false} DigitsSplit(x: nat, y: nat, a: nat, b: nat)
    requires x < Power256(a)
    ensures LittleEndian(x + Power256(a) * y, a + b) == LittleEndian(x, a) + LittleEndian(y, b)
    decreases a
  {
    if a > 0 {
      var z := Power256(a - 1) * y;
      DigitsSplit(x / 256, y, a - 1, b);
      Shifted(Power256(a - 1), y);
      FirstDigit(x, z, a + b);
    }
  }

  lemma {:induction false} Shifted(p: nat, y: nat)
    ensures (256 * p) * y == 256 * (p * y)
  {
  }

  lemma {:induction false} FirstDigit(x: nat, z: nat, n: nat)
    requires n > 0
    ensures LittleEndian(x + 256 * z, n) == [x % 256] + LittleEndian(x / 256 + z, n - 1)
  {
    LowDigit(x, z);
  }

  lemma {:induction false} LowDigit(x: nat, z: nat)
    ensures (x + 256 * z) / 256 == x / 256 + z && (x + 256 * z) % 256 == x % 256
  {
  }

  /** The two counter words are the eight bytes of the bit count. */
  lemma {:induction false} CountEncoded(c0: word, c1: word)
    ensures Encoded([c0, c1]) == LittleEndian(c0 + 0x1_0000_0000 * c1, 8)
  {
    assert Power256(4) == 0x1_0000_0000;
    DigitsSplit(c0, c1, 4, 4);
    assert [c0, c1][1..] == [c1] && [c1][1..] == [];
    assert Encoded([c1]) == LittleEndian(c1, 4);
  }

  /** The padding `final` adds is the padding of RFC 1321. */
  lemma {:induction false} PaddingIs(m: bytes, padLen: nat, length: bytes)
    requires padLen == if |m| % 64 < 56 then 56 - |m| % 64 else 120 - |m| % 64
    requires length == LittleEndian(8 * |m| % 0x1_0000_0000_0000_0000, 8)
    ensures m + Padding()[..padLen] + length == Padded(m)
    ensures |m + Padding()[..padLen]| % 64 == 56
  {
    PaddingLength(|m|, padLen);
    PaddingFront(padLen);
    Regroup(m, [0x80], Zeroed(padLen - 1));
  }

  lemma {:induction false} PaddingLength(n: nat, padLen: nat)
    requires padLen == if n % 64 < 56 then 56 - n % 64 else 120 - n % 64
    ensures padLen == Zeros(n) + 1 && (n + padLen) % 64 == 56
  {
    var q, r := n / 64, n % 64;
    ModUnique(55 - n, 64, if r <= 55 then 0 - q else -1 - q, padLen - 1);
    ModUnique(n + padLen, 64, if r <= 55 then q else q + 1, 56);
  }

  lemma {:induction false} PaddingFront(n: nat)
    requires 1 <= n <= 64
    ensures Padding()[..n] == [0x80] + Zeroed(n - 1)
  {
  }

  lemma {:induction false} Regroup(a: bytes, b: bytes, c: bytes)
    ensures a + b + c == a + (b + c)
  {
  }

  /** What the buffer holds after `final` against what it would have to hold. */
  lemma {:induction false} LeftBehind(m: bytes, padLen: nat, length: bytes, left: bytes)
    requires padLen == if |m| % 64 < 56 then 56 - |m| % 64 else 120 - |m| % 64
    requires length == LittleEndian(8 * |m| % 0x1_0000_0000_0000_0000, 8)
    requires |m + Padding()[..padLen]| % 64 == 56 && left == Pending(m + Padding()[..padLen]) + length
    ensures left[..|m| % 64] == Pending(m) <==> Reusable(m)
  {
    var index := |m| % 64;
    var all := m + Padding()[..padLen];
    if index < 56 {
      assert all[|all| - 56..] == Pending(m) + Padding()[..padLen];
      assert left[..index] == Pending(m);
    } else {
      assert all[|all| - 56..] == Padding()[padLen - 56..padLen] == Zeroed(56);
    }
  }

  lemma {:induction false} CarryIn(a: nat, b: nat)
    ensures (a % 0x1_0000_0000 + b) % 0x1_0000_0000 == (a + b) % 0x1_0000_0000
  {
  }

  /** The buffer's fill level, taken from the low half of the bit count. */
  lemma {:induction false} IndexIs(c0: word, c1: word, length: nat)
    requires c0 + 0x1_0000_0000 * c1 == 8 * length % 0x1_0000_0000_0000_0000
    ensures c0 / 8 % 64 == length % 64
  {
    var q := 8 * length / 0x1_0000_0000_0000_0000;
    assert 8 * length == q * 0x1_0000_0000_0000_0000 + c0 + 0x1_0000_0000 * c1;
    LowBits(c0, length, q * 0x80_0000_0000_0000 + 0x80_0000 * c1);
  }

  lemma {:induction false} LowBits(c0: word, length: nat, k: int)
    requires c0 == 8 * (length - 64 * k)
    ensures c0 / 8 % 64 == length % 64
  {
    assert c0 / 8 == length - 64 * k;
  }

  lemma {:induction false} Filled(n: nat, k: nat)
    requires n % 64 + k == 64
    ensures (n + k) % 64 == 0
  {
  }

  /** The bytes that complete a begun block. */
  lemma {:induction false} BlockFilled(f: Rounds, m: bytes, rest: bytes, block: bytes)
    requires |m| % 64 + |rest| == 64 && block == Pending(m) + rest
    ensures Fold(f, Initial, m + rest) == f(Fold(f, Initial, m), Decoded(block))
  {
    var whole := m[..|m| - |m| % 64];
    Rejoin(m, rest, block);
    FoldTail(f, Initial, whole, Pending(m));
    FoldBlock(f, Initial, whole, block);
  }

  lemma {:induction false} Rejoin(m: bytes, rest: bytes, tail: bytes)
    requires tail == Pending(m) + rest
    ensures var whole := m[..|m| - |m| % 64];
            |whole| % 64 == 0 && m == whole + Pending(m) && m + rest == whole + tail
  {
  }

  lemma {:induction false} BlockTaken(f: Rounds, done: bytes, input: bytes, start: nat, k: nat, block: bytes)
    requires |done| % 64 == 0 && start + 64 * k + 64 <= |input|
    requires block == input[start + 64 * k..start + 64 * k + 64]
    ensures var i := start + 64 * k;
            Fold(f, Initial, done + input[start..i + 64]) == f(Fold(f, Initial, done + input[start..i]), Decoded(block))
  {
    var i := start + 64 * k;
    var before := done + input[start..i];
    assert done + input[start..i + 64] == before + block;
    assert |before| % 64 == 0;
    FoldBlock(f, Initial, before, block);
  }

  lemma {:induction false} BlocksTaken(f: Rounds, m: bytes, input: bytes, first: nat, i: nat)
    requires |m| % 64 + first == 64 && first <= i <= |input|
    requires |input| - i < 64 && (i - first) % 64 == 0
    ensures Fold(f, Initial, m + input) == Fold(f, Initial, m + input[..first] + input[first..i])
    ensures Pending(m + input) == input[i..] && |m + input| % 64 == |input| - i
  {
    var done := m + input[..first] + input[first..i];
    assert m + input == done + input[i..];
    FoldTail(f, Initial, done, input[i..]);
  }

  /** Bytes that leave the begun block unfinished. */
  lemma {:induction false} TailTaken(f: Rounds, m: bytes, input: bytes)
    requires |m| % 64 + |input| < 64
    ensures Fold(f, Initial, m + input) == Fold(f, Initial, m)
    ensures Pending(m + input) == Pending(m) + input && |m + input| % 64 == |m| % 64 + |input|
  {
    var whole := m[..|m| - |m| % 64];
    Rejoin(m, input, Pending(m) + input);
    FoldTail(f, Initial, whole, Pending(m));
    FoldTail(f, Initial, whole, Pending(m) + input);
  }

  /** Section 3.3 of RFC 1321 gives the initial words byte by byte. */
  lemma {:induction false} InitialBytes()
    ensures Encoded(Words(Initial)) ==
            [0x01, 0x23, 0x45, 0x67, 0x89, 0xab, 0xcd, 0xef, 0xfe, 0xdc, 0xba, 0x98, 0x76, 0x54, 0x32, 0x10]
  {
    var w := Words(Initial);
    InitialWords();
    assert w[1..][1..][1..][1..] == [];
    assert Encoded(w) == LittleEndian(w[0], 4) + (LittleEndian(w[1], 4) + (LittleEndian(w[2], 4)
                         + (LittleEndian(w[3], 4) + [])));
  }

  lemma {:induction false} InitialWords()
    ensures LittleEndian(0x67452301, 4) == [0x01, 0x23, 0x45, 0x67]
    ensures LittleEndian(0xefcdab89, 4) == [0x89, 0xab, 0xcd, 0xef]
    ensures LittleEndian(0x98badcfe, 4) == [0xfe, 0xdc, 0xba, 0x98]
    ensures LittleEndian(0x10325476, 4) == [0x76, 0x54, 0x32, 0x10]
  {
    FourDigits(0x67452301);
    FourDigits(0xefcdab89);
    FourDigits(0x98badcfe);
    FourDigits(0x10325476);
  }
}
