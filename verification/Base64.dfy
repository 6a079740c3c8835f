/** Base64Encode, Base64Decode and UnBase64. */
module Base64 {
  import opened Bytes
  import opened Bits

  type sextet = x: int | 0 <= x < 64

  /** The character of the alphabet of section 4 of RFC 4648. */
  function Letter(k: sextet): byte {
    if k < 26 then 65 + k else if k < 52 then 71 + k else if k < 62 then k - 4 else if k == 62 then 43 else 47
  }

  const Pad: byte := 61

  function UnBase64(c: byte): int {
    if 65 <= c <= 90 then c - 65
    else if 97 <= c <= 122 then c - 71
    else if 48 <= c <= 57 then c + 4
    else if c == 43 then 62
    else if c == 47 then 63
    else if c == 61 then -1
    else -2
  }

  /** The values of the letters before the first padding character; other characters do not matter. */
  function Sextets(s: bytes): seq<sextet> {
    if s == [] || UnBase64(s[0]) == -1 then []
    else if UnBase64(s[0]) >= 0 then [UnBase64(s[0])] + Sextets(s[1..])
    else Sextets(s[1..])
  }

  // Three bytes from four sextets, and the other way round.

  function First(a: sextet, b: sextet): byte {
    a as int * 4 + b as int / 16
  }

  function Second(b: sextet, c: sextet): byte {
    b as int % 16 * 16 + c as int / 4
  }

  function Third(c: sextet, d: sextet): byte {
    c as int % 4 * 64 + d as int
  }

  function Sextet1(x: byte): sextet {
    x / 4
  }

  function Sextet2(x: byte, y: byte): sextet {
    x % 4 * 16 + y / 16
  }

  function Sextet3(y: byte, z: byte): sextet {
    y % 16 * 4 + z / 64
  }

  /** The bits of the sextets put together, eight to a byte, the last byte filled up with zeros. */
  function Filled(t: seq<sextet>): bytes {
    if |t| == 0 then []
    else if |t| == 1 then [First(t[0], 0)]
    else if |t| == 2 then [First(t[0], t[1]), Second(t[1], 0)]
    else if |t| == 3 then [First(t[0], t[1]), Second(t[1], t[2]), Third(t[2], 0)]
    else [First(t[0], t[1]), Second(t[1], t[2]), Third(t[2], t[3])] + Filled(t[4..])
  }

  lemma {:induction false} FilledLength(t: seq<sextet>)
    ensures |Filled(t)| == (6 * |t| + 7) / 8
  {
    if |t| >= 4 {
      FilledLength(t[4..]);
      assert |Filled(t)| == 3 + |Filled(t[4..])|;
    }
  }

  /** The whole bytes among them. */
  function Packed(t: seq<sextet>): bytes {
    FilledLength(t);
    Filled(t)[..6 * |t| / 8]
  }

  /** The encoding by groups of three bytes, with the padding of section 4 of RFC 4648. */
  function Encoded(x: bytes): bytes {
    if |x| == 0 then []
    else if |x| == 1 then [Letter(Sextet1(x[0])), Letter(Sextet2(x[0], 0)), Pad, Pad]
    else if |x| == 2 then [Letter(Sextet1(x[0])), Letter(Sextet2(x[0], x[1])), Letter(Sextet3(x[1], 0)), Pad]
    else Group(x[0], x[1], x[2]) + Encoded(x[3..])
  }

  lemma {:induction false} EncodedLength(x: bytes)
    ensures |Encoded(x)| == (|x| + 2) / 3 * 4
    decreases |x|
  {
    if |x| > 2 {
      EncodedLength(x[3..]);
      assert |Encoded(x)| == 4 + |Encoded(x[3..])|;
    }
  }

  function Group(x: byte, y: byte, z: byte): bytes {
    [Letter(Sextet1(x)), Letter(Sextet2(x, y)), Letter(Sextet3(y, z)), Letter(z % 64)]
  }

  function Decoded(s: bytes): bytes {
    Packed(Sextets(s))
  }

  /** Groups of four sextets are filled independently. */
  lemma {:induction false} FilledSplit(whole: seq<sextet>, tail: seq<sextet>)
    requires |whole| % 4 == 0
    ensures Filled(whole + tail) == Filled(whole) + Filled(tail)
    decreases |whole|
  {
    if whole == [] {
      assert whole + tail == tail;
    } else {
      var both := whole + tail;
      assert both[4..] == whole[4..] + tail;
      FilledSplit(whole[4..], tail);
      FilledGroup(both);
      FilledGroup(whole);
      assert Filled(both) == GroupBytes(whole) + (Filled(whole[4..]) + Filled(tail));
    }
  }

  function GroupBytes(t: seq<sextet>): bytes
    requires |t| >= 4
  {
    [First(t[0], t[1]), Second(t[1], t[2]), Third(t[2], t[3])]
  }

  lemma {:induction false} FilledGroup(t: seq<sextet>)
    requires |t| >= 4
    ensures Filled(t) == GroupBytes(t) + Filled(t[4..])
  {
  }

  /** One sextet more: which byte it goes into, and which byte it opens. */
  ghost predicate Stepped(f: bytes, c: sextet, g: bytes, phase: nat) {
    match phase
    case 0 => g == f + [First(c, 0)]
    case 1 => f != [] && f[|f| - 1] % 4 == 0 && g == f[..|f| - 1] + [f[|f| - 1] as int + c / 16, Second(c, 0)]
    case 2 => f != [] && f[|f| - 1] % 16 == 0 && g == f[..|f| - 1] + [f[|f| - 1] as int + c / 4, Third(c, 0)]
    case _ => f != [] && f[|f| - 1] % 64 == 0 && g == f[..|f| - 1] + [f[|f| - 1] as int + c as int]
  }

  lemma {:induction false} FilledStep(t: seq<sextet>, c: sextet)
    ensures Stepped(Filled(t), c, Filled(t + [c]), |t| % 4)
  {
    var n := |t| - |t| % 4;
    var whole, tail := t[..n], t[n..];
    assert t == whole + tail && t + [c] == whole + (tail + [c]);
    FilledSplit(whole, tail);
    FilledSplit(whole, tail + [c]);
    TailStep(tail, c);
    SteppedBehind(Filled(whole), Filled(tail), c, Filled(tail + [c]), |tail|);
  }

  lemma {:induction false} TailStep(t: seq<sextet>, c: sextet)
    requires |t| < 4
    ensures Stepped(Filled(t), c, Filled(t + [c]), |t|)
  {
    if |t| == 3 {
      assert Filled((t + [c])[4..]) == [];
    }
  }

  lemma {:induction false} SteppedBehind(w: bytes, f: bytes, c: sextet, g: bytes, phase: nat)
    requires Stepped(f, c, g, phase)
    ensures Stepped(w + f, c, w + g, phase)
  {
    if phase != 0 {
      assert (w + f)[..|w + f| - 1] == w + f[..|f| - 1];
    }
  }

  /** Six bits a sextet, against eight bits a byte. */
  lemma {:induction false} Phase(n: nat)
    ensures var r := n % 4;
            6 * n % 8 == (if r == 0 then 0 else 8 - 2 * r) && 6 * n / 8 == (6 * n + 7) / 8 - if r == 0 then 0 else 1
  {
    var q, r := n / 4, n % 4;
    assert 6 * n == 24 * q + 6 * r;
  }

  lemma {:induction false} OrCommutes(x: nat, y: nat)
    ensures BitOr(x, y) == BitOr(y, x)
  {
    if x != 0 && y != 0 {
      OrCommutes(x / 2, y / 2);
    }
  }

  /** `x | y` where `y` lies in the zero bits at the end of `x`. */
  lemma {:induction false} OrInto(x: nat, y: nat, k: nat, p: nat)
    requires Pow2(k) == p && x % p == 0 && y < p
    ensures BitOr(x, y) == x + y
  {
    var q := x / p;
    assert x == q * p;
    OrDisjoint(y, q, k);
    OrCommutes(x, y);
  }

  lemma {:induction false} LowPowers()
    ensures Pow2(2) == 4 && Pow2(4) == 16 && Pow2(6) == 64
  {
    SmallPowers();
  }

  /** The buffer holds `f`, and zeros behind it. */
  ghost predicate Holds(s: bytes, f: bytes) {
    f <= s && forall k :: |f| <= k < |s| ==> s[k] == 0
  }

  lemma {:induction false} HoldsLast(s: bytes, f: bytes, a: byte)
    requires Holds(s, f) && f != []
    ensures Holds(s[|f| - 1 := a], f[..|f| - 1] + [a])
  {
  }

  lemma {:induction false} HoldsOpened(s: bytes, f: bytes, a: byte)
    requires Holds(s, f) && |f| < |s|
    ensures Holds(s[|f| := a], f + [a])
  {
  }

  method Base64Decode(s: bytes) returns (r: bytes)
    ensures r == Decoded(s)
  {
    var res := new byte[|s| * 4 / 3 + 5](_ => 0);
    var i, o := 0, 0;
    ghost var t: seq<sextet> := [];
    assert s[0..] == s;
    while i < |s|
      invariant 0 <= i <= |s| && o == 6 * |t| <= 6 * i
      invariant Sextets(s) == t + Sextets(s[i..])
      invariant Holds(res[..], Filled(t))
    {
      var c := UnBase64(s[i]);
      SextetsStep(s, i, t);
      if c >= 0 {
        PutSextet(res, o, c, t);
        t := t + [c];
        o := o + 6;
      }
      if c == -1 {
        r := Cut(res, o, t);
        return;
      }
      i := i + 1;
    }
    assert s[i..] == [] && Sextets(s) == t;
    r := Cut(res, o, t);
  }

  /** res.resize(o >> 3) */
  method Cut(res: array<byte>, o: nat, ghost t: seq<sextet>) returns (r: bytes)
    requires o == 6 * |t| && Holds(res[..], Filled(t))
    ensures r == Packed(t)
  {
    FilledLength(t);
    assert res[..][..|Filled(t)|] == Filled(t);
    r := res[..o / 8];
    assert r == Filled(t)[..o / 8];
  }

  lemma {:induction false} SextetsStep(s: bytes, i: nat, t: seq<sextet>)
    requires i < |s| && Sextets(s) == t + Sextets(s[i..])
    ensures UnBase64(s[i]) < 64
    ensures UnBase64(s[i]) >= 0 ==> Sextets(s) == (t + [UnBase64(s[i])]) + Sextets(s[i + 1..])
    ensures UnBase64(s[i]) == -1 ==> Sextets(s) == t
    ensures UnBase64(s[i]) == -2 ==> Sextets(s) == t + Sextets(s[i + 1..])
  {
    assert s[i..][1..] == s[i + 1..];
  }

  method OrAt(res: array<byte>, k: nat, x: nat)
    requires k < res.Length
    modifies res
    ensures res[..] == old(res[..])[k := BitOr(old(res[k]), x) % 256]
  {
    res[k] := BitOr(res[k], x) % 256;
  }

  method OrTwo(res: array<byte>, k: nat, x: nat, y: nat)
    requires k + 1 < res.Length
    modifies res
    ensures res[..] == old(res[..])[k := BitOr(old(res[k]), x) % 256][k + 1 := BitOr(old(res[k + 1]), y) % 256]
  {
    OrAt(res, k, x);
    OrAt(res, k + 1, y);
  }

  method PutSextet(res: array<byte>, o: nat, c: sextet, ghost t: seq<sextet>)
    requires o == 6 * |t| && o / 8 + 1 < res.Length && Holds(res[..], Filled(t))
    modifies res
    ensures Holds(res[..], Filled(t + [c]))
  {
    FilledStep(t, c);
    Phase(|t|);
    FilledLength(t);
    PutAt(res, o / 8, o % 8, c, |t| % 4, Filled(t), Filled(t + [c]));
  }

  /** The four cases of placing a sextet at bit `at` of byte `k`. */
  method PutAt(res: array<byte>, k: nat, at: nat, c: sextet, ghost phase: nat, ghost f: bytes, ghost g: bytes)
    requires k + 1 < res.Length && Holds(res[..], f) && phase < 4 && Stepped(f, c, g, phase)
    requires at == (if phase == 0 then 0 else 8 - 2 * phase) && k == |f| - if phase == 0 then 0 else 1
    modifies res
    ensures Holds(res[..], g)
  {
    ghost var was := res[..];
    match at
    case 0 =>
      PutOpen(was, f, c, g);
      OrAt(res, k, c as int * 4);
    case 6 =>
      PutAcross6(was, f, c, g);
      OrTwo(res, k, c / 16, c as int * 16);
    case 4 =>
      PutAcross4(was, f, c, g);
      OrTwo(res, k, c / 4, c as int * 64);
    case _ =>
      PutLast(was, f, c, g);
      OrAt(res, k, c);
  }

  lemma {:induction false} PutOpen(s: bytes, f: bytes, c: sextet, g: bytes)
    requires Holds(s, f) && |f| < |s| && Stepped(f, c, g, 0)
    ensures Holds(s[|f| := BitOr(s[|f|], c as int * 4) % 256], g)
  {
    HoldsOpened(s, f, First(c, 0));
  }

  lemma {:induction false} OrZero(x: nat)
    ensures BitOr(0, x) == x
  {
  }

  lemma {:induction false} Spilled6(b: byte, c: sextet)
    requires b % 4 == 0
    ensures b as int + c / 16 < 256 && BitOr(b, c / 16) % 256 == b as int + c / 16
    ensures BitOr(0, c as int * 16) % 256 == Second(c, 0)
  {
    LowPowers();
    OrInto(b, c / 16, 2, 4);
    BelowByte(b, c / 16, 4);
    Overflow6(c);
  }

  lemma {:induction false} Overflow6(c: sextet)
    ensures BitOr(0, c as int * 16) % 256 == Second(c, 0)
  {
    OrZero(c as int * 16);
  }

  lemma {:induction false} PutAcross6(s: bytes, f: bytes, c: sextet, g: bytes)
    requires Holds(s, f) && |f| < |s| && Stepped(f, c, g, 1)
    ensures Holds(s[|f| - 1 := BitOr(s[|f| - 1], c / 16) % 256][|f| := BitOr(s[|f|], c as int * 16) % 256], g)
  {
    Spilled6(s[|f| - 1], c);
    TwoBytes(s, f, s[|f| - 1] as int + c / 16, Second(c, 0));
  }

  lemma {:induction false} Spilled4(b: byte, c: sextet)
    requires b % 16 == 0
    ensures b as int + c / 4 < 256 && BitOr(b, c / 4) % 256 == b as int + c / 4
    ensures BitOr(0, c as int * 64) % 256 == Third(c, 0)
  {
    LowPowers();
    OrInto(b, c / 4, 4, 16);
    BelowByte(b, c / 4, 16);
    Overflow4(c);
  }

  lemma {:induction false} Overflow4(c: sextet)
    ensures BitOr(0, c as int * 64) % 256 == Third(c, 0)
  {
    OrZero(c as int * 64);
  }

  lemma {:induction false} PutAcross4(s: bytes, f: bytes, c: sextet, g: bytes)
    requires Holds(s, f) && |f| < |s| && Stepped(f, c, g, 2)
    ensures Holds(s[|f| - 1 := BitOr(s[|f| - 1], c / 4) % 256][|f| := BitOr(s[|f|], c as int * 64) % 256], g)
  {
    Spilled4(s[|f| - 1], c);
    TwoBytes(s, f, s[|f| - 1] as int + c / 4, Third(c, 0));
  }

  lemma {:induction false} Spilled2(b: byte, c: sextet)
    requires b % 64 == 0
    ensures b as int + c as int < 256 && BitOr(b, c) % 256 == b as int + c as int
  {
    LowPowers();
    OrInto(b, c, 6, 64);
    BelowByte(b, c, 64);
  }

  lemma {:induction false} BelowByte(b: byte, c: nat, p: nat)
    requires p in {4, 16, 64} && b % p == 0 && c < p
    ensures b as int + c < 256 && (b as int + c) % 256 == b as int + c
  {
  }

  lemma {:induction false} PutLast(s: bytes, f: bytes, c: sextet, g: bytes)
    requires Holds(s, f) && Stepped(f, c, g, 3)
    ensures Holds(s[|f| - 1 := BitOr(s[|f| - 1], c) % 256], g)
  {
    Spilled2(s[|f| - 1], c);
    HoldsLast(s, f, s[|f| - 1] as int + c as int);
  }

  lemma {:induction false} TwoBytes(s: bytes, f: bytes, a: byte, b: byte)
    requires Holds(s, f) && f != [] && |f| < |s|
    ensures Holds(s[|f| - 1 := a][|f| := b], f[..|f| - 1] + [a, b])
  {
    HoldsLast(s, f, a);
    var f' := f[..|f| - 1] + [a];
    HoldsOpened(s[|f| - 1 := a], f', b);
    assert f' + [b] == f[..|f| - 1] + [a, b];
  }

  // Encoding.

  lemma {:induction false} EncodedSplit(a: bytes, b: bytes)
    requires |a| % 3 == 0
    ensures Encoded(a + b) == Encoded(a) + Encoded(b)
    decreases |a|
  {
    if a == [] {
      assert a + b == b;
    } else {
      assert (a + b)[3..] == a[3..] + b;
      EncodedSplit(a[3..], b);
    }
  }

  /** The code's `(x << 4 | y >> 4) & 63` and `(x << 4) & 63`. */
  lemma {:induction false} Masked2(x: byte, y: byte)
    ensures BitOr(x as int * 16, y / 16) % 64 == Sextet2(x, y) && (x as int * 16) % 64 == Sextet2(x, 0)
  {
    LowPowers();
    var z: nat, low := x as int * 16, x as int % 4 * 16;
    assert z % 16 == 0;
    OrInto(z, y / 16, 4, 16);
    ModUnique(z + y / 16, 64, x / 4, low + y / 16);
    ModUnique(z, 64, x / 4, low);
  }

  /** The code's `(y << 2 | z >> 6) & 63` and `(y << 2) & 63`. */
  lemma {:induction false} Masked3(x: byte, y: byte)
    ensures BitOr(x as int * 4, y / 64) % 64 == Sextet3(x, y) && (x as int * 4) % 64 == Sextet3(x, 0)
  {
    LowPowers();
    var z: nat, low := x as int * 4, x as int % 16 * 4;
    assert z % 4 == 0;
    OrInto(z, y / 64, 2, 4);
    ModUnique(z + y / 64, 64, x / 16, low + y / 64);
    ModUnique(z, 64, x / 16, low);
  }

  method Base64Encode(x: bytes) returns (r: bytes)
    ensures r == Encoded(x) && |r| == (|x| + 2) / 3 * 4
  {
    var output := new byte[(|x| + 2) / 3 * 4];
    var full := |x| / 3 * 3;
    Thirds(|x|);
    var j := PutGroups(output, x[..full], |x| / 3);
    assert x == x[..full] + x[full..];
    EncodedSplit(x[..full], x[full..]);
    if full < |x| {
      PutTail(output, j, x[full..], Encoded(x[..full]));
      j := j + 4;
    }
    r := output[..];
    EncodedLength(x);
    assert r == output[..j];
  }

  lemma {:induction false} Thirds(n: nat)
    ensures n / 3 * 3 <= n < n / 3 * 3 + 3 && n / 3 * 3 % 3 == 0
    ensures (n + 2) / 3 == n / 3 + if n / 3 * 3 < n then 1 else 0
  {
  }

  lemma {:induction false} NextGroup(x: bytes, i: nat, g: nat)
    requires i == 3 * g && i + 3 <= |x|
    ensures Encoded(x[..i + 3]) == Encoded(x[..i]) + Group(x[i], x[i + 1], x[i + 2])
  {
    assert x[..i + 3] == x[..i] + [x[i], x[i + 1], x[i + 2]];
    EncodedGroup(x[..i], x[i], x[i + 1], x[i + 2]);
  }

  /** The loop over the groups of three bytes. */
  method PutGroups(output: array<byte>, x: bytes, groups: nat) returns (j: nat)
    requires |x| == 3 * groups && 4 * groups <= output.Length
    modifies output
    ensures j == 4 * groups && output[..j] == Encoded(x)
  {
    j := 0;
    var i := 0;
    ghost var g := 0;
    while i < |x|
      invariant 0 <= g <= groups && i == 3 * g && j == 4 * g
      invariant output[..j] == Encoded(x[..i])
    {
      NextGroup(x, i, g);
      PutGroup(output, j, x[i], x[i + 1], x[i + 2], Encoded(x[..i]));
      j, i, g := j + 4, i + 3, g + 1;
    }
    assert x[..i] == x;
  }

  lemma {:induction false} EncodedGroup(a: bytes, x: byte, y: byte, z: byte)
    requires |a| % 3 == 0
    ensures Encoded(a + [x, y, z]) == Encoded(a) + Group(x, y, z)
  {
    EncodedSplit(a, [x, y, z]);
    assert [x, y, z][3..] == [];
  }

  method PutGroup(output: array<byte>, j: nat, x: byte, y: byte, z: byte, ghost done: bytes)
    requires j + 4 <= output.Length && output[..j] == done
    modifies output
    ensures output[..j + 4] == done + Group(x, y, z)
  {
    Masked2(x, y);
    Masked3(y, z);
    output[j] := Letter(x / 4);
    output[j + 1] := Letter(BitOr(x as int * 16, y / 16) % 64);
    output[j + 2] := Letter(BitOr(y as int * 4, z / 64) % 64);
    output[j + 3] := Letter(z % 64);
  }

  method PutTail(output: array<byte>, j: nat, tail: bytes, ghost done: bytes)
    requires 1 <= |tail| <= 2 && j + 4 <= output.Length && output[..j] == done
    modifies output
    ensures output[..j + 4] == done + Encoded(tail)
  {
    Masked2(tail[0], tail[|tail| - 1]);
    Masked3(tail[|tail| - 1], 0);
    output[j] := Letter(tail[0] / 4);
    if |tail| == 1 {
      output[j + 1] := Letter((tail[0] as int * 16) % 64);
      output[j + 2] := Pad;
    } else {
      output[j + 1] := Letter(BitOr(tail[0] as int * 16, tail[1] / 16) % 64);
      output[j + 2] := Letter((tail[1] as int * 4) % 64);
    }
    output[j + 3] := Pad;
  }

  /** The alphabet is read back. */
  lemma {:induction false} LetterRead(k: sextet)
    ensures UnBase64(Letter(k)) == k
  {
  }

  lemma {:induction false} SextetsLetter(k: sextet, rest: bytes)
    ensures Sextets([Letter(k)] + rest) == [k] + Sextets(rest)
  {
    LetterRead(k);
    assert ([Letter(k)] + rest)[1..] == rest;
  }

  lemma {:induction false} SextetsGroup(x: byte, y: byte, z: byte, rest: bytes)
    ensures Sextets(Group(x, y, z) + rest) == [Sextet1(x), Sextet2(x, y), Sextet3(y, z), z % 64] + Sextets(rest)
  {
    var a, b, c, d := Sextet1(x), Sextet2(x, y), Sextet3(y, z), z % 64;
    SextetsLetter(d, rest);
    SextetsLetter(c, [Letter(d)] + rest);
    SextetsLetter(b, [Letter(c)] + ([Letter(d)] + rest));
    SextetsLetter(a, [Letter(b)] + ([Letter(c)] + ([Letter(d)] + rest)));
    assert Group(x, y, z) + rest == [Letter(a)] + ([Letter(b)] + ([Letter(c)] + ([Letter(d)] + rest)));
  }

  /** Three bytes cut into sextets and put together again. */
  lemma {:induction false} Recombined(x: byte, y: byte, z: byte)
    ensures First(Sextet1(x), Sextet2(x, y)) == x && Second(Sextet2(x, y), Sextet3(y, z)) == y
            && Third(Sextet3(y, z), z % 64) == z
  {
  }

  /** Decoding undoes encoding, for every byte string. */
  lemma {:induction false} RoundTrip(x: bytes)
    ensures Decoded(Encoded(x)) == x
    decreases |x|
  {
    if |x| == 0 {
    } else if |x| == 1 {
      RoundTripOne(x);
    } else if |x| == 2 {
      RoundTripTwo(x);
    } else {
      RoundTrip(x[3..]);
      GroupDecoded(x[0], x[1], x[2], Encoded(x[3..]));
      assert x == [x[0], x[1], x[2]] + x[3..];
    }
  }

  lemma {:induction false} GroupDecoded(x: byte, y: byte, z: byte, rest: bytes)
    ensures Decoded(Group(x, y, z) + rest) == [x, y, z] + Decoded(rest)
  {
    var group: seq<sextet> := [Sextet1(x), Sextet2(x, y), Sextet3(y, z), z % 64];
    SextetsGroup(x, y, z, rest);
    Recombined(x, y, z);
    PackedGroup(group, Sextets(rest));
  }

  lemma {:induction false} PackedGroup(group: seq<sextet>, rest: seq<sextet>)
    requires |group| == 4
    ensures Packed(group + rest) == [First(group[0], group[1]), Second(group[1], group[2]), Third(group[2], group[3])]
            + Packed(rest)
  {
    FilledLength(rest);
    FilledLength(group + rest);
    assert (group + rest)[4..] == rest;
    assert 6 * |group + rest| / 8 == 3 + 6 * |rest| / 8;
  }

  lemma {:induction false} RoundTripOne(x: bytes)
    requires |x| == 1
    ensures Decoded(Encoded(x)) == x
  {
    var a, b := Sextet1(x[0]), Sextet2(x[0], 0);
    SextetsLetter(b, [Pad, Pad]);
    SextetsLetter(a, [Letter(b)] + [Pad, Pad]);
    assert Encoded(x) == [Letter(a)] + ([Letter(b)] + [Pad, Pad]);
    RecombinedOne(x[0]);
    assert Sextets([Pad, Pad]) == [] && Sextets(Encoded(x)) == [a, b];
    PackedShort(a, b, 0);
  }

  lemma {:induction false} RecombinedOne(x: byte)
    ensures First(Sextet1(x), Sextet2(x, 0)) == x
  {
    Recombined(x, 0, 0);
  }

  /** Two sextets make one byte, three make two. */
  lemma {:induction false} PackedShort(a: sextet, b: sextet, c: sextet)
    ensures Packed([a, b]) == [First(a, b)] && Packed([a, b, c]) == [First(a, b), Second(b, c)]
  {
    assert 6 * |[a, b]| / 8 == 1 && 6 * |[a, b, c]| / 8 == 2;
  }

  lemma {:induction false} RoundTripTwo(x: bytes)
    requires |x| == 2
    ensures Decoded(Encoded(x)) == x
  {
    var a, b, c := Sextet1(x[0]), Sextet2(x[0], x[1]), Sextet3(x[1], 0);
    SextetsLetter(c, [Pad]);
    SextetsLetter(b, [Letter(c)] + [Pad]);
    SextetsLetter(a, [Letter(b)] + ([Letter(c)] + [Pad]));
    assert Encoded(x) == [Letter(a)] + ([Letter(b)] + ([Letter(c)] + [Pad]));
    Recombined(x[0], x[1], 0);
    assert Sextets(Encoded(x)) == [a, b, c];
    PackedShort(a, b, c);
  }

  /** Characters outside the alphabet, wherever they stand, do not change what is decoded. */
  lemma {:induction false} StrayIgnored(a: bytes, stray: bytes, b: bytes)
    requires forall c <- stray :: UnBase64(c) == -2
    ensures Decoded(a + stray + b) == Decoded(a + b)
  {
    SextetsStray(a, stray, b);
  }

  lemma {:induction false} SextetsStray(a: bytes, stray: bytes, b: bytes)
    requires forall c <- stray :: UnBase64(c) == -2
    ensures Sextets(a + stray + b) == Sextets(a + b)
    decreases |a|, |stray|
  {
    if a != [] {
      assert (a + stray + b)[1..] == a[1..] + stray + b && (a + b)[1..] == a[1..] + b;
      SextetsStray(a[1..], stray, b);
    } else if stray != [] {
      assert (a + stray + b)[1..] == a + stray[1..] + b && (a + stray + b)[0] == stray[0];
      SextetsStray(a, stray[1..], b);
    } else {
      assert a + stray + b == a + b;
    }
  }

  /** Whatever follows the first padding character is not looked at. */
  lemma {:induction false} NothingAfterPad(a: bytes, b: bytes)
    ensures Decoded(a + [Pad] + b) == Decoded(a)
  {
    SextetsPad(a, b);
  }

  lemma {:induction false} SextetsPad(a: bytes, b: bytes)
    ensures Sextets(a + [Pad] + b) == Sextets(a)
  {
    if a != [] {
      assert (a + [Pad] + b)[1..] == a[1..] + [Pad] + b;
      SextetsPad(a[1..], b);
    }
  }

  // The alphabet itself.

  /** Table 1 of RFC 4648. */
  const Capitals: string := "ABCDEFGHIJKLMNOPQRSTUVWXYZ"
  const Smalls: string := "abcdefghijklmnopqrstuvwxyz"
  const Digits: string := "0123456789"

  lemma {:induction false} Alphabet(k: sextet)
    ensures k < 26 ==> Letter(k) == Capitals[k] as int
    ensures 26 <= k < 52 ==> Letter(k) == Smalls[k - 26] as int
    ensures 52 <= k < 62 ==> Letter(k) == Digits[k - 52] as int
    ensures Letter(62) == '+' as int && Letter(63) == '/' as int && Pad == '=' as int
  {
    if k < 26 {
      CapitalsInOrder(k);
    } else if k < 52 {
      SmallsInOrder(k - 26);
    }
  }

  lemma {:induction false} CapitalsInOrder(k: nat)
    requires k < 26
    ensures Capitals[k] as int == 65 + k
  {
  }

  lemma {:induction false} SmallsInOrder(k: nat)
    requires k < 26
    ensures Smalls[k] as int == 97 + k
  {
  }

  /** Examples of section 10 of RFC 4648: f, fo and foo. */
  lemma {:induction false} EncodedExamples()
    ensures Encoded([102]) == [90, 103, 61, 61] && Encoded([102, 111]) == [90, 109, 56, 61]
    ensures Encoded([102, 111, 111]) == [90, 109, 57, 118]
  {
    assert [102, 111, 111][3..] == [];
  }
}
