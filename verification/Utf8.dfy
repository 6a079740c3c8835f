/** UTF8ToRawBEUTF16 against the definitions of UTF-8 and UTF-16. */
module Utf8 {
  import opened Bytes
  import opened Options

  type word = x: int | 0 <= x < 0x1_0000_0000
  type u16 = x: int | 0 <= x < 0x1_0000

  // The reference: scalar values, section 3 of RFC 3629 and section 2.1 of RFC 2781.

  type scalar = v: int | 0 <= v < 0xd800 || 0xe000 <= v <= 0x10ffff

  function Encode(v: scalar): (r: bytes)
    ensures 1 <= |r| <= 4
  {
    if v < 0x80 then [v]
    else if v < 0x800 then [0xc0 + v / 64, 0x80 + v % 64]
    else if v < 0x1_0000 then [0xe0 + v / 4096, 0x80 + v / 64 % 64, 0x80 + v % 64]
    else [0xf0 + v / 262144, 0x80 + v / 4096 % 64, 0x80 + v / 64 % 64, 0x80 + v % 64]
  }

  function EncodeAll(vs: seq<scalar>): bytes {
    if vs == [] then [] else Encode(vs[0]) + EncodeAll(vs[1..])
  }

  function Units(v: scalar): seq<u16> {
    if v < 0x1_0000 then [v] else [0xd800 + (v - 0x1_0000) / 1024, 0xdc00 + (v - 0x1_0000) % 1024]
  }

  function UnitsAll(vs: seq<scalar>): seq<u16> {
    if vs == [] then [] else Units(vs[0]) + UnitsAll(vs[1..])
  }

  function BigEndian(units: seq<u16>): bytes {
    if units == [] then [] else [units[0] / 256, units[0] % 256] + BigEndian(units[1..])
  }

  /** The scalars written at the front of `s`, as far as it is UTF-8. */
  ghost function Decoded(s: bytes): seq<scalar>
    decreases |s|
  {
    if v: scalar :| Encode(v) <= s then [v] + Decoded(s[|Encode(v)|..]) else []
  }

  // The code.

  function TrailingBytes(b: byte): nat {
    if b < 0xc0 then 0 else if b < 0xe0 then 1 else if b < 0xf0 then 2 else if b < 0xf8 then 3 else if b < 0xfc then 4
        else 5
  }

  /** isLegalUTF8, of a sequence whose length its first byte announces. */
  function IsLegal(c: bytes): bool {
    && 1 <= |c| <= 4
    && (|c| == 4 ==> 0x80 <= c[3] <= 0xbf)
    && (|c| >= 3 ==> 0x80 <= c[2] <= 0xbf)
    && (|c| >= 2 ==> c[1] <= 0xbf && match c[0] {
          case 0xe0 => c[1] >= 0xa0
          case 0xed => c[1] <= 0x9f
          case 0xf0 => c[1] >= 0x90
          case 0xf4 => c[1] <= 0x8f
          case _ => c[1] >= 0x80
        })
    && !(0x80 <= c[0] < 0xc2)
    && c[0] <= 0xf4
  }

  const OffsetsFromUtf8: seq<word> := [0, 0x3080, 0xe2080, 0x3c82080]

  /** The sum of the fall-through switch, in unsigned 32-bit arithmetic. */
  function Accumulated(c: bytes): word {
    if c == [] then 0
    else (Accumulated(c[..|c| - 1]) * 64 + c[|c| - 1]) % 0x1_0000_0000
  }

  function Htons(x: u16): u16 {
    x % 256 * 256 + x / 256
  }

  /** The char16_t values pushed for the computed character. */
  function Pushed(ch: word): seq<u16> {
    if ch <= 0xffff then [Htons(if 0xd800 <= ch <= 0xdfff then 32 else ch)]
    else if ch > 0x10ffff then [Htons(32)]
    else
      var low := ch - 0x1_0000;
      [Htons(low / 1024 + 0xd800), Htons(low % 1024 + 0xdc00)]
  }

  /** How a little-endian machine keeps the string in memory. */
  function Memory(s: seq<u16>): bytes {
    if s == [] then [] else [s[0] % 256, s[0] / 256] + Memory(s[1..])
  }

  method FallThrough(s: bytes, source: nat, extra: nat) returns (ch: word, after: nat)
    requires extra <= 3 && source + extra < |s|
    ensures after == source + extra + 1
    ensures ch == Accumulated(s[source..after])
  {
    ch, after := 0, source;
    assert s[source..after] == [];
    while after < source + extra
      invariant source <= after <= source + extra
      invariant ch == if after == source then 0 else Accumulated(s[source..after]) * 64 % 0x1_0000_0000
    {
      ch := (ch + s[after]) % 0x1_0000_0000;
      SumStep(s, source, after);
      after := after + 1;
      ch := ch * 64 % 0x1_0000_0000;
    }
    SumStep(s, source, after);
    ch := (ch + s[after]) % 0x1_0000_0000;
    after := after + 1;
  }

  lemma {:induction false} SumStep(s: bytes, source: nat, after: nat)
    requires source <= after < |s|
    ensures Accumulated(s[source..after + 1])
         == ((if after == source then 0 else Accumulated(s[source..after]) * 64 % 0x1_0000_0000)
             + s[after]) % 0x1_0000_0000
  {
    var c := s[source..after + 1];
    assert c[..|c| - 1] == s[source..after] && c[|c| - 1] == s[after];
  }

  /** The scalars the converter takes out of `s`, sequence by sequence, until one is cut off or refused. */
  ghost function Accepted(s: bytes): seq<scalar>
    decreases |s|
  {
    if !LegalFront(s) then []
    else
      LegalValue(Front(s));
      [Value(Front(s))] + Accepted(s[|Front(s)|..])
  }

  /** As many bytes as the first one announces, if there are so many. */
  function Front(s: bytes): bytes {
    if s == [] then [] else if TrailingBytes(s[0]) < |s| then s[..TrailingBytes(s[0]) + 1] else []
  }

  predicate LegalFront(s: bytes) {
    IsLegal(Front(s))
  }

  /** The second byte of a sequence that starts with ED or F4 is only checked from above. */
  predicate Lax(c: bytes) {
    |c| >= 2 && (c[0] == 0xed || c[0] == 0xf4) && c[1] < 0x80
  }

  /** The converter: whatever its input, it yields the UTF-16 of the scalars it accepts. */
  method Utf8ToRawBEUtf16(s: bytes) returns (utf16: seq<u16>)
    ensures Memory(utf16) == BigEndian(UnitsAll(Accepted(s)))
  {
    utf16 := [];
    var source := 0;
    assert s[0..] == s;
    assert Memory([]) == [];
    while source < |s|
      invariant 0 <= source <= |s|
      invariant Memory(utf16) + BigEndian(UnitsAll(Accepted(s[source..]))) == BigEndian(UnitsAll(Accepted(s)))
    {
      var more;
      more, source, utf16 := ConvertOne(s, source, utf16);
      if !more {
        return;
      }
    }
    NothingMore(s[source..], utf16);
  }

  /** One turn of the loop: a sequence is converted, or the conversion ends here. */
  method ConvertOne(s: bytes, source: nat, utf16: seq<u16>) returns (more: bool, after: nat, out: seq<u16>)
    requires source < |s|
    ensures more ==> source < after <= |s|
                     && Memory(out) + BigEndian(UnitsAll(Accepted(s[after..])))
                        == Memory(utf16) + BigEndian(UnitsAll(Accepted(s[source..])))
    ensures !more ==> Memory(out) == Memory(utf16) + BigEndian(UnitsAll(Accepted(s[source..])))
  {
    var ch;
    more, ch, after := TakeSequence(s, source);
    ghost var rest := s[source..];
    if !more {
      NothingMore(rest, utf16);
      return false, source, utf16;
    }
    Taken(rest, s[after..], utf16);
    out := utf16 + Pushed(ch);
  }

  lemma {:induction false} NothingMore(rest: bytes, utf16: seq<u16>)
    requires !LegalFront(rest)
    ensures Memory(utf16) + BigEndian(UnitsAll(Accepted(rest))) == Memory(utf16)
  {
  }

  /** One round of the loop: the character of the sequence at `source`, or the decision to stop there. */
  method TakeSequence(s: bytes, source: nat) returns (more: bool, ch: word, after: nat)
    requires source < |s|
    ensures more == LegalFront(s[source..])
    ensures more ==> source < after == source + |Front(s[source..])| <= |s| && ch == Value(Front(s[source..]))
  {
    more, ch, after := false, 0, source;
    var extra := TrailingBytes(s[source]);
    FrontAt(s, source);
    if source + extra >= |s| {
      return;
    }
    if !IsLegal(s[source..source + extra + 1]) {
      return;
    }
    AccumulatedIs(s[source..source + extra + 1]);
    ch, after := FallThrough(s, source, extra);
    ch := (ch - OffsetsFromUtf8[extra]) % 0x1_0000_0000;
    more := true;
  }

  lemma {:induction false} FrontAt(s: bytes, source: nat)
    requires source < |s|
    ensures var extra := TrailingBytes(s[source]);
            Front(s[source..]) == if source + extra < |s| then s[source..source + extra + 1] else []
  {
  }

  lemma {:induction false} Taken(rest: bytes, behind: bytes, utf16: seq<u16>)
    requires LegalFront(rest) && behind == rest[|Front(rest)|..]
    ensures 0 <= Value(Front(rest)) < 0x11_0000
    ensures Memory(utf16 + Pushed(Value(Front(rest)))) + BigEndian(UnitsAll(Accepted(behind)))
              == Memory(utf16) + BigEndian(UnitsAll(Accepted(rest)))
  {
    LegalValue(Front(rest));
    PushedUnits(utf16, Value(Front(rest)), Accepted(behind));
  }

  /** The scalar value of a legal sequence: the payload bits of its bytes. */
  function Value(c: bytes): int {
    match |c|
    case 1 => c[0]
    case 2 => ValueOf(0, 0, Less(c[0], 0xc0), Less(c[1], 0x80))
    case 3 => ValueOf(0, Less(c[0], 0xe0), Less(c[1], 0x80), Less(c[2], 0x80))
    case 4 => ValueOf(Less(c[0], 0xf0), Less(c[1], 0x80), Less(c[2], 0x80), Less(c[3], 0x80))
    case _ => 0
  }

  function Less(b: int, mark: int): int {
    b - mark
  }

  function ValueOf(a: int, b: int, c: int, d: int): int {
    ((a * 64 + b) * 64 + c) * 64 + d
  }

  lemma {:induction false} Digits(v: int, a: int, b: int, c: int, d: int)
    requires 0 <= b < 64 && 0 <= c < 64 && 0 <= d < 64 && 0 <= a
    requires v == ValueOf(a, b, c, d)
    ensures v % 64 == d && v / 64 == (a * 64 + b) * 64 + c
    ensures v / 64 % 64 == c && v / 4096 == a * 64 + b
    ensures v / 4096 % 64 == b && v / 262144 == a
  {
  }

  /** What isLegalUTF8 accepts always has a scalar for its value, so the spaces for surrogates are never pushed. */
  lemma {:induction false} LegalValue(c: bytes)
    requires IsLegal(c) && |c| == TrailingBytes(c[0]) + 1
    ensures var v := Value(c);
            0 <= v < 0xd800 || 0xe000 <= v <= 0x10ffff
  {
  }

  /** What isLegalUTF8 accepts is the encoding of a scalar value, but for the lax second byte. */
  lemma {:induction false} LegalIsEncoding(c: bytes)
    requires IsLegal(c) && |c| == TrailingBytes(c[0]) + 1 && !Lax(c)
    ensures var v := Value(c);
            (0 <= v < 0xd800 || 0xe000 <= v <= 0x10ffff) && Encode(v) == c
  {
    if |c| == 2 {
      Digits(Value(c), 0, 0, Less(c[0], 0xc0), Less(c[1], 0x80));
    } else if |c| == 3 {
      LegalThree(c);
    } else if |c| == 4 {
      LegalFour(c);
    }
  }

  lemma {:induction false} LegalThree(c: bytes)
    requires |c| == 3 == TrailingBytes(c[0]) + 1 && IsLegal(c) && !Lax(c)
    ensures var v := Value(c);
            (0x800 <= v < 0xd800 || 0xe000 <= v <= 0xffff) && Encode(v) == c
  {
    var a, b, d: int := Less(c[0], 0xe0), Less(c[1], 0x80), Less(c[2], 0x80);
    Digits(Value(c), 0, a, b, d);
    assert a == 0 ==> b >= 32;
    assert a == 13 ==> b < 32;
  }

  lemma {:induction false} LegalFour(c: bytes)
    requires |c| == 4 == TrailingBytes(c[0]) + 1 && IsLegal(c) && !Lax(c)
    ensures var v := Value(c);
            0x1_0000 <= v <= 0x10ffff && Encode(v) == c
  {
    var a, b, d, e: int := Less(c[0], 0xf0), Less(c[1], 0x80), Less(c[2], 0x80), Less(c[3], 0x80);
    Digits(Value(c), a, b, d, e);
    assert a == 0 ==> b >= 16;
    assert a == 4 ==> b < 16;
  }

  /** The encoding of a scalar value announces its own length, is accepted, and has that value. */
  lemma {:induction false} EncodingIsLegal(v: scalar)
    ensures var c := Encode(v);
            |c| == TrailingBytes(c[0]) + 1 && IsLegal(c) && !Lax(c) && Value(c) == v
  {
    Digits(v, v / 262144, v / 4096 % 64, v / 64 % 64, v % 64);
  }

  lemma {:induction false} AccumulatedIs(c: bytes)
    requires IsLegal(c) && |c| == TrailingBytes(c[0]) + 1
    ensures (Accumulated(c) - OffsetsFromUtf8[|c| - 1]) % 0x1_0000_0000 == Value(c)
  {
    LegalValue(c);
    AccumulatedSum(c);
  }

  /** Four bytes never carry the sum over 2^32. */
  lemma {:induction false} AccumulatedSum(c: bytes)
    requires 1 <= |c| <= 4
    ensures |c| == 1 ==> Accumulated(c) == c[0]
    ensures |c| == 2 ==> Accumulated(c) == ValueOf(0, 0, c[0], c[1])
    ensures |c| == 3 ==> Accumulated(c) == ValueOf(0, c[0], c[1], c[2])
    ensures |c| == 4 ==> Accumulated(c) == ValueOf(c[0], c[1], c[2], c[3])
    decreases |c|
  {
    AccumulatedStep(c);
    if |c| > 1 {
      var front := c[..|c| - 1];
      AccumulatedSum(front);
      assert forall i :: 0 <= i < |front| ==> front[i] == c[i];
      NoWrap(Accumulated(front), c[|c| - 1]);
    }
  }

  lemma {:induction false} NoWrap(v: nat, b: byte)
    requires v < 0x100_0000
    ensures (v * 64 + b) % 0x1_0000_0000 == v * 64 + b
  {
  }

  lemma {:induction false} AccumulatedStep(c: bytes)
    requires c != []
    ensures Accumulated(c) == (Accumulated(c[..|c| - 1]) * 64 + c[|c| - 1]) % 0x1_0000_0000
    ensures |c| == 1 ==> Accumulated(c) == c[0]
  {
    assert |c| == 1 ==> c[..0] == [];
  }

  /** At most one scalar is written at the front of a byte string: no encoding is a prefix of another. */
  lemma {:induction false} FrontIsUnique(s: bytes, v: scalar)
    requires Encode(v) <= s
    ensures Front(s) == Encode(v) && LegalFront(s) && !Lax(Front(s)) && v == Value(Front(s))
  {
    EncodingIsLegal(v);
    assert s[..|Encode(v)|] == Encode(v);
  }

  lemma {:induction false} DecodedFront(s: bytes, v: scalar)
    requires Encode(v) <= s
    ensures Decoded(s) == [v] + Decoded(s[|Encode(v)|..])
  {
    FrontIsUnique(s, v);
    forall w: scalar | Encode(w) <= s ensures w == v {
      FrontIsUnique(s, w);
    }
  }

  /** The code agrees with the reference on every scalar written at the front. */
  lemma {:induction false} AcceptedFront(s: bytes, v: scalar)
    requires Encode(v) <= s
    ensures Accepted(s) == [v] + Accepted(s[|Encode(v)|..])
  {
    FrontIsUnique(s, v);
  }

  /** Where no scalar is written, the code stops, or takes a lax sequence for one. */
  lemma {:induction false} AcceptedWrongly(s: bytes)
    requires forall v: scalar :: !(Encode(v) <= s)
    ensures Decoded(s) == [] && (Accepted(s) == [] <==> !LegalFront(s)) && (LegalFront(s) ==> Lax(Front(s)))
  {
    if LegalFront(s) && !Lax(Front(s)) {
      LegalIsEncoding(Front(s));
    }
  }

  lemma {:induction false} MemoryAppend(a: seq<u16>, b: seq<u16>)
    ensures Memory(a + b) == Memory(a) + Memory(b)
  {
    if a == [] {
      assert a + b == b;
    } else {
      assert (a + b)[1..] == a[1..] + b;
      MemoryAppend(a[1..], b);
    }
  }

  lemma {:induction false} BigEndianAppend(a: seq<u16>, b: seq<u16>)
    ensures BigEndian(a + b) == BigEndian(a) + BigEndian(b)
  {
    if a == [] {
      assert a + b == b;
    } else {
      assert (a + b)[1..] == a[1..] + b;
      BigEndianAppend(a[1..], b);
    }
  }

  /** A swapped unit lies in memory with its high byte first. */
  lemma {:induction false} Swapped(x: u16)
    ensures Htons(x) % 256 == x / 256 && Htons(x) / 256 == x % 256
  {
  }

  lemma {:induction false} PushedUnits(utf16: seq<u16>, v: scalar, rest: seq<scalar>)
    ensures Memory(utf16 + Pushed(v)) + BigEndian(UnitsAll(rest)) == Memory(utf16) + BigEndian(UnitsAll([v] + rest))
  {
    MemoryAppend(utf16, Pushed(v));
    BigEndianAppend(Units(v), UnitsAll(rest));
    assert ([v] + rest)[1..] == rest;
    PushedIs(v);
  }

  lemma {:induction false} PushedIs(v: scalar)
    ensures Memory(Pushed(v)) == BigEndian(Units(v))
  {
    var u := Units(v);
    if v < 0x1_0000 {
      assert Pushed(v) == [Htons(u[0])];
    } else {
      MemoryAppend([Htons(u[0])], [Htons(u[1])]);
      BigEndianAppend([u[0]], [u[1]]);
      assert u == [u[0]] + [u[1]] && Pushed(v) == [Htons(u[0])] + [Htons(u[1])];
      OneUnit(u[1]);
    }
    OneUnit(u[0]);
  }

  lemma {:induction false} OneUnit(x: u16)
    ensures Memory([Htons(x)]) == BigEndian([x])
  {
    Swapped(x);
    assert [Htons(x)][1..] == [] && [x][1..] == [];
  }

  /** Every scalar sequence is decoded from its UTF-8. */
  lemma {:induction false} DecodedEncoded(vs: seq<scalar>)
    ensures Decoded(EncodeAll(vs)) == vs
  {
    if vs == [] {
    } else {
      var v, s := vs[0], EncodeAll(vs);
      assert s[|Encode(v)|..] == EncodeAll(vs[1..]);
      DecodedFront(s, v);
      DecodedEncoded(vs[1..]);
    }
  }

  /** What follows the longest well-formed prefix. */
  ghost function Remaining(s: bytes): bytes
    decreases |s|
  {
    if v: scalar :| Encode(v) <= s then Remaining(s[|Encode(v)|..]) else s
  }

  /** The decoded scalars are the longest well-formed prefix: no scalar is written behind them. */
  lemma {:induction false} DecodedIsLongest(s: bytes, v: scalar)
    ensures s == EncodeAll(Decoded(s)) + Remaining(s) && !(Encode(v) <= Remaining(s))
    decreases |s|
  {
    if w: scalar :| Encode(w) <= s {
      RemainingFront(s, w);
      DecodedFront(s, w);
      DecodedIsLongest(s[|Encode(w)|..], v);
      LongerPrefix(s, w, Decoded(s[|Encode(w)|..]), Remaining(s));
    } else {
      assert Decoded(s) == [] && Remaining(s) == s;
    }
  }

  lemma {:induction false} LongerPrefix(s: bytes, w: scalar, vs: seq<scalar>, rest: bytes)
    requires Encode(w) <= s && s[|Encode(w)|..] == EncodeAll(vs) + rest
    ensures s == EncodeAll([w] + vs) + rest
  {
    assert ([w] + vs)[1..] == vs;
    assert s == Encode(w) + (EncodeAll(vs) + rest);
  }

  lemma {:induction false} RemainingFront(s: bytes, v: scalar)
    requires Encode(v) <= s
    ensures Remaining(s) == Remaining(s[|Encode(v)|..])
  {
    FrontIsUnique(s, v);
    forall w: scalar | Encode(w) <= s ensures w == v {
      FrontIsUnique(s, w);
    }
  }

  /**
   The converter takes exactly the longest well-formed prefix if and only if what follows the prefix is not a
   sequence with a lax second byte.
   */
  lemma {:induction false} AcceptedExactly(s: bytes)
    ensures Accepted(s) == Decoded(s) <==> !(LegalFront(Remaining(s)) && Lax(Front(Remaining(s))))
    decreases |s|
  {
    if v: scalar :| Encode(v) <= s {
      var rest := s[|Encode(v)|..];
      DecodedFront(s, v);
      AcceptedFront(s, v);
      RemainingFront(s, v);
      AcceptedExactly(rest);
      assert Accepted(s)[1..] == Accepted(rest) && Decoded(s)[1..] == Decoded(rest);
    } else {
      AcceptedWrongly(s);
    }
  }

  /** ED 41 80 is not UTF-8, yet the code reads U+C040 from it. */
  lemma {:induction false} LaxExample()
    ensures LegalFront([0xed, 0x41, 0x80]) && Lax(Front([0xed, 0x41, 0x80]))
    ensures Decoded([0xed, 0x41, 0x80]) == [] && Accepted([0xed, 0x41, 0x80]) == [0xc040]
  {
    var s: bytes := [0xed, 0x41, 0x80];
    assert Front(s) == s && s[3..] == [];
    if v: scalar :| Encode(v) <= s {
      FrontIsUnique(s, v);
    }
  }

  /** Well-formed UTF-8 becomes the UTF-16 of its scalars, all of them. */
  method ConvertWellFormed(vs: seq<scalar>) returns (utf16: seq<u16>)
    ensures Memory(utf16) == BigEndian(UnitsAll(vs))
  {
    ghost var s := EncodeAll(vs);
    DecodedEncoded(vs);
    DecodedIsLongest(s, 0);
    AcceptedExactly(s);
    utf16 := Utf8ToRawBEUtf16(EncodeAll(vs));
  }

  // UTF-16 read back.

  /** Section 2.2 of RFC 2781, step by step. */
  function ReadUnits(units: seq<u16>): Option<seq<nat>> {
    if units == [] then Some([])
    else if units[0] < 0xd800 || units[0] > 0xdfff then Ahead(units[0], ReadUnits(units[1..]))
    else if units[0] > 0xdbff || |units| < 2 || !(0xdc00 <= units[1] <= 0xdfff) then None
    else Ahead(Paired(units[0], units[1]), ReadUnits(units[2..]))
  }

  /** The low ten bits of each, and 10000 added. */
  function Paired(high: int, low: int): nat {
    high % 0x400 * 0x400 + low % 0x400 + 0x1_0000
  }

  function Ahead(v: nat, rest: Option<seq<nat>>): Option<seq<nat>> {
    match rest
    case None => None
    case Some(vs) => Some([v] + vs)
  }

  /** The units written are read as the scalars they were made from. */
  lemma {:induction false} UnitsRead(vs: seq<scalar>)
    ensures ReadUnits(UnitsAll(vs)) == Some(vs)
  {
    if vs != [] {
      UnitsRead(vs[1..]);
      OneRead(vs[0], UnitsAll(vs[1..]));
      assert [vs[0] as nat] + vs[1..] == vs;
    }
  }

  lemma {:induction false} OneRead(v: scalar, rest: seq<u16>)
    ensures ReadUnits(Units(v) + rest) == Ahead(v, ReadUnits(rest))
  {
    var units := Units(v) + rest;
    if v < 0x1_0000 {
      assert units[0] == v && units[1..] == rest;
    } else {
      SurrogatesRead(v);
      assert units[0] == Units(v)[0] && units[1] == Units(v)[1] && units[2..] == rest;
    }
  }

  lemma {:induction false} SurrogatesRead(v: scalar)
    requires v >= 0x1_0000
    ensures var u := Units(v); 0xd800 <= u[0] <= 0xdbff && 0xdc00 <= u[1] <= 0xdfff && Paired(u[0], u[1]) == v
  {
    var x: int := v - 0x1_0000;
    var q, r := x / 1024, x % 1024;
    assert (0xd800 + q) % 0x400 == q && (0xdc00 + r) % 0x400 == r;
  }

  /** Examples of section 7 of RFC 3629, and one of section 3. */
  lemma {:induction false} EncodeExamples()
    ensures Encode(0x41) == [0x41] && Encode(0x0391) == [0xce, 0x91]
    ensures Encode(0x2262) == [0xe2, 0x89, 0xa2] && Encode(0x233b4) == [0xf0, 0xa3, 0x8e, 0xb4]
  {
  }
}
