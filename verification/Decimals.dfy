/** Decimal numbers as text, and strtoul. */
module Decimals {
  type uint = x: int | 0 <= x < 0x1_0000_0000
  type int32 = x: int | -0x8000_0000 <= x < 0x8000_0000

  function Digit(d: nat): char
    requires d < 10
  {
    '0' + d as char
  }

  function Decimal(n: nat): (s: string)
    ensures s != [] && forall c <- s :: '0' <= c <= '9'
  {
    if n < 10 then [Digit(n)] else Decimal(n / 10) + [Digit(n % 10)]
  }

  function DecimalInt(n: int): string {
    if n < 0 then "-" + Decimal(0 - n) else Decimal(n)
  }

  function Scan(s: string, acc: nat): nat {
    if s == [] || !('0' <= s[0] <= '9') then acc else Scan(s[1..], 10 * acc + (s[0] - '0') as int)
  }

  /** strtoul(s, NULL, 10) with a 32-bit unsigned long. */
  function Strtoul(s: string): uint {
    if s == [] then 0
    else if s[0] == ' ' || '\t' <= s[0] <= '\r' then Strtoul(s[1..])
    else
      var value := Scan(if s[0] == '-' || s[0] == '+' then s[1..] else s, 0);
      if value >= 0x1_0000_0000 then 0xffff_ffff else if s[0] == '-' then (0 - value) % 0x1_0000_0000 else value
  }

  function Signed(x: uint): int32 {
    if x < 0x8000_0000 then x else x - 0x1_0000_0000
  }

  lemma {:induction false} ScanSnoc(s: string, d: nat, acc: nat)
    requires d < 10 && forall c <- s :: '0' <= c <= '9'
    ensures Scan(s + [Digit(d)], acc) == 10 * Scan(s, acc) + d
    decreases |s|
  {
    if s == [] {
      assert (s + [Digit(d)])[1..] == [];
    } else {
      assert s[0] in s && (s + [Digit(d)])[1..] == s[1..] + [Digit(d)];
      assert forall c <- s[1..] :: c in s;
      ScanSnoc(s[1..], d, 10 * acc + (s[0] - '0') as int);
    }
  }

  lemma {:induction false} ScanDecimal(n: nat)
    ensures Scan(Decimal(n), 0) == n
  {
    if n < 10 {
      assert [Digit(n)][1..] == [];
    } else {
      ScanDecimal(n / 10);
      ScanSnoc(Decimal(n / 10), n % 10, 0);
    }
  }

  /** Numbers come back from their text, negative ones too. */
  lemma {:induction false} NumberRead(n: int)
    requires -0x8000_0000 <= n < 0x1_0000_0000
    ensures Strtoul(DecimalInt(n)) == n % 0x1_0000_0000
    ensures n < 0x8000_0000 ==> Signed(Strtoul(DecimalInt(n))) == n
  {
    var m := if n < 0 then 0 - n else n;
    ScanDecimal(m);
    var d := Decimal(m);
    assert d[0] in d;
    if n < 0 {
      assert DecimalInt(n)[1..] == d;
    }
  }

  lemma {:induction false} DecimalInts(n: int)
    ensures DecimalInt(n) != [] && forall c <- DecimalInt(n) :: c == '-' || '0' <= c <= '9'
  {
  }

  lemma {:induction false} DigitsWritten(d: nat)
    requires d < 10
    ensures Decimal(d) == ["0123456789"[d]] && DecimalInt(-907) == "-907"
  {
    assert Decimal(9) == "9" && Decimal(90) == "90";
  }
}
