/** Bitwise or and powers of two on naturals. */
module Bits {
  function Pow2(n: nat): (p: nat)
    ensures p > 0
  {
    if n == 0 then 1 else 2 * Pow2(n - 1)
  }

  /** The `|` of C on unsigned values. */
  function BitOr(x: nat, y: nat): (r: nat)
    decreases x + y
  {
    if x == 0 then y
    else if y == 0 then x
    else (if x % 2 == 1 || y % 2 == 1 then 1 else 0) + 2 * BitOr(x / 2, y / 2)
  }

  lemma {:induction false} ModUnique(x: int, m: int, q: int, r: int)
    requires m > 0 && x == q * m + r && 0 <= r < m
    ensures x % m == r && x / m == q
  {
    var d := x / m - q;
    assert d * m == r - x % m;
    assert d >= 1 ==> d * m >= m;
    assert d <= -1 ==> d * m <= -m;
  }

  /** A remainder keeps the digits below `p` and scales with it above. */
  lemma {:induction false} ModScale(x: nat, y: nat, p: nat, q: nat)
    requires p > 0 && q > 0 && x < p
    ensures p * q > 0 && (x + y * p) % (p * q) == x + (y % q) * p
  {
    var d, r := y / q, y % q;
    assert p * q > 0;
    assert y * p == (d * q + r) * p == d * (p * q) + r * p;
    assert x + r * p < p + r * p == (r + 1) * p;
    assert (r + 1) * p <= q * p;
    ModUnique(x + y * p, p * q, d, x + r * p);
  }

  /** Values that share no bit position add up. */
  lemma {:induction false} OrDisjoint(x: nat, y: nat, k: nat)
    requires x < Pow2(k)
    ensures BitOr(x, y * Pow2(k)) == x + y * Pow2(k)
  {
    if k == 0 || x == 0 || y == 0 {
    } else {
      var p := Pow2(k - 1);
      var z := y * Pow2(k);
      assert z == 2 * (y * p);
      assert z % 2 == 0 && z / 2 == y * p;
      OrDisjoint(x / 2, y, k - 1);
      assert z > 0;
    }
  }

  lemma {:induction false} PowAdd(a: nat, b: nat)
    ensures Pow2(a + b) == Pow2(a) * Pow2(b)
  {
    if a == 0 {
    } else {
      PowAdd(a - 1, b);
      assert 2 * (Pow2(a - 1) * Pow2(b)) == (2 * Pow2(a - 1)) * Pow2(b);
    }
  }

  /** `value | (digit << shift)` in `width` bits, when the value lies below the shift. */
  lemma {:induction false} OrShifted(value: nat, digit: nat, shift: nat, width: nat)
    requires shift <= width && value < Pow2(shift)
    ensures BitOr(value, (digit * Pow2(shift)) % Pow2(width)) == (value + digit * Pow2(shift)) % Pow2(width)
  {
    var p, q := Pow2(shift), Pow2(width - shift);
    PowAdd(shift, width - shift);
    ModScale(0, digit, p, q);
    ModScale(value, digit, p, q);
    OrDisjoint(value, digit % q, shift);
  }

  /** Multiples of the modulus do not matter. */
  lemma {:induction false} ModShift(x: nat, a: nat, m: nat)
    requires m > 0
    ensures (x + a * m) % m == x % m && (a * m) % m == 0
  {
    assert x + a * m == (x / m + a) * m + x % m;
    ModUnique(x + a * m, m, x / m + a, x % m);
    ModUnique(a * m, m, a, 0);
  }

  lemma {:induction false} FactorAtMost(p: nat, q: nat)
    requires q > 0
    ensures p <= p * q
  {
  }

  /** The same at any shift: in a word of `width` bits, bits shifted out beyond it are gone. */
  lemma {:induction false} OrWord(value: nat, digit: nat, shift: nat, width: nat)
    requires value < Pow2(shift)
    ensures BitOr(value % Pow2(width), (digit * Pow2(shift)) % Pow2(width))
            == (value + digit * Pow2(shift)) % Pow2(width)
  {
    if shift <= width {
      PowAdd(shift, width - shift);
      FactorAtMost(Pow2(shift), Pow2(width - shift));
      ModUnique(value, Pow2(width), 0, value);
      OrShifted(value, digit, shift, width);
    } else {
      OrBeyond(value, digit, shift, width);
    }
  }

  lemma {:induction false} OrBeyond(value: nat, digit: nat, shift: nat, width: nat)
    requires shift > width
    ensures (digit * Pow2(shift)) % Pow2(width) == 0
    ensures (value + digit * Pow2(shift)) % Pow2(width) == value % Pow2(width)
  {
    PowAdd(width, shift - width);
    ModMultiple(value, digit, Pow2(width), Pow2(shift - width));
  }

  lemma {:induction false} ModMultiple(x: nat, d: nat, m: nat, q: nat)
    requires m > 0
    ensures (d * (m * q)) % m == 0 && (x + d * (m * q)) % m == x % m
  {
    assert d * (m * q) == (d * q) * m;
    ModShift(x, d * q, m);
  }

  lemma {:induction false} PowDouble(n: nat, p: nat)
    requires Pow2(n) == p
    ensures Pow2(2 * n) == p * p
  {
    PowAdd(n, n);
  }

  lemma {:induction false} Pow64()
    ensures Pow2(64) == 0x1_0000_0000_0000_0000 && Pow2(32) == 0x1_0000_0000
  {
    PowDouble(8, 256);
    PowDouble(16, 65536);
    PowDouble(32, 0x1_0000_0000);
  }

  lemma {:induction false} SmallPowers()
    ensures Pow2(6) == 64 && Pow2(8) == 0x100 && Pow2(16) == 0x1_0000 && Pow2(24) == 0x100_0000
  {
    PowDouble(8, 0x100);
    PowAdd(16, 8);
  }

  lemma {:induction false} OrAbove(x: nat, y: nat, k: nat, p: nat)
    requires Pow2(k) == p && x < p
    ensures BitOr(x, p * y) == x + p * y
  {
    OrDisjoint(x, y, k);
    assert p * y == y * p;
  }
}
