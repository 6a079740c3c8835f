/** The arc4 stream of arc4random.c, and the unbiased reduction of its words. */
module Arc4 {
  import opened Options
  import opened Bytes
  import opened Bits

  datatype Stream = Stream(i: byte, j: byte, s: seq<byte>)

  function Swap(s: seq<byte>, a: byte, b: byte): seq<byte>
    requires |s| == 256
  {
    s[a := s[b]][b := s[a]]
  }

  function Identity(n: nat): (r: seq<byte>)
    requires n <= 256
    ensures |r| == n
  {
    if n == 0 then [] else Identity(n - 1) + [n - 1]
  }

  const Fresh := Stream(0, 0, Identity(256))

  /** One round of arc4_addrandom with the byte `d`. */
  function Mixed(st: Stream, d: byte): (r: Stream)
    requires |st.s| == 256
    ensures |r.s| == 256
  {
    var i: byte := (st.i as int + 1) % 256;
    var j: byte := (st.j as int + st.s[i] as int + d as int) % 256;
    Stream(i, j, Swap(st.s, i, j))
  }

  function KeyByte(dat: bytes, n: nat): byte
    requires dat != []
  {
    dat[n % |dat|]
  }

  function MixedAll(st: Stream, dat: bytes, n: nat): (r: Stream)
    requires |st.s| == 256 && dat != []
    ensures |r.s| == 256
  {
    if n == 0 then st else Mixed(MixedAll(st, dat, n - 1), KeyByte(dat, n - 1))
  }

  function Reseeded(st: Stream, dat: bytes): (r: Stream)
    requires |st.s| == 256 && dat != []
    ensures |r.s| == 256
  {
    var mixed := MixedAll(st.(i := (st.i as int + 255) % 256), dat, 256);
    mixed.(j := mixed.i)
  }

  /** arc4_getbyte: the next state and the byte drawn. */
  function Next(st: Stream): (r: (Stream, byte))
    requires |st.s| == 256
    ensures |r.0.s| == 256
  {
    var st' := Mixed(st, 0);
    (st', st'.s[(st'.s[st'.i] as int + st'.s[st'.j] as int) % 256])
  }

  class Generator {
    var i: byte
    var j: byte
    const s: array<byte>

    ghost predicate Valid() {
      s.Length == 256
    }

    ghost function Value(): Stream
      reads this, s
    {
      Stream(i, j, s[..])
    }

    constructor ()
      ensures Valid() && fresh(s)
    {
      s := new byte[256];
      i, j := 0, 0;
    }

    method Init()
      requires Valid()
      modifies this, s
      ensures Value() == Fresh
    {
      var n := 0;
      while n < 256
        invariant 0 <= n <= 256
        invariant s[..n] == Identity(n)
      {
        s[n] := n;
        n := n + 1;
      }
      i, j := 0, 0;
      assert s[..] == s[..256];
    }

    method AddRandom(dat: bytes)
      requires Valid() && dat != []
      modifies this, s
      ensures Value() == Reseeded(old(Value()), dat)
    {
      i := (i as int - 1) % 256;
      ghost var start := Value();
      var n := 0;
      while n < 256
        invariant 0 <= n <= 256
        invariant Value() == MixedAll(start, dat, n)
      {
        MixIn(KeyByte(dat, n));
        n := n + 1;
      }
      j := i;
    }

    method MixIn(d: byte)
      requires Valid()
      modifies this, s
      ensures Value() == Mixed(old(Value()), d)
    {
      i := (i as int + 1) % 256;
      var si := s[i];
      j := (j as int + si as int + d as int) % 256;
      s[i] := s[j];
      s[j] := si;
    }

    method GetByte() returns (b: byte)
      requires Valid()
      modifies this, s
      ensures (Value(), b) == Next(old(Value()))
    {
      i := (i as int + 1) % 256;
      var si := s[i];
      j := (j as int + si as int) % 256;
      var sj := s[j];
      s[i] := sj;
      s[j] := si;
      b := s[(si as int + sj as int) % 256];
    }
  }

  /** Every value of a byte occurs exactly once. */
  ghost predicate Permutation(s: seq<byte>) {
    |s| == 256 && forall v: byte :: multiset(s)[v] == 1
  }

  lemma {:induction false} IdentityCounts(n: nat, v: byte)
    requires n <= 256
    ensures multiset(Identity(n))[v] == if v < n then 1 else 0
  {
    if n > 0 {
      IdentityCounts(n - 1, v);
    }
  }

  lemma {:induction false} SwapKeeps(s: seq<byte>, a: byte, b: byte)
    requires |s| == 256
    ensures |Swap(s, a, b)| == 256 && multiset(Swap(s, a, b)) == multiset(s)
  {
  }

  datatype Step = Init | AddRandom(dat: bytes) | GetByte

  function Run(st: Stream, steps: seq<Step>): Stream
    requires |st.s| == 256
    decreases steps
  {
    if steps == [] then st
    else
      var st' := match steps[0]
        case Init => Fresh
        case AddRandom(dat) => if dat == [] then st else Reseeded(st, dat)
        case GetByte => Next(st).0;
      Run(st', steps[1..])
  }

  lemma {:induction false} MixedAllKeeps(st: Stream, dat: bytes, n: nat)
    requires Permutation(st.s) && dat != []
    ensures Permutation(MixedAll(st, dat, n).s)
  {
    if n > 0 {
      MixedAllKeeps(st, dat, n - 1);
      MixedKeeps(MixedAll(st, dat, n - 1), KeyByte(dat, n - 1), MixedAll(st, dat, n));
    }
  }

  lemma {:induction false} MixedKeeps(st: Stream, d: byte, after: Stream)
    requires Permutation(st.s) && after == Mixed(st, d)
    ensures Permutation(after.s)
  {
    SwapKeeps(st.s, after.i, after.j);
  }

  /** After every sequence of operations the table is still a permutation of the 256 byte values. */
  lemma {:induction false} RunKeepsPermutation(st: Stream, steps: seq<Step>)
    requires Permutation(st.s)
    ensures Permutation(Run(st, steps).s)
    decreases steps
  {
    if steps != [] {
      match steps[0] {
        case Init =>
          FreshPermutation();
          RunKeepsPermutation(Fresh, steps[1..]);
        case AddRandom(dat) =>
          if dat != [] {
            MixedAllKeeps(st.(i := (st.i as int + 255) % 256), dat, 256);
            RunKeepsPermutation(Reseeded(st, dat), steps[1..]);
          } else {
            RunKeepsPermutation(st, steps[1..]);
          }
        case GetByte =>
          MixedKeeps(st, 0, Next(st).0);
          RunKeepsPermutation(Next(st).0, steps[1..]);
      }
    }
  }

  lemma {:induction false} FreshPermutation()
    ensures Permutation(Fresh.s)
  {
    forall v: byte ensures multiset(Identity(256))[v] == 1 {
      IdentityCounts(256, v);
    }
  }

  /** No two states step to the same one: a drawn byte never loses state. */
  lemma {:induction false} NextIsInjective(a: Stream, b: Stream)
    requires |a.s| == 256 && |b.s| == 256 && Next(a).0 == Next(b).0
    ensures a == b
  {
    Undone(a);
    Undone(b);
  }

  function Undo(st: Stream): Stream
    requires |st.s| == 256
  {
    var j: byte := (st.j as int - st.s[st.j] as int) % 256;
    Stream((st.i as int + 255) % 256, j, Swap(st.s, st.i, st.j))
  }

  lemma {:induction false} Undone(st: Stream)
    requires |st.s| == 256
    ensures Undo(Next(st).0) == st
  {
    var st' := Next(st).0;
    SwapBack(st.s, st'.i, st'.j);
    StepBack(st.i, st.j, st.s[st'.i]);
  }

  lemma {:induction false} SwapBack(s: seq<byte>, a: byte, b: byte)
    requires |s| == 256
    ensures Swap(Swap(s, a, b), a, b) == s && Swap(s, a, b)[b] == s[a]
  {
  }

  lemma {:induction false} StepBack(i: byte, j: byte, x: byte)
    ensures ((i as int + 1) % 256 + 255) % 256 == i as int && ((j as int + x as int) % 256 - x as int) % 256 == j as int
  {
  }

  // arc4random_uniform

  type word = x: int | 0 <= x < 0x1_0000_0000

  const Words := 0x1_0000_0000

  /** The code's 2^32 mod bound, in 32-bit arithmetic. */
  method Threshold(bound: word) returns (min: word)
    requires bound >= 2
    ensures min == Words % bound
  {
    if bound > 0x8000_0000 {
      ComplementIs(bound);
      min := (1 + (0xffff_ffff - bound as int)) % 0x1_0000_0000;
    } else {
      LessTwice(bound);
      var twice: word := bound as int * 2 % 0x1_0000_0000;
      var x: word := (0xffff_ffff - twice as int + 1) % 0x1_0000_0000;
      min := x % bound;
    }
  }

  lemma {:induction false} ComplementIs(bound: word)
    requires bound > 0x8000_0000
    ensures (1 + (0xffff_ffff - bound as int)) % 0x1_0000_0000 == Words % bound
  {
    ModUnique(Words, bound, 1, Words - bound);
  }

  lemma {:induction false} LessTwice(bound: word)
    requires 2 <= bound <= 0x8000_0000
    ensures var twice := bound as int * 2 % 0x1_0000_0000;
            (0xffff_ffff - twice + 1) % 0x1_0000_0000 % bound == Words % bound
  {
    var b: int := bound;
    if b == 0x8000_0000 {
      ModUnique(Words, b, 2, 0);
    } else {
      var x := Words - 2 * b;
      ModUnique(0xffff_ffff - b * 2 + 1, 0x1_0000_0000, 0, x);
      ModShift(x, 2, b);
    }
  }

  /** The first of the drawn words that is accepted, reduced; no result while all of them were rejected. */
  method Uniform(bound: word, draws: seq<word>) returns (r: Option<word>, used: nat)
    ensures bound < 2 ==> r == Some(0) && used == 0
    ensures bound >= 2 && r.Some? ==>
              0 < used <= |draws| && draws[used - 1] >= Words % bound
              && r.value == draws[used - 1] % bound < bound
    ensures bound >= 2 ==> forall k :: 0 <= k < (if r.Some? then used - 1 else |draws|) ==> draws[k] < Words % bound
  {
    if bound < 2 {
      return Some(0), 0;
    }
    var min := Threshold(bound);
    used := 0;
    while used < |draws|
      invariant 0 <= used <= |draws|
      invariant forall k :: 0 <= k < used ==> draws[k] < min
    {
      var x := draws[used];
      used := used + 1;
      if x >= min {
        return Some(x % bound), used;
      }
    }
    r := None;
  }

  predicate Between(lo: int, w: int, hi: int) {
    lo <= w < hi
  }

  function Range(lo: int, hi: int): set<int> {
    set w: int | lo <= w < hi && Between(lo, w, hi)
  }

  /** More than half of all words are accepted. */
  lemma {:induction false} AcceptsMoreThanHalf(bound: word)
    requires bound >= 2
    ensures |Range(Words % bound, Words)| > Words / 2
  {
    var min := Words % bound;
    if bound > Words / 2 {
      ModUnique(Words, bound, 1, Words - bound);
    }
    RangeSize(min, Words - min);
  }

  lemma {:induction false} RangeSize(lo: int, n: nat)
    ensures |Range(lo, lo + n)| == n
  {
    if n > 0 {
      RangeSize(lo, n - 1);
      RangeMore(lo, lo + n - 1);
    }
  }

  lemma {:induction false} RangeMore(lo: int, hi: int)
    requires lo <= hi
    ensures hi !in Range(lo, hi) && Range(lo, hi + 1) == Range(lo, hi) + {hi}
  {
    assert Between(lo, hi, hi + 1);
  }

  /** The words from `lo` below `hi` that are reduced to `k`. */
  function Reduced(lo: int, hi: int, bound: nat, k: nat): set<int>
    requires bound > 0
  {
    set w: int | lo <= w < hi && w % bound == k
  }

  /** Every residue is the result of the same number of accepted words. */
  lemma {:induction false} EveryResidueEqually(bound: word, k: nat)
    requires bound >= 2 && k < bound
    ensures |Reduced(Words % bound, Words, bound, k)| == Words / bound
  {
    var lo, n := Words % bound, Words / bound;
    assert Words == lo + n * bound;
    ResidueCount(lo, n, bound, k);
  }

  lemma {:induction false} ResidueCount(lo: nat, n: nat, bound: nat, k: nat)
    requires k < bound
    ensures |Reduced(lo, lo + n * bound, bound, k)| == n
  {
    if n > 0 {
      ResidueCount(lo, n - 1, bound, k);
      var middle := lo + (n - 1) * bound;
      assert lo + n * bound == middle + bound && (n - 1) * bound >= 0;
      OneMore(lo, middle, bound, k);
    }
  }

  lemma {:induction false} OneMore(lo: nat, middle: nat, bound: nat, k: nat)
    requires k < bound && lo <= middle
    ensures |Reduced(lo, middle + bound, bound, k)| == |Reduced(lo, middle, bound, k)| + 1
  {
    var w := Residue(middle, bound, k);
    forall x: int | middle <= x < middle + bound && x % bound == k ensures x == w {
      SameResidue(x, w, bound);
    }
    assert Reduced(lo, middle + bound, bound, k) == Reduced(lo, middle, bound, k) + {w};
  }

  /** Among `bound` words in a row one has the residue `k` … */
  lemma {:induction false} Residue(start: nat, bound: nat, k: nat) returns (w: nat)
    requires k < bound
    ensures start <= w < start + bound && w % bound == k
  {
    var q, r := start / bound, start % bound;
    var q' := if r <= k then q else q + 1;
    assert (q + 1) * bound == q * bound + bound;
    w := q' * bound + k;
    ModUnique(w, bound, q', k);
  }

  /** … and no two have. */
  lemma {:induction false} SameResidue(x: int, w: int, bound: nat)
    requires bound > 0 && x % bound == w % bound && 0 - bound < x - w < bound
    ensures x == w
  {
    var d := x / bound - w / bound;
    assert x - w == d * bound;
    assert d >= 1 ==> d * bound >= bound;
    assert d <= -1 ==> d * bound <= 0 - bound;
  }

  // A known stream.

  lemma {:induction false} IdentityAt(n: nat, k: nat)
    requires k < n <= 256
    ensures Identity(n)[k] == k
  {
    if k < n - 1 {
      IdentityAt(n - 1, k);
    }
  }

  /** The first bytes drawn from the identity table. */
  lemma {:induction false} FirstBytes()
    ensures var s1 := Next(Fresh);
            var s2 := Next(s1.0);
            var s3 := Next(s2.0);
            s1.1 == 2 && s2.1 == 5 && s3.1 == 7
  {
    forall k: nat | k < 256 ensures Identity(256)[k] == k {
      IdentityAt(256, k);
    }
    FromIdentity(Identity(256));
  }

  lemma {:induction false} FromIdentity(s: seq<byte>)
    requires |s| == 256 && forall k :: 0 <= k < 256 ==> s[k] == k
    ensures var s1 := Next(Stream(0, 0, s));
            var s2 := Next(s1.0);
            var s3 := Next(s2.0);
            s1.1 == 2 && s2.1 == 5 && s3.1 == 7
  {
    FirstStep(s);
    SecondStep(s);
    ThirdStep(s[2 := 3][3 := 2]);
  }

  lemma {:induction false} FirstStep(s: seq<byte>)
    requires |s| == 256 && s[1] == 1 && s[2] == 2
    ensures Next(Stream(0, 0, s)) == (Stream(1, 1, s), 2)
  {
    assert Swap(s, 1, 1) == s;
  }

  lemma {:induction false} SecondStep(s: seq<byte>)
    requires |s| == 256 && s[2] == 2 && s[3] == 3 && s[5] == 5
    ensures Next(Stream(1, 1, s)) == (Stream(2, 3, s[2 := 3][3 := 2]), 5)
  {
  }

  lemma {:induction false} ThirdStep(s: seq<byte>)
    requires |s| == 256 && s[3] == 2 && s[5] == 5 && s[7] == 7
    ensures Next(Stream(2, 3, s)).1 == 7
  {
  }

  // Keys.

  /** Seeding goes once around the table and ends one place before where it began. */
  lemma {:induction false} SeedingGoesRound(st: Stream, dat: bytes)
    requires |st.s| == 256 && dat != []
    ensures var r := Reseeded(st, dat); r.i as int == (st.i as int + 255) % 256 && r.j == r.i
  {
    RoundsAdvance(st.(i := (st.i as int + 255) % 256), dat, 256);
  }

  lemma {:induction false} RoundsAdvance(st: Stream, dat: bytes, n: nat)
    requires |st.s| == 256 && dat != []
    ensures MixedAll(st, dat, n).i as int == (st.i as int + n) % 256
  {
    if n > 0 {
      RoundsAdvance(st, dat, n - 1);
      MixedOn(MixedAll(st, dat, n - 1), KeyByte(dat, n - 1), st.i as int + n - 1);
    }
  }

  lemma {:induction false} MixedOn(st: Stream, d: byte, x: int)
    requires |st.s| == 256 && st.i as int == x % 256
    ensures Mixed(st, d).i as int == (x + 1) % 256
  {
    OneOn(x);
  }

  lemma {:induction false} OneOn(x: int)
    ensures (x % 256 + 1) % 256 == (x + 1) % 256
  {
  }

  /** A key given twice over is the same key. */
  lemma {:induction false} KeyRepeats(st: Stream, dat: bytes)
    requires |st.s| == 256 && dat != []
    ensures Reseeded(st, dat + dat) == Reseeded(st, dat)
  {
    forall k: nat ensures KeyByte(dat + dat, k) == KeyByte(dat, k) {
      TwiceOver(dat, k);
    }
    SameKey(st, dat + dat, dat);
  }

  /** Only the first 256 bytes of a key matter. */
  lemma {:induction false} KeyPrefix(st: Stream, dat: bytes, more: bytes)
    requires |st.s| == 256 && |dat| >= 256
    ensures Reseeded(st, dat + more) == Reseeded(st, dat)
  {
    forall k: nat | k < 256 ensures KeyByte(dat + more, k) == KeyByte(dat, k) {
      ModUnique(k, |dat|, 0, k);
      ModUnique(k, |dat + more|, 0, k);
    }
    SameKey(st, dat + more, dat);
  }

  lemma {:induction false} SameKey(st: Stream, a: bytes, b: bytes)
    requires |st.s| == 256 && a != [] && b != [] && forall k: nat :: k < 256 ==> KeyByte(a, k) == KeyByte(b, k)
    ensures Reseeded(st, a) == Reseeded(st, b)
  {
    SameRounds(st.(i := (st.i as int + 255) % 256), a, b, 256);
  }

  lemma {:induction false} TwiceOver(dat: bytes, n: nat)
    requires dat != []
    ensures KeyByte(dat + dat, n) == KeyByte(dat, n)
  {
    var l := |dat|;
    var q, r := n / l, n % l;
    assert n == q * l + r;
    if q % 2 == 0 {
      Halved(q, l);
      ModUnique(n, 2 * l, q / 2, r);
    } else {
      Halved(q, l);
      ModUnique(n, 2 * l, q / 2, r + l);
    }
  }

  lemma {:induction false} Halved(q: nat, l: nat)
    ensures q * l == q / 2 * (2 * l) + (if q % 2 == 0 then 0 else l)
  {
    var h := q / 2;
    assert q == 2 * h + q % 2;
    assert (2 * h) * l == h * (2 * l);
    assert (2 * h + 1) * l == (2 * h) * l + l;
  }

  lemma {:induction false} SameRounds(st: Stream, a: bytes, b: bytes, n: nat)
    requires |st.s| == 256 && a != [] && b != [] && forall k: nat :: k < n ==> KeyByte(a, k) == KeyByte(b, k)
    ensures MixedAll(st, a, n) == MixedAll(st, b, n)
  {
    if n > 0 {
      SameRounds(st, a, b, n - 1);
    }
  }
}
