/** Byte strings, and the flattening of a list of byte strings into one. */
module Bytes {
  type byte = x: int | 0 <= x < 256

  type bytes = seq<byte>

  /** The concatenation, in order, of all the sequences of `parts`. */
  function Concat<T>(parts: seq<seq<T>>): (flat: seq<T>) {
    if parts == [] then [] else parts[0] + Concat(parts[1..])
  }

  lemma {:induction false} ConcatAppend<T>(a: seq<seq<T>>, b: seq<seq<T>>)
    ensures Concat(a + b) == Concat(a) + Concat(b)
  {
    if a == [] {
      assert a + b == b;
    } else {
      ConcatAppend(a[1..], b);
      assert (a + b)[1..] == a[1..] + b && (a + b)[0] == a[0];
      assert a[0] + (Concat(a[1..]) + Concat(b)) == (a[0] + Concat(a[1..])) + Concat(b);
    }
  }

  lemma {:induction false} ConcatSingle<T>(p: seq<T>)
    ensures Concat([p]) == p
  {
    assert [p][1..] == [];
  }

  lemma {:induction false} ConcatSplit<T>(parts: seq<seq<T>>, k: nat)
    requires k <= |parts|
    ensures Concat(parts) == Concat(parts[..k]) + Concat(parts[k..])
  {
    assert parts == parts[..k] + parts[k..];
    ConcatAppend(parts[..k], parts[k..]);
  }

  /** One more part on the end of a prefix. */
  lemma {:induction false} ConcatExtend<T>(parts: seq<seq<T>>, k: nat)
    requires k < |parts|
    ensures Concat(parts[..k + 1]) == Concat(parts[..k]) + parts[k]
    ensures Concat(parts[k..]) == parts[k] + Concat(parts[k + 1..])
  {
    assert parts[..k + 1] == parts[..k] + [parts[k]];
    ConcatAppend(parts[..k], [parts[k]]);
    ConcatSingle(parts[k]);
    assert parts[k..][1..] == parts[k + 1..];
  }

  /** Where part `k` starts in the concatenation. */
  function Offset<T>(parts: seq<seq<T>>, k: nat): (n: nat)
    requires k <= |parts|
  {
    if k == 0 then 0 else Offset(parts, k - 1) + |parts[k - 1]|
  }

  lemma {:induction false} OffsetIs<T>(parts: seq<seq<T>>, k: nat)
    requires k <= |parts|
    ensures Offset(parts, k) == |Concat(parts[..k])| <= |Concat(parts)|
    ensures k == |parts| ==> Offset(parts, k) == |Concat(parts)|
  {
    if k > 0 {
      OffsetIs(parts, k - 1);
      ConcatExtend(parts, k - 1);
    }
    ConcatSplit(parts, k);
    assert k == |parts| ==> parts[..k] == parts;
  }

  /** Two balances, one after the other: what was there and came in is what went out and is there. */
  lemma {:induction false} BalanceChain(have: bytes, took: bytes, later: bytes, gave: bytes, have': bytes,
                                        rest: bytes, end: bytes)
    requires have + took == gave + have' && have' + later == rest + end
    ensures have + (took + later) == gave + rest + end
  {
    assert have + (took + later) == (have + took) + later;
    assert (gave + have') + later == gave + (have' + later);
    assert gave + (rest + end) == gave + rest + end;
  }
}
