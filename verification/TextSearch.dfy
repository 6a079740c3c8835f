/** std::string::find. */
module TextSearch {
  import opened Bytes

  predicate OccursAt(s: bytes, pattern: bytes, i: nat) {
    i + |pattern| <= |s| && s[i..i + |pattern|] == pattern
  }

  /** The least position of `pattern`, or -1. */
  function Find(s: bytes, pattern: bytes, from: nat := 0): (r: int)
    ensures r == -1 || (from <= r && OccursAt(s, pattern, r))
    decreases |s| - from
  {
    if from + |pattern| > |s| then -1
    else if s[from..from + |pattern|] == pattern then from
    else Find(s, pattern, from + 1)
  }

  lemma {:induction false} FindLeast(s: bytes, pattern: bytes, from: nat, i: nat)
    requires from <= i && OccursAt(s, pattern, i)
    ensures from <= Find(s, pattern, from) <= i
    decreases i - from
  {
    if s[from..from + |pattern|] != pattern {
      FindLeast(s, pattern, from + 1, i);
    }
  }

  /** A position is the one `find` returns when the pattern occurs there and nowhere before. */
  lemma {:induction false} FindIs(s: bytes, pattern: bytes, i: nat)
    requires OccursAt(s, pattern, i) && forall k: nat :: k < i ==> !OccursAt(s, pattern, k)
    ensures Find(s, pattern) == i
  {
    FindLeast(s, pattern, 0, i);
  }

  /** What was found stays where it is when more text arrives. */
  lemma {:induction false} FindStable(s: bytes, t: bytes, pattern: bytes)
    requires Find(s, pattern) >= 0
    ensures Find(s + t, pattern) == Find(s, pattern)
  {
    var i := Find(s, pattern);
    assert (s + t)[i..i + |pattern|] == s[i..i + |pattern|];
    FindLeast(s + t, pattern, 0, i);
    var j := Find(s + t, pattern);
    assert s[j..j + |pattern|] == (s + t)[j..j + |pattern|];
    FindLeast(s, pattern, 0, j);
  }
}
