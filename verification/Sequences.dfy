/** Parts of sequences, shared by the printers and parsers. */
module Sequences {

  /** Equal concatenations with second parts of equal length have equal parts. */
  lemma AppendInjective<T>(a: seq<T>, x: seq<T>, b: seq<T>, y: seq<T>)
    requires a + x == b + y && |x| == |y|
    ensures a == b && x == y
  {
    assert |a| == |b|;
    assert (a + x)[..|a|] == a && (b + y)[..|a|] == b;
    assert (a + x)[|a|..] == x && (b + y)[|a|..] == y;
  }

  /** A slice of a slice is a slice. */
  lemma SubSlice<T>(s: seq<T>, a: nat, b: nat, i: nat, j: nat)
    requires a <= b <= |s| && i <= j <= b - a
    ensures s[a..b][i..j] == s[a + i..a + j]
  {
    var inner, outer := s[a..b][i..j], s[a + i..a + j];
    assert |inner| == |outer| == j - i;
    forall k | 0 <= k < j - i ensures inner[k] == outer[k] {
      assert inner[k] == s[a..b][i + k] == s[a + i + k];
      assert outer[k] == s[a + i + k];
    }
  }
}
