/** Sequence helpers shared by several days. */
module Seqs {

  /** `iter().rev()`: the elements back to front. */
  function Reverse<T>(s: seq<T>): (r: seq<T>)
    ensures |r| == |s|
    ensures forall k :: 0 <= k < |s| ==> r[k] == s[|s| - 1 - k]
  {
    if s == [] then [] else Reverse(s[1..]) + [s[0]]
  }

  /** Reversing twice gives the sequence back. */
  lemma ReverseReverse<T>(s: seq<T>)
    ensures Reverse(Reverse(s)) == s
  {
    assert forall k :: 0 <= k < |s| ==> Reverse(Reverse(s))[k] == s[k];
  }

  /** The reversal of a non-empty sequence starts with its last element, then reverses the rest. */
  lemma {:induction false} ReverseInit<T>(s: seq<T>)
    requires |s| > 0
    ensures Reverse(s) == [s[|s| - 1]] + Reverse(s[..|s| - 1])
  {
    var n := |s|;
    var r := [s[n - 1]] + Reverse(s[..n - 1]);
    forall k | 0 <= k < n ensures Reverse(s)[k] == r[k] {
      if k > 0 {
        assert r[k] == Reverse(s[..n - 1])[k - 1] == s[..n - 1][n - 1 - k];
      }
    }
  }
}
