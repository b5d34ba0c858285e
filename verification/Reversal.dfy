/** Reversal in place, the loop that `swap_endian` and both tracers share. */
module Reversal {

  function Flip<T>(s: seq<T>): (r: seq<T>)
    ensures |r| == |s|
  {
    seq(|s|, i requires 0 <= i < |s| => s[|s| - 1 - i])
  }

  lemma FlipTwice<T>(s: seq<T>)
    ensures Flip(Flip(s)) == s
  {
  }

  lemma FlipCons<T>(x: T, s: seq<T>)
    ensures Flip([x] + s) == Flip(s) + [x]
  {
  }

  method ReverseInPlace<T>(a: array<T>)
    modifies a
    ensures a[..] == Flip(old(a[..]))
  {
    var i, j := 0, a.Length - 1;
    while i < j
      invariant 0 <= i && j == a.Length - 1 - i && i <= j + 2
      invariant forall k | 0 <= k < a.Length :: a[k] == old(a[if k < i || k > j then a.Length - 1 - k else k])
    {
      a[i], a[j] := a[j], a[i];
      i, j := i + 1, j - 1;
    }
  }

  /** A copy, reversed in place. */
  method Reverse<T>(s: seq<T>) returns (r: seq<T>)
    ensures r == Flip(s)
  {
    var a := new T[|s|](i requires 0 <= i < |s| => s[i]);
    assert a[..] == s;
    ReverseInPlace(a);
    r := a[..];
  }
}
