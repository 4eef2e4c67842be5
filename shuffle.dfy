/**
 * index.js `shuffle` sorts an array in place with a random comparator. Its result
 * is some permutation of its input, and nothing more is relied on. The model draws
 * the permutation from an explicit input: `swaps[i]` picks which of the remaining
 * elements goes to position `i` (a Fisher-Yates pass), so every permutation can
 * be produced and the random source stays outside the model.
 */
module Shuffle {

  method ShuffleInPlace<T>(a: array<T>, swaps: seq<nat>)
    modifies a
    ensures multiset(a[..]) == old(multiset(a[..]))
  {
    var i := 0;
    while i < a.Length
      invariant 0 <= i <= a.Length
      invariant multiset(a[..]) == old(multiset(a[..]))
    {
      var j := i + (if i < |swaps| then swaps[i] % (a.Length - i) else 0);
      a[i], a[j] := a[j], a[i];
      i := i + 1;
    }
  }

  /** `shuffle(array)` on a fresh array holding `s`, returning the shuffled contents. */
  method Shuffled<T>(s: seq<T>, swaps: seq<nat>) returns (r: seq<T>)
    ensures |r| == |s| && multiset(r) == multiset(s)
  {
    var a := new T[|s|](k requires 0 <= k < |s| => s[k]);
    assert a[..] == s;
    ShuffleInPlace(a, swaps);
    r := a[..];
  }
}
