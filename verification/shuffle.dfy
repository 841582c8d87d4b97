/** The in-place Fisher-Yates shuffle the program runs three times
    (`for (i = n - 1; i > 0; i--) { j = floor(random() * (i + 1)); swap(i, j) }`),
    with the random source replaced by a caller-supplied sequence of draws. */
module Shuffle {

  /** `draws[i]` is the index the loop step for position `i` picks; the random
      source always yields one in `[0, i]`. Position 0 is never visited, so its
      draw can only be 0. */
  predicate ValidDraws(draws: seq<int>, n: int) {
    |draws| == n && forall i :: 0 <= i < n ==> 0 <= draws[i] <= i
  }

  /** The destructuring swap `[a[i], a[j]] = [a[j], a[i]]`. */
  function Swap<T>(s: seq<T>, i: int, j: int): (r: seq<T>)
    requires 0 <= i < |s| && 0 <= j < |s|
    ensures |r| == |s| && r[i] == s[j] && r[j] == s[i]
    ensures forall k :: 0 <= k < |s| && k != i && k != j ==> r[k] == s[k]
  {
    s[i := s[j]][j := s[i]]
  }

  lemma SwapPermutes<T>(s: seq<T>, i: int, j: int)
    requires 0 <= i < |s| && 0 <= j < |s|
    ensures multiset(Swap(s, i, j)) == multiset(s)
  {
  }

  /** The loop from step `i` down to step 1. */
  function ShuffleDown<T>(s: seq<T>, draws: seq<int>, i: int): (r: seq<T>)
    requires |draws| == |s| && -1 <= i < |s|
    requires forall k :: 0 <= k <= i ==> 0 <= draws[k] <= k
    ensures |r| == |s| && multiset(r) == multiset(s)
    decreases i
  {
    if i <= 0 then s
    else
      SwapPermutes(s, i, draws[i]);
      ShuffleDown(Swap(s, i, draws[i]), draws, i - 1)
  }

  /** The whole shuffle. Whatever the draws, the result is a permutation of `s`. */
  function FisherYates<T>(s: seq<T>, draws: seq<int>): (r: seq<T>)
    requires ValidDraws(draws, |s|)
    ensures |r| == |s| && multiset(r) == multiset(s)
  {
    ShuffleDown(s, draws, |s| - 1)
  }

  /** Draws that always pick the current position swap nothing. */
  lemma {:induction false} StayingDrawsKeepOrder<T>(s: seq<T>, draws: seq<int>, i: int)
    requires |draws| == |s| && -1 <= i < |s|
    requires forall k :: 0 <= k <= i ==> draws[k] == k
    ensures ShuffleDown(s, draws, i) == s
    decreases i
  {
    if i > 0 {
      assert draws[i] == i;
      var t := Swap(s, i, draws[i]);
      assert forall k :: 0 <= k < |s| ==> t[k] == s[k];
      assert t == s;
      assert ShuffleDown(s, draws, i) == ShuffleDown(t, draws, i - 1);
      StayingDrawsKeepOrder(s, draws, i - 1);
    }
  }

  /** A prefix of a sequence holds part of its elements. */
  lemma PrefixSubMultiset<T>(s: seq<T>, k: int)
    requires 0 <= k <= |s|
    ensures multiset(s[..k]) <= multiset(s)
  {
    assert s == s[..k] + s[k..];
  }
}
