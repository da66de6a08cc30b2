/** The deck's Fisher-Yates shuffle. The random draw `Math.floor(Math.random() * (i + 1))`
    of each step is supplied by the caller: `choices[i]` is the slot swapped with slot `i`. */
module Shuffling {

  /** Draws a caller may supply for an array of length `n`: one per slot, and the draw
      for every step the loop runs (`0 < i < n`) lies in `[0, i]`. */
  predicate ValidChoices(choices: seq<nat>, n: nat) {
    |choices| == n && forall i :: 0 < i < n ==> choices[i] <= i
  }

  /** `s` with the elements at `i` and `j` exchanged. */
  function Swap<T>(s: seq<T>, i: nat, j: nat): (r: seq<T>)
    requires i < |s| && j < |s|
  {
    s[i := s[j]][j := s[i]]
  }

  /** The steps of the shuffle still to run when the loop counter is `top - 1`:
      for `i` from `top - 1` down to `1`, swap slot `i` with slot `choices[i]`. */
  function ShuffleBelow<T>(s: seq<T>, choices: seq<nat>, top: nat): (r: seq<T>)
    requires top <= |s| && ValidChoices(choices, |s|)
    decreases top
  {
    if top <= 1 then s
    else ShuffleBelow(Swap(s, top - 1, choices[top - 1]), choices, top - 1)
  }

  /** The arrangement the whole shuffle produces from `s`. */
  function Shuffled<T>(s: seq<T>, choices: seq<nat>): (r: seq<T>)
    requires ValidChoices(choices, |s|)
  {
    ShuffleBelow(s, choices, |s|)
  }

  /** Swapping two slots rearranges the sequence and moves nothing else. */
  lemma SwapIsPermutation<T>(s: seq<T>, i: nat, j: nat)
    requires i < |s| && j < |s|
    ensures |Swap(s, i, j)| == |s| && multiset(Swap(s, i, j)) == multiset(s)
    ensures Swap(s, i, j)[i] == s[j] && Swap(s, i, j)[j] == s[i]
    ensures forall k :: 0 <= k < |s| && k != i && k != j ==> Swap(s, i, j)[k] == s[k]
  {
  }

  /** Any run of the remaining steps only rearranges the sequence. */
  lemma {:induction false} ShuffleBelowIsPermutation<T>(s: seq<T>, choices: seq<nat>, top: nat)
    requires top <= |s| && ValidChoices(choices, |s|)
    ensures |ShuffleBelow(s, choices, top)| == |s|
    ensures multiset(ShuffleBelow(s, choices, top)) == multiset(s)
    decreases top
  {
    if top > 1 {
      SwapIsPermutation(s, top - 1, choices[top - 1]);
      ShuffleBelowIsPermutation(Swap(s, top - 1, choices[top - 1]), choices, top - 1);
    }
  }

  /** The shuffle is a permutation: same length, same multiset of elements, whatever the
      draws. */
  lemma ShuffledIsPermutation<T>(s: seq<T>, choices: seq<nat>)
    requires ValidChoices(choices, |s|)
    ensures |Shuffled(s, choices)| == |s|
    ensures multiset(Shuffled(s, choices)) == multiset(s)
  {
    ShuffleBelowIsPermutation(s, choices, |s|);
  }

  /** A slot the loop has passed is never touched again: once step `i` has run,
      slot `i` keeps what it holds. */
  lemma {:induction false} ShuffleFixesUpperSlots<T>(s: seq<T>, choices: seq<nat>, top: nat, k: nat)
    requires top <= |s| && ValidChoices(choices, |s|)
    requires top <= k < |s|
    ensures |ShuffleBelow(s, choices, top)| == |s|
    ensures ShuffleBelow(s, choices, top)[k] == s[k]
    decreases top
  {
    ShuffleBelowIsPermutation(s, choices, top);
    if top > 1 {
      SwapIsPermutation(s, top - 1, choices[top - 1]);
      ShuffleFixesUpperSlots(Swap(s, top - 1, choices[top - 1]), choices, top - 1, k);
    }
  }

  /** Fisher-Yates in place: walks `i` down from the last slot to 1, swapping slot `i`
      with slot `choices[i]`. */
  method Shuffle<T>(a: array<T>, choices: seq<nat>)
    requires ValidChoices(choices, a.Length)
    modifies a
    ensures a[..] == Shuffled(old(a[..]), choices)
    ensures multiset(a[..]) == multiset(old(a[..]))
  {
    var i := a.Length - 1;
    while i > 0
      invariant -1 <= i < a.Length
      invariant Shuffled(old(a[..]), choices) == ShuffleBelow(a[..], choices, i + 1)
    {
      var j := choices[i];
      ghost var before := a[..];
      a[i], a[j] := a[j], a[i];
      assert a[..] == Swap(before, i, j);
      i := i - 1;
    }
    ShuffledIsPermutation(old(a[..]), choices);
  }
}
