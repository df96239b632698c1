/**
 * The in-place shuffle both the deck and the seating order go through
 * (`SliceRandom::shuffle`), with the random generator as a parameter.
 */
module Shuffling {

  /** No element occurs twice. */
  predicate Distinct<T(==)>(s: seq<T>) {
    forall i, j :: 0 <= i < j < |s| ==> s[i] != s[j]
  }

  /** Exchanging two positions keeps a sequence free of repeats. */
  lemma SwapKeepsDistinct<T>(s: seq<T>, i: nat, j: nat)
    requires i < |s| && j < |s| && Distinct(s)
    ensures Distinct(s[i := s[j]][j := s[i]])
  {
    var t := s[i := s[j]][j := s[i]];
    forall p, q | 0 <= p < q < |t|
      ensures t[p] != t[q]
    {
      var p' := if p == i then j else if p == j then i else p;
      var q' := if q == i then j else if q == j then i else q;
      assert t[p] == s[p'] && t[q] == s[q'];
      assert p' != q';
    }
  }

  /**
   * Fisher–Yates from the back: position `i` swaps with a position drawn
   * from `0..=i`, for `i` from the last index down to 1. Whatever `rng`
   * returns, the result is a rearrangement of the input.
   */
  method ShuffleInPlace<T(==)>(a: array<T>, rng: nat -> nat)
    modifies a
    ensures multiset(a[..]) == old(multiset(a[..]))
    ensures Distinct(old(a[..])) ==> Distinct(a[..])
  {
    if a.Length == 0 {
      return;
    }
    ghost var distinct := Distinct(a[..]);
    var i := a.Length - 1;
    while i > 0
      invariant 0 <= i < a.Length
      invariant multiset(a[..]) == old(multiset(a[..]))
      invariant distinct ==> Distinct(a[..])
    {
      var j := rng(i) % (i + 1);
      ghost var before := a[..];
      a[i], a[j] := a[j], a[i];
      assert a[..] == before[i := before[j]][j := before[i]];
      if distinct {
        SwapKeepsDistinct(before, i, j);
      }
      i := i - 1;
    }
  }
}
