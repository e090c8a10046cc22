/** How often an element occurs in a list. */
module Multisets {

  lemma CountedTwice<T>(xs: seq<T>, i: nat, j: nat)
    requires i < j < |xs| && xs[i] == xs[j]
    ensures multiset(xs)[xs[i]] >= 2
  {
    assert xs == xs[..i + 1] + xs[i + 1..];
    assert xs[..i + 1][i] in multiset(xs[..i + 1]);
    assert xs[i + 1..][j - (i + 1)] in multiset(xs[i + 1..]);
  }
}
