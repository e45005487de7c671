/** Small facts about integers and sequences shared by the other modules. */
module Seqs {
  function Min(a: int, b: int): int {
    if a <= b then a else b
  }

  /** Cutting a sequence at `k` splits its multiset into the prefix's and
      the suffix's. */
  lemma SplitMultiset<T>(s: seq<T>, k: nat)
    requires k <= |s|
    ensures multiset(s) - multiset(s[..k]) == multiset(s[k..])
    ensures multiset(s[..k]) <= multiset(s)
  {
    assert s == s[..k] + s[k..];
  }
}
