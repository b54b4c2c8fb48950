/** Small facts about sequences without repetition. */
module Lists {

  ghost predicate NoDup<T>(s: seq<T>) {
    forall i, j :: 0 <= i < j < |s| ==> s[i] != s[j]
  }

  lemma RemoveAt<T>(s: seq<T>, q: nat)
    requires q < |s|
    ensures multiset(s) == multiset(s[..q] + s[q + 1..]) + multiset{s[q]}
  {
    assert s == s[..q] + [s[q]] + s[q + 1..];
  }

  function Elements(s: seq<int>): set<int> {
    set x | x in s
  }

  lemma {:induction false} NoDupSize(s: seq<int>)
    requires NoDup(s)
    ensures |Elements(s)| == |s|
  {
    if s != [] {
      var n := |s| - 1;
      assert s == s[..n] + [s[n]];
      assert Elements(s) == Elements(s[..n]) + {s[n]} && s[n] !in Elements(s[..n]);
      NoDupSize(s[..n]);
    }
  }

  lemma SubsetSize(x: set<int>, y: set<int>)
    requires x <= y
    ensures |x| <= |y|
  {
    assert y == x + (y - x);
  }

  /** Distinct elements of a finite set bound the length. */
  lemma NoDupBounded(s: seq<int>, u: set<int>)
    requires NoDup(s) && forall x :: x in s ==> x in u
    ensures |s| <= |u|
  {
    NoDupSize(s);
    SubsetSize(Elements(s), u);
  }
}
