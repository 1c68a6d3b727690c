/** Rearranging a sequence keeps its members, and keeps them distinct. */
module Permutations {

  ghost predicate AllDistinct<T(!new)>(s: seq<T>) {
    forall i, j :: 0 <= i < j < |s| ==> s[i] != s[j]
  }

  lemma CountsTwice<T(!new)>(s: seq<T>, i: nat, j: nat)
    requires i < j < |s| && s[i] == s[j]
    ensures multiset(s)[s[i]] >= 2
  {
    assert s == s[..j] + s[j..];
    assert s[..j][i] == s[i] && s[j..][0] == s[j];
  }

  lemma {:induction false} DistinctCounts<T(!new)>(s: seq<T>)
    requires AllDistinct(s)
    ensures forall x :: multiset(s)[x] <= 1
  {
    if s != [] {
      DistinctCounts(s[1..]);
      assert s == [s[0]] + s[1..];
      assert s[0] !in s[1..];
    }
  }

  lemma PermutationKeepsMembers<T(!new)>(s: seq<T>, t: seq<T>)
    requires multiset(t) == multiset(s)
    ensures forall x :: x in t <==> x in s
    ensures AllDistinct(s) ==> AllDistinct(t)
  {
    assert forall x :: x in t <==> x in multiset(t);
    assert forall x :: x in s <==> x in multiset(s);
    if AllDistinct(s) {
      DistinctCounts(s);
      forall i, j | 0 <= i < j < |t|
        ensures t[i] != t[j]
      {
        if t[i] == t[j] { CountsTwice(t, i, j); }
      }
    }
  }
}
