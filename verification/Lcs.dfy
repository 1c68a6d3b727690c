/**
  Longest common subsequences of two lists of lines: the recurrence that the merge and the
  report preview both tabulate, and the proof that it computes a maximum over every common
  subsequence.
 */
module Lcs {

  type Line = string

  /** `s` can be obtained from `t` by deleting lines. */
  ghost predicate Subsequence(s: seq<Line>, t: seq<Line>)
    decreases t
  {
    s == [] || (t != [] && ((s[0] == t[0] && Subsequence(s[1..], t[1..])) || Subsequence(s, t[1..])))
  }

  ghost predicate CommonSubsequence(s: seq<Line>, a: seq<Line>, b: seq<Line>) {
    Subsequence(s, a) && Subsequence(s, b)
  }

  function Max(x: nat, y: nat): nat {
    if x >= y then x else y
  }

  /** The recurrence over suffixes used by both table-filling loops. */
  function Length(a: seq<Line>, b: seq<Line>): nat
    decreases |a| + |b|
  {
    if a == [] || b == [] then 0
    else if a[0] == b[0] then Length(a[1..], b[1..]) + 1
    else Max(Length(a[1..], b), Length(a, b[1..]))
  }

  lemma {:induction false} SubsequenceDropsHeads(s: seq<Line>, t: seq<Line>)
    requires s != [] && Subsequence(s, t)
    ensures t != [] && Subsequence(s[1..], t[1..])
    decreases t
  {
    if !(s[0] == t[0] && Subsequence(s[1..], t[1..])) {
      SubsequenceDropsHeads(s, t[1..]);
      SubsequenceWeakens(s[1..], t[1..]);
    }
  }

  lemma SubsequenceWeakens(s: seq<Line>, t: seq<Line>)
    requires t != [] && Subsequence(s, t[1..])
    ensures Subsequence(s, t)
  {
  }

  lemma {:induction false} SubsequenceIsShorter(s: seq<Line>, t: seq<Line>)
    requires Subsequence(s, t)
    ensures |s| <= |t|
    decreases t
  {
    if s != [] {
      SubsequenceDropsHeads(s, t);
      SubsequenceIsShorter(s[1..], t[1..]);
    }
  }

  lemma {:induction false} SubsequenceReflexive(s: seq<Line>)
    ensures Subsequence(s, s)
  {
    if s != [] {
      SubsequenceReflexive(s[1..]);
    }
  }

  lemma {:induction false} SubsequencePrepend(p: seq<Line>, s: seq<Line>, t: seq<Line>)
    requires Subsequence(s, t)
    ensures Subsequence(s, p + t)
  {
    if p == [] {
      assert p + t == t;
    } else {
      SubsequencePrepend(p[1..], s, t);
      assert (p + t)[1..] == p[1..] + t;
      SubsequenceWeakens(s, p + t);
    }
  }

  lemma {:induction false} SubsequenceKeepPrefix(p: seq<Line>, s: seq<Line>, t: seq<Line>)
    requires Subsequence(s, t)
    ensures Subsequence(p + s, p + t)
  {
    if p == [] {
      assert p + s == s && p + t == t;
    } else {
      SubsequenceKeepPrefix(p[1..], s, t);
      assert (p + t)[1..] == p[1..] + t;
      assert (p + s)[1..] == p[1..] + s;
    }
  }

  /** No common subsequence is longer than the recurrence says. */
  lemma {:induction false} LengthBoundsCommonSubsequences(s: seq<Line>, a: seq<Line>, b: seq<Line>)
    requires CommonSubsequence(s, a, b)
    ensures |s| <= Length(a, b)
    decreases |a| + |b|
  {
    if s == [] {
    } else if a[0] == b[0] {
      SubsequenceDropsHeads(s, a);
      SubsequenceDropsHeads(s, b);
      LengthBoundsCommonSubsequences(s[1..], a[1..], b[1..]);
    } else if s[0] == a[0] {
      LengthBoundsCommonSubsequences(s, a, b[1..]);
    } else {
      LengthBoundsCommonSubsequences(s, a[1..], b);
    }
  }

  /** A longest common subsequence, read off the recurrence. */
  function Witness(a: seq<Line>, b: seq<Line>): (s: seq<Line>)
    ensures |s| == Length(a, b)
    ensures CommonSubsequence(s, a, b)
    decreases |a| + |b|
  {
    if a == [] || b == [] then []
    else if a[0] == b[0] then
      var s := [a[0]] + Witness(a[1..], b[1..]);
      s
    else if Length(a[1..], b) >= Length(a, b[1..]) then Witness(a[1..], b)
    else Witness(a, b[1..])
  }

  /** The recurrence is the maximum length over all common subsequences. */
  lemma LengthIsMaximum(a: seq<Line>, b: seq<Line>)
    ensures exists s :: CommonSubsequence(s, a, b) && |s| == Length(a, b)
    ensures forall s :: CommonSubsequence(s, a, b) ==> |s| <= Length(a, b)
  {
    assert CommonSubsequence(Witness(a, b), a, b);
    forall s | CommonSubsequence(s, a, b)
      ensures |s| <= Length(a, b)
    {
      LengthBoundsCommonSubsequences(s, a, b);
    }
  }

  lemma {:induction false} LengthAtMost(a: seq<Line>, b: seq<Line>)
    ensures Length(a, b) <= |a| && Length(a, b) <= |b|
    decreases |a| + |b|
  {
    SubsequenceIsShorter(Witness(a, b), a);
    SubsequenceIsShorter(Witness(a, b), b);
  }

  lemma {:induction false} LengthOfSelf(a: seq<Line>)
    ensures Length(a, a) == |a|
  {
    if a != [] {
      LengthOfSelf(a[1..]);
    }
  }
}
