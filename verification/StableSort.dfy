/** The stable `Array.prototype.sort`, with `le(a, b)` for a comparison that does not put `b` first. */
module StableSort {

  import opened Permutations

  function Insert<T>(le: (T, T) -> bool, x: T, sorted: seq<T>): seq<T> {
    if sorted == [] then [x]
    else if le(sorted[0], x) then [sorted[0]] + Insert(le, x, sorted[1..])
    else [x] + sorted
  }

  function Sort<T>(le: (T, T) -> bool, s: seq<T>): seq<T> {
    if s == [] then [] else Insert(le, s[|s| - 1], Sort(le, s[..|s| - 1]))
  }

  lemma {:induction false} InsertPermutes<T>(le: (T, T) -> bool, x: T, sorted: seq<T>)
    ensures multiset(Insert(le, x, sorted)) == multiset(sorted) + multiset{x}
  {
    if sorted != [] && le(sorted[0], x) {
      InsertPermutes(le, x, sorted[1..]);
      assert sorted == [sorted[0]] + sorted[1..];
    }
  }

  lemma {:induction false} SortPermutes<T>(le: (T, T) -> bool, s: seq<T>)
    ensures multiset(Sort(le, s)) == multiset(s)
  {
    if s != [] {
      var n := |s| - 1;
      SortPermutes(le, s[..n]);
      InsertPermutes(le, s[n], Sort(le, s[..n]));
      assert s == s[..n] + [s[n]];
    }
  }

  ghost predicate TotalPreorder<T(!new)>(le: (T, T) -> bool) {
    (forall a, b :: le(a, b) || le(b, a)) && (forall a, b, c :: le(a, b) && le(b, c) ==> le(a, c))
  }

  ghost predicate Sorted<T(!new)>(le: (T, T) -> bool, s: seq<T>) {
    forall i, j :: 0 <= i < j < |s| ==> le(s[i], s[j])
  }

  lemma {:induction false} InsertSorts<T(!new)>(le: (T, T) -> bool, x: T, sorted: seq<T>)
    requires TotalPreorder(le) && Sorted(le, sorted)
    ensures Sorted(le, Insert(le, x, sorted))
  {
    if sorted != [] && le(sorted[0], x) {
      var rest := Insert(le, x, sorted[1..]);
      InsertSorts(le, x, sorted[1..]);
      InsertPermutes(le, x, sorted[1..]);
      forall k | 0 <= k < |rest|
        ensures le(sorted[0], rest[k])
      {
        assert rest[k] in multiset(rest);
        if rest[k] != x { assert rest[k] in sorted[1..]; }
      }
    }
  }

  /** The result is sorted; it lists the same members, as often as before. */
  lemma {:induction false} SortSorts<T(!new)>(le: (T, T) -> bool, s: seq<T>)
    requires TotalPreorder(le)
    ensures Sorted(le, Sort(le, s)) && multiset(Sort(le, s)) == multiset(s)
  {
    SortPermutes(le, s);
    if s != [] {
      var n := |s| - 1;
      SortSorts(le, s[..n]);
      InsertSorts(le, s[n], Sort(le, s[..n]));
    }
  }

  lemma SortKeepsMembers<T(!new)>(le: (T, T) -> bool, s: seq<T>)
    ensures forall x :: x in Sort(le, s) <==> x in s
    ensures AllDistinct(s) ==> AllDistinct(Sort(le, s))
  {
    SortPermutes(le, s);
    PermutationKeepsMembers(s, Sort(le, s));
  }

  // ---------------------------------------------------------------- stability

  ghost predicate Tie<T>(le: (T, T) -> bool, x: T, y: T) {
    le(x, y) && le(y, x)
  }

  /** The members that the comparison does not tell from `z`, in order. */
  ghost function Ties<T>(le: (T, T) -> bool, z: T, s: seq<T>): seq<T> {
    if s == [] then [] else (if Tie(le, s[0], z) then [s[0]] else []) + Ties(le, z, s[1..])
  }

  lemma TiesCons<T>(le: (T, T) -> bool, z: T, x: T, s: seq<T>)
    ensures Ties(le, z, [x] + s) == (if Tie(le, x, z) then [x] else []) + Ties(le, z, s)
  {
    assert ([x] + s)[1..] == s;
  }

  lemma {:induction false} TiesAppend<T>(le: (T, T) -> bool, z: T, s: seq<T>, x: T)
    ensures Ties(le, z, s + [x]) == Ties(le, z, s) + (if Tie(le, x, z) then [x] else [])
  {
    if s == [] {
      assert s + [x] == [x] + [];
      TiesCons(le, z, x, []);
    } else {
      TiesAppend(le, z, s[1..], x);
      assert s + [x] == [s[0]] + (s[1..] + [x]);
      TiesCons(le, z, s[0], s[1..] + [x]);
    }
  }

  lemma {:induction false} NoneTies<T(!new)>(le: (T, T) -> bool, z: T, s: seq<T>)
    requires forall i :: 0 <= i < |s| ==> !Tie(le, s[i], z)
    ensures Ties(le, z, s) == []
  {
    if s != [] { NoneTies(le, z, s[1..]); }
  }

  /** A member goes behind all its ties. */
  lemma {:induction false} InsertIsStable<T(!new)>(le: (T, T) -> bool, x: T, sorted: seq<T>, z: T)
    requires TotalPreorder(le) && Sorted(le, sorted)
    ensures Ties(le, z, Insert(le, x, sorted)) == Ties(le, z, sorted) + (if Tie(le, x, z) then [x] else [])
  {
    if sorted == [] {
      TiesCons(le, z, x, []);
      assert [x] + [] == [x];
    } else if le(sorted[0], x) {
      InsertIsStable(le, x, sorted[1..], z);
      TiesCons(le, z, sorted[0], Insert(le, x, sorted[1..]));
    } else {
      TiesCons(le, z, x, sorted);
      if Tie(le, x, z) {
        BehindTiesNone(le, x, sorted, z);
        NoneTies(le, z, sorted);
      }
    }
  }

  lemma BehindTiesNone<T(!new)>(le: (T, T) -> bool, x: T, sorted: seq<T>, z: T)
    requires TotalPreorder(le) && Sorted(le, sorted) && Tie(le, x, z)
    requires sorted != [] && !le(sorted[0], x)
    ensures forall i :: 0 <= i < |sorted| ==> !Tie(le, sorted[i], z)
  {
    assert le(sorted[0], sorted[0]);
    forall i | 0 <= i < |sorted|
      ensures !Tie(le, sorted[i], z)
    {
      assert le(sorted[0], sorted[i]);
    }
  }

  lemma SortAppend<T>(le: (T, T) -> bool, s: seq<T>, x: T)
    ensures Sort(le, s + [x]) == Insert(le, x, Sort(le, s))
  {
    assert (s + [x])[..|s|] == s;
  }

  lemma StableAppend<T(!new)>(le: (T, T) -> bool, s: seq<T>, x: T, z: T)
    requires TotalPreorder(le)
    requires Ties(le, z, Sort(le, s)) == Ties(le, z, s)
    ensures Ties(le, z, Sort(le, s + [x])) == Ties(le, z, s + [x])
  {
    SortAppend(le, s, x);
    SortSorts(le, s);
    InsertIsStable(le, x, Sort(le, s), z);
    TiesAppend(le, z, s, x);
  }

  /** Members that compare equal keep the order they came in. */
  lemma {:induction false} SortIsStable<T(!new)>(le: (T, T) -> bool, s: seq<T>, z: T)
    requires TotalPreorder(le)
    ensures Ties(le, z, Sort(le, s)) == Ties(le, z, s)
  {
    if s != [] {
      var n := |s| - 1;
      SortIsStable(le, s[..n], z);
      StableAppend(le, s[..n], s[n], z);
      assert s == s[..n] + [s[n]];
    }
  }

  /** Two members that are in order stay as they are; that is what stable means for a tie. */
  lemma TwoInOrder<T(!new)>(le: (T, T) -> bool, x: T, y: T)
    requires le(x, y)
    ensures Sort(le, [x, y]) == [x, y]
  {
    assert [x, y][..1] == [x] && [x][..0] == [] && [x][1..] == [];
    assert Sort(le, [x]) == Insert(le, x, Sort(le, [])) == [x];
    assert Insert(le, y, [x]) == [x] + Insert(le, y, []);
  }
}
