/**
  The three-way line merge. The program pushes the candidate's hunks behind the current ones,
  sorts back to front and splices; the specification merges two sorted hunk lists in one pass
  and carries them out front to back.
 */
module Merge {

  import opened Lcs
  import opened Lines
  import opened Hunks
  import opened Options
  import opened Permutations
  import opened StableSort

  datatype Reason = OverlappingChanges | InputTooLarge
  datatype MergeResult = Merged(content: string, merged: bool) | Refused(reason: Reason)

  predicate Overlaps(left: Hunk, right: Hunk) {
    var leftInsertion := left.start == left.end;
    var rightInsertion := right.start == right.end;
    if leftInsertion && rightInsertion then left.start == right.start
    else if leftInsertion then right.start <= left.start < right.end
    else if rightInsertion then left.start <= right.start < left.end
    else
      (if left.start >= right.start then left.start else right.start) <
      (if left.end <= right.end then left.end else right.end)
  }

  /** Some hunk of `xs` and some different hunk of `ys` claim the same place. */
  ghost predicate Conflicting(xs: seq<Hunk>, ys: seq<Hunk>) {
    exists x, y :: x in xs && y in ys && x != y && Overlaps(x, y)
  }

  /** The hunks of both lists, front to back, a shared hunk once. */
  ghost function Union(xs: seq<Hunk>, ys: seq<Hunk>): seq<Hunk>
    decreases |xs| + |ys|
  {
    if xs == [] then ys
    else if ys == [] then xs
    else if xs[0] == ys[0] then [xs[0]] + Union(xs[1..], ys[1..])
    else if xs[0].start <= ys[0].start then [xs[0]] + Union(xs[1..], ys)
    else [ys[0]] + Union(xs, ys[1..])
  }

  ghost predicate Before(x: Hunk, y: Hunk) {
    x.end <= y.start && x.start < y.start
  }

  /** Front to back with disjoint ranges and distinct starting points. */
  ghost predicate Disjoint(hs: seq<Hunk>) {
    forall i, j :: 0 <= i < j < |hs| ==> Before(hs[i], hs[j])
  }

  ghost predicate Within(hs: seq<Hunk>, lo: nat, n: nat) {
    forall h :: h in hs ==> lo <= h.start <= h.end <= n
  }

  lemma {:induction false} DisjointIsPatch(hs: seq<Hunk>, lo: nat, n: nat)
    requires Disjoint(hs) && Within(hs, lo, n) && lo <= n
    ensures Patch(hs, lo, n)
  {
    if hs != [] {
      TailIsDisjoint(hs);
      DisjointIsPatch(hs[1..], hs[0].end, n);
    }
  }

  lemma {:induction false} UnionMembers(xs: seq<Hunk>, ys: seq<Hunk>)
    ensures forall h :: h in Union(xs, ys) <==> h in xs || h in ys
    decreases |xs| + |ys|
  {
    if xs == [] || ys == [] {
    } else if xs[0] == ys[0] {
      UnionMembers(xs[1..], ys[1..]);
    } else if xs[0].start <= ys[0].start {
      UnionMembers(xs[1..], ys);
    } else {
      UnionMembers(xs, ys[1..]);
    }
  }

  // ---------------------------------------------------------------- the union of two diffs

  /** Two different hunks that do not overlap are disjoint, one wholly before the other. */
  lemma NotOverlappingIsApart(x: Hunk, y: Hunk)
    requires x.start <= x.end && y.start <= y.end
    requires x.start <= y.start && !Overlaps(x, y)
    ensures Before(x, y)
  {
  }

  lemma TailIsDisjoint(hs: seq<Hunk>)
    requires Disjoint(hs) && hs != []
    ensures Disjoint(hs[1..])
    ensures forall h :: h in hs[1..] ==> Before(hs[0], h)
  {
    forall h | h in hs[1..]
      ensures Before(hs[0], h)
    {
      var j :| 0 <= j < |hs[1..]| && hs[1..][j] == h;
      assert hs[j + 1] == h;
    }
  }

  /** A hunk that starts no later than the head of `ys` and overlaps no other member precedes them all. */
  lemma PrecedesAll(x: Hunk, ys: seq<Hunk>, n: nat)
    requires 0 <= x.start <= x.end && Within(ys, 0, n)
    requires Disjoint(ys) && ys != [] && x != ys[0] && x.start <= ys[0].start
    requires forall y :: y in ys && y != x ==> !Overlaps(x, y)
    ensures forall y :: y in ys ==> Before(x, y)
  {
    TailIsDisjoint(ys);
    forall y | y in ys
      ensures Before(x, y)
    {
      if y != ys[0] { assert y in ys[1..]; }
      NotOverlappingIsApart(x, y);
    }
  }

  lemma {:induction false} UnionIsDisjoint(xs: seq<Hunk>, ys: seq<Hunk>, n: nat)
    requires Disjoint(xs) && Disjoint(ys) && Within(xs, 0, n) && Within(ys, 0, n)
    requires !Conflicting(xs, ys)
    ensures Disjoint(Union(xs, ys))
    decreases |xs| + |ys|
  {
    if xs == [] || ys == [] {
    } else if xs[0] == ys[0] {
      TailIsDisjoint(xs);
      TailIsDisjoint(ys);
      UnionIsDisjoint(xs[1..], ys[1..], n);
      UnionMembers(xs[1..], ys[1..]);
      HeadFirst(xs[0], Union(xs[1..], ys[1..]));
    } else if xs[0].start <= ys[0].start {
      TailIsDisjoint(xs);
      PrecedesAll(xs[0], ys, n);
      UnionIsDisjoint(xs[1..], ys, n);
      UnionMembers(xs[1..], ys);
      HeadFirst(xs[0], Union(xs[1..], ys));
    } else {
      TailIsDisjoint(ys);
      forall x | x in xs && x != ys[0]
        ensures !Overlaps(ys[0], x)
      {
        OverlapsSymmetric(x, ys[0]);
      }
      PrecedesAll(ys[0], xs, n);
      UnionIsDisjoint(xs, ys[1..], n);
      UnionMembers(xs, ys[1..]);
      HeadFirst(ys[0], Union(xs, ys[1..]));
    }
  }

  lemma OverlapsSymmetric(x: Hunk, y: Hunk)
    ensures Overlaps(x, y) == Overlaps(y, x)
  {
  }

  lemma HeadFirst(h: Hunk, rest: seq<Hunk>)
    requires Disjoint(rest)
    requires forall r :: r in rest ==> Before(h, r)
    ensures Disjoint([h] + rest)
  {
  }

  /** A list with strictly increasing starts is determined by its members. */
  lemma {:induction false} SameMembersSameList(a: seq<Hunk>, b: seq<Hunk>)
    requires Disjoint(a) && Disjoint(b)
    requires forall h :: h in a <==> h in b
    ensures a == b
  {
    if a != [] { assert a[0] in b; }
    if b != [] { assert b[0] in a; }
    if a != [] && b != [] {
      assert a[0] == b[0];
      assert forall h :: h in a[1..] <==> h in a && h != a[0];
      assert forall h :: h in b[1..] <==> h in b && h != b[0];
      SameMembersSameList(a[1..], b[1..]);
    }
  }

  lemma DiffIsDisjoint(base: seq<Line>, target: seq<Line>)
    ensures Disjoint(Diff(base, target)) && Within(Diff(base, target), 0, |base|)
  {
    DiffIsCorrect(base, target);
    WalkIsSeparated(base, target, 0, 0, None);
  }

  /** The union of two diffs that do not conflict is one patch. */
  lemma UnionIsPatch(base: seq<Line>, current: seq<Line>, candidate: seq<Line>)
    requires !Conflicting(Diff(base, current), Diff(base, candidate))
    ensures var u := Union(Diff(base, current), Diff(base, candidate));
      Disjoint(u) && Within(u, 0, |base|) && Patch(u, 0, |base|)
  {
    var xs, ys := Diff(base, current), Diff(base, candidate);
    DiffIsDisjoint(base, current);
    DiffIsDisjoint(base, candidate);
    UnionIsDisjoint(xs, ys, |base|);
    UnionMembers(xs, ys);
    DisjointIsPatch(Union(xs, ys), 0, |base|);
  }

  // ---------------------------------------------------------------- specification

  /** The merge of two edited line lists: the base with both sets of hunks carried out. */
  ghost function MergeLines(base: seq<Line>, current: seq<Line>, candidate: seq<Line>): Option<seq<Line>> {
    var xs, ys := Diff(base, current), Diff(base, candidate);
    if Conflicting(xs, ys) then None
    else
      UnionIsPatch(base, current, candidate);
      Some(Patched(base, 0, Union(xs, ys)))
  }

  /** The path through the diffs, without the early returns and the size limit. */
  ghost function MergeByHunks(base: string, current: string, candidate: string): MergeResult {
    var m := MergeLines(SplitLines(base), SplitLines(current), SplitLines(candidate));
    if m.Some? then Merged(Join(m.value), true) else Refused(OverlappingChanges)
  }

  predicate TooLarge(base: seq<Line>, current: seq<Line>, candidate: seq<Line>) {
    (|base| + 1) * (|current| + 1) > MAX_LCS_CELLS || (|base| + 1) * (|candidate| + 1) > MAX_LCS_CELLS
  }

  ghost function MergeText(base: string, current: string, candidate: string): MergeResult {
    if current == candidate then Merged(current, false)
    else if current == base then Merged(candidate, false)
    else if candidate == base then Merged(current, false)
    else if TooLarge(SplitLines(base), SplitLines(current), SplitLines(candidate)) then Refused(InputTooLarge)
    else MergeByHunks(base, current, candidate)
  }

  // ---------------------------------------------------------------- the program

  predicate Precedes(left: Hunk, right: Hunk) {
    left.start > right.start || (left.start == right.start && left.end >= right.end)
  }

  /** The sort by descending start, then descending end. */
  function BackToFront(hs: seq<Hunk>): (r: seq<Hunk>)
    ensures multiset(r) == multiset(hs)
  {
    SortPermutes(Precedes, hs);
    Sort(Precedes, hs)
  }

  ghost predicate Descending(hs: seq<Hunk>) {
    forall i, j :: 0 <= i < j < |hs| ==> Precedes(hs[i], hs[j])
  }

  lemma BackToFrontDescends(hs: seq<Hunk>)
    ensures Descending(BackToFront(hs))
  {
    SortSorts(Precedes, hs);
  }

  ghost function Flip(hs: seq<Hunk>): seq<Hunk> {
    seq(|hs|, i requires 0 <= i < |hs| => hs[|hs| - 1 - i])
  }

  /** Sorting the collected hunks back to front lists the union in reverse. */
  lemma SortedIsFlippedUnion(hs: seq<Hunk>, u: seq<Hunk>)
    requires Disjoint(u)
    requires forall h :: h in hs <==> h in u
    requires forall i, j :: 0 <= i < j < |hs| ==> hs[i] != hs[j]
    ensures Flip(BackToFront(hs)) == u
  {
    var d := BackToFront(hs);
    BackToFrontDescends(hs);
    PermutationKeepsMembers(hs, d);
    FlipMembers(d);
    FlipIsDisjoint(d, u);
    SameMembersSameList(Flip(d), u);
  }

  lemma FlipIsDisjoint(d: seq<Hunk>, u: seq<Hunk>)
    requires Disjoint(u) && Descending(d)
    requires forall h :: h in d ==> h in u
    requires forall i, j :: 0 <= i < j < |d| ==> d[i] != d[j]
    ensures Disjoint(Flip(d))
  {
    forall i, j | 0 <= i < j < |Flip(d)|
      ensures Before(Flip(d)[i], Flip(d)[j])
    {
      var x, y := d[|d| - 1 - i], d[|d| - 1 - j];
      assert Precedes(y, x) && x != y;
      LaterIsBefore(u, y, x);
    }
  }

  lemma LaterIsBefore(u: seq<Hunk>, y: Hunk, x: Hunk)
    requires Disjoint(u) && x in u && y in u && x != y && Precedes(y, x)
    ensures Before(x, y)
  {
    var k :| 0 <= k < |u| && u[k] == x;
    var l :| 0 <= l < |u| && u[l] == y;
    assert Before(x, y) || Before(y, x);
  }

  lemma FlipMembers(d: seq<Hunk>)
    ensures forall h :: h in Flip(d) <==> h in d
  {
    forall i | 0 <= i < |d|
      ensures d[i] in Flip(d) && Flip(d)[i] in d
    {
      assert Flip(d)[|d| - 1 - i] == d[i];
      assert Flip(d)[i] == d[|d| - 1 - i];
    }
  }

  /** The hunks of `ys` that are not hunks of `xs`. */
  function Only(ys: seq<Hunk>, xs: seq<Hunk>): seq<Hunk> {
    if ys == [] then []
    else (if ys[0] in xs then [] else [ys[0]]) + Only(ys[1..], xs)
  }

  /** `mergeWorkspaceText`. */
  method MergeWorkspaceText(base: string, current: string, candidate: string) returns (r: MergeResult)
    ensures r == MergeText(base, current, candidate)
    ensures ThreeWay(base, current, candidate, r)
  {
    MergeTextIsThreeWay(base, current, candidate);
    if current == candidate { return Merged(current, false); }
    if current == base { return Merged(candidate, false); }
    if candidate == base { return Merged(current, false); }
    var baseLines, currentLines, candidateLines := SplitLines(base), SplitLines(current), SplitLines(candidate);
    if TooLarge(baseLines, currentLines, candidateLines) { return Refused(InputTooLarge); }
    var currentHunks := DiffHunks(baseLines, currentLines);
    var candidateHunks := DiffHunks(baseLines, candidateLines);
    DiffIsDisjoint(baseLines, currentLines);
    DiffIsDisjoint(baseLines, candidateLines);
    var mergedHunks, conflict := CollectHunks(currentHunks, candidateHunks, |baseLines|);
    if conflict { return Refused(OverlappingChanges); }
    UnionIsPatch(baseLines, currentLines, candidateLines);
    UnionMembers(currentHunks, candidateHunks);
    SortedIsFlippedUnion(mergedHunks, Union(currentHunks, candidateHunks));
    var result := SpliceAll(baseLines, BackToFront(mergedHunks), Union(currentHunks, candidateHunks));
    r := Merged(Join(result), true);
  }

  /** The loop over the candidate's hunks: skip a shared hunk, stop at an overlap, else push. */
  method CollectHunks(currentHunks: seq<Hunk>, candidateHunks: seq<Hunk>, ghost n: nat)
    returns (mergedHunks: seq<Hunk>, conflict: bool)
    requires Disjoint(currentHunks) && Disjoint(candidateHunks)
    requires Within(currentHunks, 0, n) && Within(candidateHunks, 0, n)
    ensures conflict == Conflicting(currentHunks, candidateHunks)
    ensures !conflict ==> forall h :: h in mergedHunks <==> h in currentHunks || h in candidateHunks
    ensures !conflict ==> forall i, j :: 0 <= i < j < |mergedHunks| ==> mergedHunks[i] != mergedHunks[j]
  {
    mergedHunks := currentHunks;
    for k := 0 to |candidateHunks|
      invariant forall h :: h in mergedHunks <==> h in currentHunks || h in candidateHunks[..k]
      invariant forall i, j :: 0 <= i < j < |mergedHunks| ==> mergedHunks[i] != mergedHunks[j]
      invariant !Conflicting(currentHunks, candidateHunks[..k])
    {
      var h := candidateHunks[k];
      assert candidateHunks[..k + 1] == candidateHunks[..k] + [h];
      NoOverlapWithin(candidateHunks, k, n);
      if h in mergedHunks {
        OverlapsOnlyItself(h, currentHunks, n);
      } else if exists m :: m in mergedHunks && Overlaps(m, h) {
        return mergedHunks, true;
      } else {
        mergedHunks := mergedHunks + [h];
      }
    }
    assert candidateHunks[..|candidateHunks|] == candidateHunks;
    conflict := false;
  }

  lemma OverlapsOnlyItself(h: Hunk, hs: seq<Hunk>, n: nat)
    requires Disjoint(hs) && Within(hs, 0, n) && h in hs
    ensures forall x :: x in hs && x != h ==> !Overlaps(x, h)
  {
    forall x | x in hs && x != h
      ensures !Overlaps(x, h)
    {
      var i :| 0 <= i < |hs| && hs[i] == x;
      var j :| 0 <= j < |hs| && hs[j] == h;
      assert Before(x, h) || Before(h, x);
    }
  }

  lemma NoOverlapWithin(hs: seq<Hunk>, k: nat, n: nat)
    requires Disjoint(hs) && Within(hs, 0, n) && k < |hs|
    ensures forall x :: x in hs[..k] ==> x != hs[k] && !Overlaps(x, hs[k])
  {
    forall x | x in hs[..k]
      ensures x != hs[k] && !Overlaps(x, hs[k])
    {
      var i :| 0 <= i < k && hs[i] == x;
      assert Before(x, hs[k]);
    }
  }

  /** Splicing back to front leaves the positions of the hunks still to come untouched. */
  method SpliceAll(base: seq<Line>, hunks: seq<Hunk>, ghost u: seq<Hunk>) returns (result: seq<Line>)
    requires Disjoint(u) && Within(u, 0, |base|) && Flip(hunks) == u
    ensures Patch(u, 0, |base|) && result == Patched(base, 0, u)
  {
    result := base;
    ghost var pos: nat := |base|;
    for k := 0 to |hunks|
      invariant pos == if k == 0 then |base| else u[|u| - k].start
      invariant Patch(u[|u| - k..], pos, |base|)
      invariant result == base[..pos] + Patched(base, pos, u[|u| - k..])
    {
      var h := hunks[k];
      ghost var i := |u| - 1 - k;
      assert u[i] == h && h in u;
      assert u[i..] == [h] + u[i + 1..];
      assert k > 0 ==> Before(u[i], u[i + 1]) && u[i + 1] in u;
      SpliceStep(base, pos, h, u[i + 1..], result);
      result := result[..h.start] + h.replacement + result[h.end..];
      pos := h.start;
    }
    assert u[0..] == u;
    PatchedFromEarlier(base, 0, pos, u);
  }

  lemma SpliceStep(base: seq<Line>, pos: nat, h: Hunk, rest: seq<Hunk>, result: seq<Line>)
    requires 0 <= h.start <= h.end <= pos <= |base| && Patch(rest, pos, |base|)
    requires result == base[..pos] + Patched(base, pos, rest)
    ensures Patch([h] + rest, h.start, |base|)
    ensures result[..h.start] + h.replacement + result[h.end..] == base[..h.start] + Patched(base, h.start, [h] + rest)
  {
    PatchedFromEarlier(base, h.end, pos, rest);
    PatchedCons(base, h, rest);
    assert result[h.end..] == base[h.end..pos] + Patched(base, pos, rest);
    assert result[..h.start] == base[..h.start];
  }

  // ---------------------------------------------------------------- properties

  lemma ConflictingSymmetric(xs: seq<Hunk>, ys: seq<Hunk>)
    ensures Conflicting(xs, ys) == Conflicting(ys, xs)
  {
    if Conflicting(xs, ys) {
      var x, y :| x in xs && y in ys && x != y && Overlaps(x, y);
      OverlapsSymmetric(x, y);
    }
    if Conflicting(ys, xs) {
      var y, x :| y in ys && x in xs && y != x && Overlaps(y, x);
      OverlapsSymmetric(x, y);
    }
  }

  lemma MergeLinesSymmetric(base: seq<Line>, x: seq<Line>, y: seq<Line>)
    ensures MergeLines(base, x, y) == MergeLines(base, y, x)
  {
    var xs, ys := Diff(base, x), Diff(base, y);
    ConflictingSymmetric(xs, ys);
    if !Conflicting(xs, ys) {
      UnionIsPatch(base, x, y);
      UnionIsPatch(base, y, x);
      UnionMembers(xs, ys);
      UnionMembers(ys, xs);
      SameMembersSameList(Union(xs, ys), Union(ys, xs));
    }
  }

  /** Swapping the two sides changes neither the verdict nor the content. */
  lemma MergeSymmetric(base: string, x: string, y: string)
    ensures MergeText(base, x, y) == MergeText(base, y, x)
  {
    MergeLinesSymmetric(SplitLines(base), SplitLines(x), SplitLines(y));
  }

  /** A successful merge carries out both hunk sets, with distinct starts and disjoint ranges. */
  lemma MergedLinesAreUnion(base: seq<Line>, x: seq<Line>, y: seq<Line>)
    requires MergeLines(base, x, y).Some?
    ensures exists u :: Disjoint(u) && Within(u, 0, |base|) && Patch(u, 0, |base|) &&
                        (forall h :: h in u <==> h in Diff(base, x) || h in Diff(base, y)) &&
                        MergeLines(base, x, y).value == Patched(base, 0, u)
  {
    UnionIsPatch(base, x, y);
    UnionMembers(Diff(base, x), Diff(base, y));
  }

  lemma {:induction false} NoHunksWithoutChange(base: seq<Line>, pos: nat)
    requires pos <= |base|
    ensures Walk(base, base, pos, pos, None) == []
    decreases |base| - pos
  {
    if pos < |base| {
      NoHunksWithoutChange(base, pos + 1);
    }
  }

  lemma MergeOfEqualSides(base: seq<Line>, x: seq<Line>)
    ensures MergeLines(base, x, x) == Some(x)
  {
    var xs := Diff(base, x);
    DiffIsDisjoint(base, x);
    forall a, b | a in xs && b in xs && a != b
      ensures !Overlaps(a, b)
    {
      OverlapsOnlyItself(b, xs, |base|);
    }
    UnionIsPatch(base, x, x);
    UnionMembers(xs, xs);
    SameMembersSameList(Union(xs, xs), xs);
    DiffIsCorrect(base, x);
  }

  lemma MergeWithUnchangedSide(base: seq<Line>, x: seq<Line>)
    ensures MergeLines(base, base, x) == Some(x)
    ensures MergeLines(base, x, base) == Some(x)
  {
    NoHunksWithoutChange(base, 0);
    UnionIsPatch(base, base, x);
    DiffIsCorrect(base, x);
    MergeLinesSymmetric(base, base, x);
  }

  /** Each early return gives the content that the general path would give. */
  lemma EarlyReturnsAgree(base: string, x: string)
    ensures MergeByHunks(base, x, x) == Merged(MergeText(base, x, x).content, true)
    ensures MergeByHunks(base, base, x) == Merged(MergeText(base, base, x).content, true)
    ensures MergeByHunks(base, x, base) == Merged(MergeText(base, x, base).content, true)
  {
    JoinSplitLines(x);
    MergeOfEqualSides(SplitLines(base), SplitLines(x));
    MergeWithUnchangedSide(SplitLines(base), SplitLines(x));
  }

  // ---------------------------------------------------------------- what a result says

  /** Any two different hunks of the two lists lie one wholly before the other. */
  ghost predicate Compatible(xs: seq<Hunk>, ys: seq<Hunk>) {
    forall x, y :: x in xs && y in ys && x != y ==> Before(x, y) || Before(y, x)
  }

  /** `u` is one patch of `n` lines, and its hunks are exactly those of both lists. */
  ghost predicate Combines(u: seq<Hunk>, xs: seq<Hunk>, ys: seq<Hunk>, n: nat) {
    Disjoint(u) && Within(u, 0, n) && Patch(u, 0, n) && forall h :: h in u <==> h in xs || h in ys
  }

  ghost predicate FitsTable(base: seq<Line>, side: seq<Line>) {
    (|base| + 1) * (|side| + 1) <= 4_000_000
  }

  /** The base with the hunks of both diffs carried out; or, just as well, the current lines with the candidate's own
      hunks carried out where the current ones have moved them. */
  ghost predicate HoldsBothEdits(base: seq<Line>, current: seq<Line>, candidate: seq<Line>, content: string) {
    var xs, ys := Diff(base, current), Diff(base, candidate);
    var moved := Rebase(xs, Only(ys, xs), 0);
    (exists u :: Combines(u, xs, ys, |base|) && content == Join(Patched(base, 0, u))) &&
    Patch(moved, 0, |current|) && content == Join(Patched(current, 0, moved))
  }

  /**
    What a result says about the three texts. A side that agrees with the base, or with the other side, gives way.
    Otherwise the merge succeeds if and only if the texts fit the table and the edits are compatible, and then holds
    both edits.
   */
  ghost predicate ThreeWay(base: string, current: string, candidate: string, r: MergeResult) {
    if current == candidate || candidate == base then r == Merged(current, false)
    else if current == base then r == Merged(candidate, false)
    else
      var b, x, y := SplitLines(base), SplitLines(current), SplitLines(candidate);
      var fits := FitsTable(b, x) && FitsTable(b, y);
      (r.Merged? <==> fits && Compatible(Diff(b, x), Diff(b, y))) &&
      if r.Merged? then r.merged && HoldsBothEdits(b, x, y, r.content)
      else r.reason == if fits then OverlappingChanges else InputTooLarge
  }

  lemma CompatibleIsNotConflicting(xs: seq<Hunk>, ys: seq<Hunk>, n: nat)
    requires Within(xs, 0, n) && Within(ys, 0, n)
    ensures Compatible(xs, ys) <==> !Conflicting(xs, ys)
  {
    forall x, y | x in xs && y in ys && x != y
      ensures Overlaps(x, y) <==> !Before(x, y) && !Before(y, x)
    {
      OverlapsIffNeitherBefore(x, y);
    }
  }

  /** The pairwise test of the program, exactly. */
  lemma OverlapsIffNeitherBefore(x: Hunk, y: Hunk)
    requires x.start <= x.end && y.start <= y.end && x != y
    ensures Overlaps(x, y) <==> !Before(x, y) && !Before(y, x)
  {
  }

  lemma MergeTextIsThreeWay(base: string, current: string, candidate: string)
    ensures ThreeWay(base, current, candidate, MergeText(base, current, candidate))
  {
    var b, x, y := SplitLines(base), SplitLines(current), SplitLines(candidate);
    DiffIsDisjoint(b, x);
    DiffIsDisjoint(b, y);
    CompatibleIsNotConflicting(Diff(b, x), Diff(b, y), |b|);
    if !Conflicting(Diff(b, x), Diff(b, y)) { MergedLinesHoldBothEdits(b, x, y); }
  }

  lemma MergedLinesHoldBothEdits(base: seq<Line>, current: seq<Line>, candidate: seq<Line>)
    requires MergeLines(base, current, candidate).Some?
    ensures HoldsBothEdits(base, current, candidate, Join(MergeLines(base, current, candidate).value))
  {
    MergedLinesAreUnion(base, current, candidate);
    MergeIsRebase(base, current, candidate);
    var u :| Combines(u, Diff(base, current), Diff(base, candidate), |base|) &&
      MergeLines(base, current, candidate).value == Patched(base, 0, u);
  }

  // ---------------------------------------------------------------- merging as rebasing

  /** How far the hunks of `cs` before base position `p` move what follows. */
  ghost function Delta(cs: seq<Hunk>, p: int): int {
    if cs == [] then 0
    else (if cs[0].start < p then |cs[0].replacement| - (cs[0].end - cs[0].start) else 0) + Delta(cs[1..], p)
  }

  ghost function MoveBy(hs: seq<Hunk>, shift: int): seq<Hunk> {
    seq(|hs|, i requires 0 <= i < |hs| => Hunk(hs[i].start + shift, hs[i].end + shift, hs[i].replacement))
  }

  /** The hunks of `ds` moved to where the hunks of `cs` leave them, counted from base position `pos`. */
  ghost function Rebase(cs: seq<Hunk>, ds: seq<Hunk>, pos: int): seq<Hunk> {
    seq(|ds|, i requires 0 <= i < |ds| =>
      var shift := Delta(cs, ds[i].start) - pos; Hunk(ds[i].start + shift, ds[i].end + shift, ds[i].replacement))
  }

  lemma {:induction false} PatchedBehindPrefix(x: seq<Line>, y: seq<Line>, p: nat, hs: seq<Hunk>)
    requires Patch(hs, p, |y|)
    ensures Patch(MoveBy(hs, |x|), |x| + p, |x + y|)
    ensures Patched(x + y, |x| + p, MoveBy(hs, |x|)) == Patched(y, p, hs)
    decreases hs
  {
    PatchEndsInside(hs, p, |y|);
    if hs == [] {
      assert (x + y)[|x| + p..] == y[p..];
    } else {
      var h, rest := hs[0], hs[1..];
      PatchedBehindPrefix(x, y, h.end, rest);
      var moved := MoveBy(rest, |x|);
      assert MoveBy(hs, |x|) == [Hunk(h.start + |x|, h.end + |x|, h.replacement)] + moved;
      PatchEndsInside(rest, h.end, |y|);
      ConsBehindPrefix(x, y, p, h, rest, moved);
      assert hs == [h] + rest;
    }
  }

  lemma {:induction false} ConsBehindPrefix(x: seq<Line>, y: seq<Line>, p: nat, h: Hunk, rest: seq<Hunk>,
                                            moved: seq<Hunk>)
    requires p <= h.start <= h.end <= |y| && Patch(rest, h.end, |y|)
    requires Patch(moved, |x| + h.end, |x + y|) && Patched(x + y, |x| + h.end, moved) == Patched(y, h.end, rest)
    ensures var first := Hunk(h.start + |x|, h.end + |x|, h.replacement);
      Patch([first] + moved, |x| + p, |x + y|) && Patch([h] + rest, p, |y|) &&
      Patched(x + y, |x| + p, [first] + moved) == Patched(y, p, [h] + rest)
  {
    var first := Hunk(h.start + |x|, h.end + |x|, h.replacement);
    assert ([first] + moved)[1..] == moved && ([h] + rest)[1..] == rest;
    assert (x + y)[|x| + p..first.start] == y[p..h.start];
  }

  ghost predicate Apart(cs: seq<Hunk>, ds: seq<Hunk>) {
    forall c, d :: c in cs && d in ds ==> Before(c, d) || Before(d, c)
  }

  lemma {:induction false} DeltaIsZero(cs: seq<Hunk>, p: int)
    requires forall c :: c in cs ==> p <= c.start
    ensures Delta(cs, p) == 0
  {
    if cs != [] { DeltaIsZero(cs[1..], p); }
  }

  ghost predicate Rebases(base: seq<Line>, pos: nat, cs: seq<Hunk>, ds: seq<Hunk>)
    requires Patch(cs, pos, |base|) && Patch(Union(cs, ds), pos, |base|)
  {
    var current := Patched(base, pos, cs);
    Patch(Rebase(cs, ds, pos), 0, |current|) &&
    Patched(current, 0, Rebase(cs, ds, pos)) == Patched(base, pos, Union(cs, ds))
  }

  lemma {:induction false} RebasedPatch(base: seq<Line>, pos: nat, cs: seq<Hunk>, ds: seq<Hunk>)
    requires Disjoint(cs) && Disjoint(ds) && Apart(cs, ds) && pos <= |base|
    requires Within(cs, pos, |base|) && Within(ds, pos, |base|)
    requires Patch(cs, pos, |base|) && Patch(Union(cs, ds), pos, |base|)
    ensures Rebases(base, pos, cs, ds)
    decreases |cs| + |ds|
  {
    if ds == [] {
      assert Union(cs, ds) == cs;
    } else if cs != [] && cs[0].start <= ds[0].start {
      assert cs[0] != ds[0] by { assert cs[0] in cs && ds[0] in ds; }
      TailIsDisjoint(cs);
      AllBefore(cs[0], cs, ds);
      assert Union(cs, ds) == [cs[0]] + Union(cs[1..], ds);
      assert Union(cs, ds)[1..] == Union(cs[1..], ds);
      RebasedPatch(base, cs[0].end, cs[1..], ds);
      RebaseBehindCurrent(base, pos, cs, ds);
    } else {
      TailIsDisjoint(ds);
      if cs != [] {
        assert cs[0] in cs && ds[0] in ds;
        AllBefore(ds[0], ds, cs);
      }
      assert Union(cs, ds)[1..] == Union(cs, ds[1..]);
      DisjointIsPatch(cs, ds[0].end, |base|);
      RebasedPatch(base, ds[0].end, cs, ds[1..]);
      RebaseFirstCandidate(base, pos, cs, ds);
    }
  }

  lemma AllBefore(x: Hunk, xs: seq<Hunk>, ys: seq<Hunk>)
    requires Disjoint(ys) && ys != [] && x in xs && x.start <= ys[0].start
    requires forall y :: y in ys ==> Before(x, y) || Before(y, x)
    ensures forall y :: y in ys ==> Before(x, y)
  {
    TailIsDisjoint(ys);
    forall y | y in ys
      ensures Before(x, y)
    {
      if y != ys[0] { assert y in ys[1..]; }
    }
  }

  lemma RebaseMoves(cs: seq<Hunk>, ds: seq<Hunk>, pos: int)
    requires cs != [] && forall d :: d in ds ==> Before(cs[0], d)
    ensures Rebase(cs, ds, pos) == MoveBy(Rebase(cs[1..], ds, cs[0].end), cs[0].start - pos + |cs[0].replacement|)
  {
    forall i | 0 <= i < |ds|
      ensures Before(cs[0], ds[i])
    {
      assert ds[i] in ds;
    }
  }

  /** `inner`, which fits behind `c`, moved to the lines that `c` and `rest` leave. */
  lemma BehindCurrent(base: seq<Line>, pos: nat, c: Hunk, rest: seq<Hunk>, inner: seq<Hunk>, union: seq<Hunk>)
    requires pos <= c.start <= c.end && Patch(rest, c.end, |base|) && Patch(union, c.end, |base|)
    requires Patch(inner, 0, |Patched(base, c.end, rest)|)
    requires Patched(Patched(base, c.end, rest), 0, inner) == Patched(base, c.end, union)
    ensures Patch([c] + rest, pos, |base|) && Patch([c] + union, pos, |base|)
    ensures var current, moved := Patched(base, pos, [c] + rest), MoveBy(inner, c.start - pos + |c.replacement|);
      Patch(moved, 0, |current|) && Patched(current, 0, moved) == Patched(base, pos, [c] + union)
  {
    var x := base[pos..c.start] + c.replacement;
    PatchedStep(base, pos, c, rest);
    PatchedStep(base, pos, c, union);
    MovedBehind(x, Patched(base, c.end, rest), inner);
    assert |x| == c.start - pos + |c.replacement|;
  }

  lemma {:induction false} RebaseBehindCurrent(base: seq<Line>, pos: nat, cs: seq<Hunk>, ds: seq<Hunk>)
    requires cs != [] && ds != [] && Patch(cs, pos, |base|) && Patch(Union(cs, ds), pos, |base|)
    requires forall d :: d in ds ==> Before(cs[0], d)
    requires Union(cs, ds) == [cs[0]] + Union(cs[1..], ds) && Rebases(base, cs[0].end, cs[1..], ds)
    ensures Rebases(base, pos, cs, ds)
  {
    var c, rest := cs[0], cs[1..];
    RebaseMoves(cs, ds, pos);
    BehindCurrent(base, pos, c, rest, Rebase(rest, ds, c.end), Union(rest, ds));
    assert cs == [c] + rest;
  }

  lemma MovedBehind(x: seq<Line>, y: seq<Line>, inner: seq<Hunk>)
    requires Patch(inner, 0, |y|)
    ensures var moved := MoveBy(inner, |x|);
      Patch(moved, 0, |x + y|) && Patched(x + y, 0, moved) == x + Patched(y, 0, inner)
  {
    PatchedBehindPrefix(x, y, 0, inner);
    PatchedFromEarlier(x + y, 0, |x|, MoveBy(inner, |x|));
    assert (x + y)[0..|x|] == x;
  }

  lemma RebaseSplits(cs: seq<Hunk>, ds: seq<Hunk>, pos: int)
    requires ds != [] && forall c :: c in cs ==> Before(ds[0], c)
    ensures Rebase(cs, ds, pos) == [Hunk(ds[0].start - pos, ds[0].end - pos, ds[0].replacement)] +
                                   MoveBy(Rebase(cs, ds[1..], ds[0].end), ds[0].end - pos)
  {
    DeltaIsZero(cs, ds[0].start);
  }

  lemma {:induction false} ReplaceInPrefix(x: seq<Line>, y: seq<Line>, first: Hunk, inner: seq<Hunk>)
    requires 0 <= first.start <= first.end == |x| && Patch(inner, 0, |y|)
    ensures var hs := [first] + MoveBy(inner, |x|);
      Patch(hs, 0, |x + y|) && Patched(x + y, 0, hs) == x[..first.start] + first.replacement + Patched(y, 0, inner)
  {
    PatchedBehindPrefix(x, y, 0, inner);
    PatchedCons(x + y, first, MoveBy(inner, |x|));
    PatchedFromEarlier(x + y, 0, first.start, [first] + MoveBy(inner, |x|));
    assert (x + y)[0..first.start] == x[..first.start];
  }

  lemma FirstCandidate(base: seq<Line>, pos: nat, d: Hunk, cs: seq<Hunk>, inner: seq<Hunk>, union: seq<Hunk>)
    requires pos <= d.start <= d.end <= |base| && Patch(cs, d.end, |base|) && Patch(union, d.end, |base|)
    requires Patch(inner, 0, |Patched(base, d.end, cs)|)
    requires Patched(Patched(base, d.end, cs), 0, inner) == Patched(base, d.end, union)
    ensures Patch(cs, pos, |base|) && Patch([d] + union, pos, |base|)
    ensures var current := Patched(base, pos, cs);
      var moved := [Hunk(d.start - pos, d.end - pos, d.replacement)] + MoveBy(inner, d.end - pos);
      Patch(moved, 0, |current|) && Patched(current, 0, moved) == Patched(base, pos, [d] + union)
  {
    PatchedFromEarlier(base, pos, d.end, cs);
    PatchedStep(base, pos, d, union);
    SliceOfSlice(base, pos, d.start, d.end);
    ReplaceInPrefix(base[pos..d.end], Patched(base, d.end, cs), Hunk(d.start - pos, d.end - pos, d.replacement), inner);
  }

  lemma {:induction false} RebaseFirstCandidate(base: seq<Line>, pos: nat, cs: seq<Hunk>, ds: seq<Hunk>)
    requires ds != [] && Patch(cs, pos, |base|) && Patch(Union(cs, ds), pos, |base|)
    requires pos <= ds[0].start <= ds[0].end <= |base| && Patch(cs, ds[0].end, |base|)
    requires forall c :: c in cs ==> Before(ds[0], c)
    requires Union(cs, ds) == [ds[0]] + Union(cs, ds[1..])
    requires Rebases(base, ds[0].end, cs, ds[1..])
    ensures Rebases(base, pos, cs, ds)
  {
    RebaseSplits(cs, ds, pos);
    FirstCandidate(base, pos, ds[0], cs, Rebase(cs, ds[1..], ds[0].end), Union(cs, ds[1..]));
  }

  lemma SliceOfSlice(base: seq<Line>, i: nat, j: nat, k: nat)
    requires i <= j <= k <= |base|
    ensures base[i..k][..j - i] == base[i..j]
  {
  }

  lemma {:induction false} OnlyMembers(ys: seq<Hunk>, xs: seq<Hunk>)
    requires Disjoint(ys)
    ensures forall h :: h in Only(ys, xs) <==> h in ys && h !in xs
    ensures Disjoint(Only(ys, xs))
  {
    if ys != [] {
      TailIsDisjoint(ys);
      OnlyMembers(ys[1..], xs);
      var rest := Only(ys[1..], xs);
      HeadFirst(ys[0], rest);
      assert [] + rest == rest;
    }
  }

  /**
    A successful merge is a rebase: the candidate's own hunks, each moved by the length changes of
    the current hunks before it, carried out on the current lines, give the merged lines.
   */
  lemma MergeIsRebase(base: seq<Line>, current: seq<Line>, candidate: seq<Line>)
    requires MergeLines(base, current, candidate).Some?
    ensures var cs := Diff(base, current); var moved := Rebase(cs, Only(Diff(base, candidate), cs), 0);
      Patch(moved, 0, |current|) && Patched(current, 0, moved) == MergeLines(base, current, candidate).value
  {
    var cs, ys := Diff(base, current), Diff(base, candidate);
    var ds := Only(ys, cs);
    DiffIsDisjoint(base, current);
    DiffIsDisjoint(base, candidate);
    DiffIsCorrect(base, current);
    OnlyMembers(ys, cs);
    assert !Conflicting(cs, ds);
    UnionIsDisjoint(cs, ds, |base|);
    UnionIsPatch(base, current, candidate);
    UnionMembers(cs, ds);
    UnionMembers(cs, ys);
    SameMembersSameList(Union(cs, ds), Union(cs, ys));
    forall c, d | c in cs && d in ds
      ensures Before(c, d) || Before(d, c)
    {
      OverlapsSymmetric(c, d);
      if c.start <= d.start { NotOverlappingIsApart(c, d); } else { NotOverlappingIsApart(d, c); }
    }
    RebasedPatch(base, 0, cs, ds);
  }

  /** Both orders of rebasing meet: current's own hunks on the candidate give the same lines. */
  lemma RebasesMeet(base: seq<Line>, current: seq<Line>, candidate: seq<Line>)
    requires !Conflicting(Diff(base, current), Diff(base, candidate))
    ensures var xs, ys := Diff(base, current), Diff(base, candidate);
      var onCurrent, onCandidate := Rebase(xs, Only(ys, xs), 0), Rebase(ys, Only(xs, ys), 0);
      Patch(onCurrent, 0, |current|) && Patch(onCandidate, 0, |candidate|) &&
      Patched(current, 0, onCurrent) == Patched(candidate, 0, onCandidate)
  {
    MergeLinesSymmetric(base, current, candidate);
    MergeIsRebase(base, current, candidate);
    MergeIsRebase(base, candidate, current);
  }
}
