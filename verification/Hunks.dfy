/**
  Line patches: `diffHunks`, what a list of hunks does to a list of lines, and the proof that
  `diffHunks` returns a correct patch that removes and inserts as little as any patch can.
 */
module Hunks {

  import opened Lcs
  import opened Options

  /** Replace the lines `start..end` of the base by `replacement`. */
  datatype Hunk = Hunk(start: int, end: int, replacement: seq<Line>)

  newtype uint32 = x: int | 0 <= x < 0x1_0000_0000

  const MAX_LCS_CELLS: nat := 4_000_000

  /** `hs` lists disjoint ranges of a base of `n` lines, front to back, none before `lo`. */
  ghost predicate Patch(hs: seq<Hunk>, lo: nat, n: nat) {
    if hs == [] then lo <= n
    else lo <= hs[0].start <= hs[0].end <= n && Patch(hs[1..], hs[0].end, n)
  }

  /** The lines from `pos` on, after all hunks have been carried out. */
  ghost function Patched(base: seq<Line>, pos: nat, hs: seq<Hunk>): seq<Line>
    requires Patch(hs, pos, |base|)
    decreases hs
  {
    if hs == [] then base[pos..]
    else base[pos..hs[0].start] + hs[0].replacement + Patched(base, hs[0].end, hs[1..])
  }

  /** The base lines from `pos` on that no hunk removes. */
  ghost function Kept(base: seq<Line>, pos: nat, hs: seq<Hunk>): seq<Line>
    requires Patch(hs, pos, |base|)
    decreases hs
  {
    if hs == [] then base[pos..]
    else base[pos..hs[0].start] + Kept(base, hs[0].end, hs[1..])
  }

  ghost function Removed(hs: seq<Hunk>): int {
    if hs == [] then 0 else hs[0].end - hs[0].start + Removed(hs[1..])
  }

  ghost function Inserted(hs: seq<Hunk>): nat {
    if hs == [] then 0 else |hs[0].replacement| + Inserted(hs[1..])
  }

  /** Between two consecutive hunks at least one base line is kept. */
  ghost predicate Separated(hs: seq<Hunk>) {
    forall i, j :: 0 <= i < j < |hs| ==> hs[i].end < hs[j].start
  }

  ghost predicate NonTrivial(h: Hunk) {
    h.start < h.end || h.replacement != []
  }

  // ---------------------------------------------------------------- the walk

  function Flush(active: Option<Hunk>): seq<Hunk> {
    if active.Some? then [active.value] else []
  }

  function Open(active: Option<Hunk>, left: nat): Hunk {
    if active.Some? then active.value else Hunk(left, left, [])
  }

  /** The tie-break of `diffHunks`: insert unless removing keeps strictly more lines. */
  predicate Inserts(base: seq<Line>, target: seq<Line>, left: nat, right: nat)
    requires left <= |base| && right <= |target|
  {
    right < |target| &&
    (left == |base| || Length(base[left..], target[right + 1..]) >= Length(base[left + 1..], target[right..]))
  }

  /** The hunks still to be produced when the walk stands at `left`, `right` with `active` open. */
  function Walk(base: seq<Line>, target: seq<Line>, left: nat, right: nat, active: Option<Hunk>): seq<Hunk>
    requires left <= |base| && right <= |target|
    decreases |base| - left + |target| - right
  {
    if left == |base| && right == |target| then Flush(active)
    else if left < |base| && right < |target| && base[left] == target[right] then
      Flush(active) + Walk(base, target, left + 1, right + 1, None)
    else
      var a := Open(active, left);
      if Inserts(base, target, left, right) then
        Walk(base, target, left, right + 1, Some(a.(replacement := a.replacement + [target[right]])))
      else
        Walk(base, target, left + 1, right, Some(a.(end := left + 1)))
  }

  /** What `diffHunks` returns. */
  function Diff(base: seq<Line>, target: seq<Line>): seq<Hunk> {
    Walk(base, target, 0, 0, None)
  }

  // ---------------------------------------------------------------- the table

  function Cell(width: nat, left: nat, right: nat): nat {
    left * width + right
  }

  lemma CellInRange(width: nat, rows: nat, left: nat, right: nat)
    requires left < rows && right < width
    ensures Cell(width, left, right) < rows * width
  {
    assert (left + 1) * width <= rows * width;
  }

  lemma CellOutsideRow(width: nat, row: nat, left: nat, right: nat)
    requires left != row && right < width
    ensures Cell(width, left, right) < row * width || (row + 1) * width <= Cell(width, left, right)
  {
    if left < row {
      assert (left + 1) * width <= row * width;
    } else {
      assert (row + 1) * width <= left * width;
    }
  }

  ghost predicate Holds(table: array<uint32>, base: seq<Line>, target: seq<Line>, left: nat, right: nat)
    reads table
    requires left <= |base| && right <= |target|
  {
    var cell := Cell(|target| + 1, left, right);
    cell < table.Length && table[cell] as int == Length(base[left..], target[right..])
  }

  ghost predicate Filled(table: array<uint32>, base: seq<Line>, target: seq<Line>, from: nat)
    reads table
    requires from <= |base| + 1
  {
    forall l, r :: from <= l <= |base| && 0 <= r <= |target| ==> Holds(table, base, target, l, r)
  }

  /** Fills the flat table bottom-up; the entries fit in 32 bits because of the cell limit. */
  method FillTable(base: seq<Line>, target: seq<Line>) returns (table: array<uint32>)
    requires (|base| + 1) * (|target| + 1) <= MAX_LCS_CELLS
    ensures fresh(table)
    ensures table.Length == (|base| + 1) * (|target| + 1)
    ensures Filled(table, base, target, 0)
  {
    var width := |target| + 1;
    table := new uint32[(|base| + 1) * width](_ => 0);
    var left := |base|;
    forall r | 0 <= r <= |target|
      ensures Holds(table, base, target, |base|, r)
    {
      CellInRange(width, |base| + 1, |base|, r);
    }
    while left > 0
      invariant 0 <= left <= |base|
      invariant left * width <= table.Length
      invariant forall c :: 0 <= c < left * width ==> table[c] == 0
      invariant Filled(table, base, target, left)
    {
      left := left - 1;
      assert left * width + width == (left + 1) * width;
      CellInRange(width, |base| + 1, left, |target|);
      assert Holds(table, base, target, left, |target|);
      FillRow(table, base, target, left);
    }
  }

  /** One pass of the inner loop: row `left` from row `left + 1`, touching no other row. */
  method FillRow(table: array<uint32>, base: seq<Line>, target: seq<Line>, left: nat)
    requires left < |base|
    requires table.Length == (|base| + 1) * (|target| + 1) <= MAX_LCS_CELLS
    requires Filled(table, base, target, left + 1)
    requires Holds(table, base, target, left, |target|)
    modifies table
    ensures forall c :: 0 <= c < left * (|target| + 1) && c < table.Length ==> table[c] == old(table[c])
    ensures Filled(table, base, target, left)
  {
    var width := |target| + 1;
    var right := |target|;
    while right > 0
      invariant 0 <= right <= |target|
      invariant forall c :: 0 <= c < left * width && c < table.Length ==> table[c] == old(table[c])
      invariant Filled(table, base, target, left + 1)
      invariant forall r :: right <= r <= |target| ==> Holds(table, base, target, left, r)
    {
      right := right - 1;
      assert Holds(table, base, target, left + 1, right + 1);
      assert Holds(table, base, target, left + 1, right);
      assert Holds(table, base, target, left, right + 1);
      var entry := Entry(base[left] == target[right], table[Cell(width, left + 1, right + 1)],
                         table[Cell(width, left + 1, right)], table[Cell(width, left, right + 1)]);
      TailCells(base, target, left, right);
      LengthAtMost(base[left..], target[right..]);
      Store(table, base, target, left, right, entry);
    }
  }

  /** One table entry, in 32-bit arithmetic. */
  function Entry(same: bool, diagonal: uint32, below: uint32, beside: uint32): uint32 {
    if same then ((diagonal as int + 1) % 0x1_0000_0000) as uint32
    else if below >= beside then below else beside
  }

  method Store(table: array<uint32>, base: seq<Line>, target: seq<Line>, left: nat, right: nat, entry: uint32)
    requires left < |base| && right < |target|
    requires table.Length == (|base| + 1) * (|target| + 1)
    requires Filled(table, base, target, left + 1)
    requires forall r :: right < r <= |target| ==> Holds(table, base, target, left, r)
    requires entry as int == Length(base[left..], target[right..])
    modifies table
    ensures forall c :: 0 <= c < left * (|target| + 1) && c < table.Length ==> table[c] == old(table[c])
    ensures Filled(table, base, target, left + 1)
    ensures forall r :: right <= r <= |target| ==> Holds(table, base, target, left, r)
  {
    var offset := Cell(|target| + 1, left, right);
    CellInRange(|target| + 1, |base| + 1, left, right);
    table[offset] := entry;
    forall l, r | left <= l <= |base| && 0 <= r <= |target| && (l == left ==> right <= r)
      ensures Holds(table, base, target, l, r)
    {
      assert offset != Cell(|target| + 1, l, r) || (l == left && r == right) by {
        if l != left { CellOutsideRow(|target| + 1, left, l, r); }
      }
      if l != left || r != right {
        assert old(Holds(table, base, target, l, r));
      }
    }
  }

  lemma {:induction false} TailCells(base: seq<Line>, target: seq<Line>, left: nat, right: nat)
    requires left < |base| && right < |target|
    ensures base[left..][1..] == base[left + 1..] && target[right..][1..] == target[right + 1..]
    ensures base[left] == target[right] ==>
              Length(base[left..], target[right..]) == Length(base[left + 1..], target[right + 1..]) + 1
    ensures base[left] != target[right] ==>
              Length(base[left..], target[right..]) ==
              Max(Length(base[left + 1..], target[right..]), Length(base[left..], target[right + 1..]))
  {
    assert base[left..][1..] == base[left + 1..] && target[right..][1..] == target[right + 1..];
  }

  /** `diffHunks`: fill the table, then walk it. */
  method DiffHunks(base: seq<Line>, target: seq<Line>) returns (hunks: seq<Hunk>)
    requires (|base| + 1) * (|target| + 1) <= MAX_LCS_CELLS
    ensures hunks == Diff(base, target)
  {
    var width := |target| + 1;
    var table := FillTable(base, target);
    hunks := [];
    var left, right := 0, 0;
    var active: Option<Hunk> := None;
    while left < |base| || right < |target|
      invariant left <= |base| && right <= |target|
      invariant hunks + Walk(base, target, left, right, active) == Diff(base, target)
      decreases |base| - left + |target| - right
    {
      if left < |base| && right < |target| && base[left] == target[right] {
        assert hunks + (Flush(active) + Walk(base, target, left + 1, right + 1, None)) ==
               (hunks + Flush(active)) + Walk(base, target, left + 1, right + 1, None);
        hunks := hunks + Flush(active);
        active := None;
        left := left + 1;
        right := right + 1;
        continue;
      }
      var a := Open(active, left);
      var insert := right < |target|;
      if insert && left < |base| {
        assert Holds(table, base, target, left, right + 1) && Holds(table, base, target, left + 1, right);
        insert := table[Cell(width, left, right + 1)] >= table[Cell(width, left + 1, right)];
      }
      assert insert == Inserts(base, target, left, right);
      if insert {
        active := Some(a.(replacement := a.replacement + [target[right]]));
        right := right + 1;
      } else {
        left := left + 1;
        active := Some(a.(end := left));
      }
    }
    hunks := hunks + Flush(active);
  }

  // ---------------------------------------------------------------- correctness of the walk

  ghost predicate WalkState(base: seq<Line>, target: seq<Line>, left: nat, right: nat, active: Option<Hunk>) {
    left <= |base| && right <= |target| &&
    (active.Some? ==> 0 <= active.value.start <= active.value.end == left && NonTrivial(active.value))
  }

  ghost function Origin(left: nat, active: Option<Hunk>): int {
    if active.Some? then active.value.start else left
  }

  /** A hunk that is open is the next to come, with at least what it has so far. */
  lemma {:induction false} OpenHunkStays(base: seq<Line>, target: seq<Line>, left: nat, right: nat, a: Hunk)
    requires left <= |base| && right <= |target|
    requires a.end <= left
    ensures var hs := Walk(base, target, left, right, Some(a));
      hs != [] && hs[0].start == a.start && a.end <= hs[0].end && a.replacement <= hs[0].replacement
    decreases |base| - left + |target| - right
  {
    if (left < |base| || right < |target|) && !(left < |base| && right < |target| && base[left] == target[right]) {
      if Inserts(base, target, left, right) {
        OpenHunkStays(base, target, left, right + 1, a.(replacement := a.replacement + [target[right]]));
      } else {
        OpenHunkStays(base, target, left + 1, right, a.(end := left + 1));
      }
    }
  }

  /** Hunks between `lo` and `n`, none of them empty, with a line of the base between any two. */
  ghost predicate Spaced(hs: seq<Hunk>, lo: int, n: nat) {
    Separated(hs) && forall i :: 0 <= i < |hs| ==> lo <= hs[i].start <= hs[i].end <= n && NonTrivial(hs[i])
  }

  lemma SpacedAfterFlush(active: Option<Hunk>, left: nat, rest: seq<Hunk>, n: nat)
    requires active.Some? ==> 0 <= active.value.start <= active.value.end == left && NonTrivial(active.value)
    requires left < n && Spaced(rest, left + 1, n)
    ensures Spaced(Flush(active) + rest, Origin(left, active), n)
  {
    if active.Some? {
      var hs := [active.value] + rest;
      assert forall i :: 1 <= i < |hs| ==> hs[i] == rest[i - 1];
    } else {
      assert Flush(active) + rest == rest;
    }
  }

  /** Every remaining hunk lies at or after the open one, and they are pairwise separated. */
  lemma {:induction false} WalkIsSeparated(base: seq<Line>, target: seq<Line>, left: nat, right: nat,
                                           active: Option<Hunk>)
    requires WalkState(base, target, left, right, active)
    ensures Spaced(Walk(base, target, left, right, active), Origin(left, active), |base|)
    decreases |base| - left + |target| - right
  {
    var hs := Walk(base, target, left, right, active);
    if left == |base| && right == |target| {
      assert hs == Flush(active);
    } else if left < |base| && right < |target| && base[left] == target[right] {
      var rest := Walk(base, target, left + 1, right + 1, None);
      WalkIsSeparated(base, target, left + 1, right + 1, None);
      SpacedAfterFlush(active, left, rest, |base|);
      assert hs == Flush(active) + rest;
    } else {
      var a := Open(active, left);
      if Inserts(base, target, left, right) {
        var next := Some(a.(replacement := a.replacement + [target[right]]));
        WalkIsSeparated(base, target, left, right + 1, next);
        assert hs == Walk(base, target, left, right + 1, next);
      } else {
        var next := Some(a.(end := left + 1));
        WalkIsSeparated(base, target, left + 1, right, next);
        assert hs == Walk(base, target, left + 1, right, next);
      }
    }
  }

  /** Carrying out `hs` completes the replacement in hand and yields the rest of the target. */
  ghost predicate Completes(base: seq<Line>, target: seq<Line>, left: nat, right: nat, active: Option<Hunk>,
                            hs: seq<Hunk>)
    requires WalkState(base, target, left, right, active)
  {
    Patch(hs, Origin(left, active), |base|) &&
    Patched(base, Origin(left, active), hs) == Open(active, left).replacement + target[right..]
  }

  lemma {:induction false} WalkCompletes(base: seq<Line>, target: seq<Line>, left: nat, right: nat,
                                         active: Option<Hunk>)
    requires WalkState(base, target, left, right, active)
    ensures Completes(base, target, left, right, active, Walk(base, target, left, right, active))
    decreases |base| - left + |target| - right
  {
    if left == |base| && right == |target| {
      CompletesFlush(base, left, active, []);
      assert Flush(active) + [] == Flush(active);
    } else if left < |base| && right < |target| && base[left] == target[right] {
      WalkCompletes(base, target, left + 1, right + 1, None);
      CompletesAfterMatch(base, target, left, right, active, Walk(base, target, left + 1, right + 1, None));
    } else {
      var a := Open(active, left);
      if Inserts(base, target, left, right) {
        var next := Some(a.(replacement := a.replacement + [target[right]]));
        WalkCompletes(base, target, left, right + 1, next);
        CompletesAfterInsert(base, target, left, right, active, Walk(base, target, left, right + 1, next));
      } else {
        var next := Some(a.(end := left + 1));
        WalkCompletes(base, target, left + 1, right, next);
      }
    }
  }

  lemma {:induction false} CompletesAfterInsert(base: seq<Line>, target: seq<Line>, left: nat, right: nat,
                                                active: Option<Hunk>, hs: seq<Hunk>)
    requires WalkState(base, target, left, right, active) && right < |target|
    requires var a := Open(active, left);
      Completes(base, target, left, right + 1, Some(a.(replacement := a.replacement + [target[right]])), hs)
    ensures Completes(base, target, left, right, active, hs)
  {
    assert Open(active, left).replacement + [target[right]] + target[right + 1..] ==
      Open(active, left).replacement + target[right..];
  }

  lemma {:induction false} CompletesAfterMatch(base: seq<Line>, target: seq<Line>, left: nat, right: nat,
                                               active: Option<Hunk>, rest: seq<Hunk>)
    requires WalkState(base, target, left, right, active)
    requires left < |base| && right < |target| && base[left] == target[right]
    requires Completes(base, target, left + 1, right + 1, None, rest)
    ensures Completes(base, target, left, right, active, Flush(active) + rest)
  {
    MatchedLine(base, target, left, right, rest);
    CompletesFlush(base, left, active, rest);
  }

  lemma MatchedLine(base: seq<Line>, target: seq<Line>, left: nat, right: nat, rest: seq<Hunk>)
    requires left < |base| && right < |target| && base[left] == target[right]
    requires Patch(rest, left + 1, |base|) && Patched(base, left + 1, rest) == [] + target[right + 1..]
    ensures Patch(rest, left, |base|) && Patched(base, left, rest) == target[right..]
  {
    PatchedFromEarlier(base, left, left + 1, rest);
    assert base[left..left + 1] + target[right + 1..] == target[right..];
  }

  lemma CompletesFlush(base: seq<Line>, left: nat, active: Option<Hunk>, rest: seq<Hunk>)
    requires active.Some? ==> 0 <= active.value.start <= active.value.end == left
    requires Patch(rest, left, |base|)
    ensures Patch(Flush(active) + rest, Origin(left, active), |base|)
    ensures Patched(base, Origin(left, active), Flush(active) + rest) ==
      Open(active, left).replacement + Patched(base, left, rest)
  {
    if active.Some? {
      PatchedCons(base, active.value, rest);
    } else {
      assert Flush(active) + rest == rest;
      assert [] + Patched(base, left, rest) == Patched(base, left, rest);
    }
  }

  lemma {:induction false} PatchedCons(base: seq<Line>, h: Hunk, rest: seq<Hunk>)
    requires 0 <= h.start <= h.end && Patch(rest, h.end, |base|)
    ensures Patch([h] + rest, h.start, |base|)
    ensures Patched(base, h.start, [h] + rest) == h.replacement + Patched(base, h.end, rest)
  {
    var hs := [h] + rest;
    assert hs[0] == h && hs[1..] == rest;
    PatchEndsInside(rest, h.end, |base|);
    assert base[h.start..h.start] + h.replacement == h.replacement;
  }

  lemma PatchedStep(base: seq<Line>, pos: nat, h: Hunk, rest: seq<Hunk>)
    requires pos <= h.start <= h.end && Patch(rest, h.end, |base|)
    ensures Patch([h] + rest, pos, |base|)
    ensures Patched(base, pos, [h] + rest) == base[pos..h.start] + h.replacement + Patched(base, h.end, rest)
  {
    assert ([h] + rest)[1..] == rest;
    PatchEndsInside(rest, h.end, |base|);
  }

  lemma {:induction false} PatchEndsInside(hs: seq<Hunk>, lo: nat, n: nat)
    requires Patch(hs, lo, n)
    ensures lo <= n
  {
    if hs != [] { PatchEndsInside(hs[1..], hs[0].end, n); }
  }

  lemma RemovedAfterFlush(active: Option<Hunk>, left: nat, rest: seq<Hunk>)
    requires active.Some? ==> active.value.end == left
    ensures Removed(Flush(active) + rest) == left - Origin(left, active) + Removed(rest)
  {
    if active.Some? {
      assert ([active.value] + rest)[1..] == rest;
    } else {
      assert Flush(active) + rest == rest;
    }
  }

  /** The remaining hunks leave exactly as many base lines as the longest common subsequence has. */
  lemma {:induction false} WalkKeeps(base: seq<Line>, target: seq<Line>, left: nat, right: nat, active: Option<Hunk>)
    requires WalkState(base, target, left, right, active)
    ensures |base| - Origin(left, active) - Removed(Walk(base, target, left, right, active)) ==
      Length(base[left..], target[right..])
    decreases |base| - left + |target| - right
  {
    if left < |base| && right < |target| {
      TailCells(base, target, left, right);
    }
    if left == |base| && right == |target| {
      RemovedAfterFlush(active, left, []);
      assert Walk(base, target, left, right, active) == Flush(active) + [];
    } else if left < |base| && right < |target| && base[left] == target[right] {
      WalkKeeps(base, target, left + 1, right + 1, None);
      RemovedAfterFlush(active, left, Walk(base, target, left + 1, right + 1, None));
    } else {
      var a := Open(active, left);
      if Inserts(base, target, left, right) {
        WalkKeeps(base, target, left, right + 1, Some(a.(replacement := a.replacement + [target[right]])));
      } else {
        WalkKeeps(base, target, left + 1, right, Some(a.(end := left + 1)));
      }
    }
  }

  /** Starting earlier only prepends the base lines in between. */
  lemma {:induction false} PatchedFromEarlier(base: seq<Line>, lo: nat, pos: nat, hs: seq<Hunk>)
    requires lo <= pos && Patch(hs, pos, |base|)
    ensures Patch(hs, lo, |base|)
    ensures Patched(base, lo, hs) == base[lo..pos] + Patched(base, pos, hs)
  {
    if hs == [] {
      assert base[lo..] == base[lo..pos] + base[pos..];
    } else {
      var h, tail := hs[0], Patched(base, hs[0].end, hs[1..]);
      assert base[lo..h.start] == base[lo..pos] + base[pos..h.start];
      assert (base[lo..pos] + base[pos..h.start]) + h.replacement + tail ==
        base[lo..pos] + (base[pos..h.start] + h.replacement + tail);
    }
  }

  /** Carrying out the hunks of `diffHunks` turns the base into the target. */
  lemma DiffIsCorrect(base: seq<Line>, target: seq<Line>)
    ensures Patch(Diff(base, target), 0, |base|)
    ensures Patched(base, 0, Diff(base, target)) == target
    ensures Separated(Diff(base, target))
    ensures forall h :: h in Diff(base, target) ==> h.end <= |base| && NonTrivial(h)
    ensures |base| - Removed(Diff(base, target)) == Length(base, target)
  {
    WalkCompletes(base, target, 0, 0, None);
    WalkKeeps(base, target, 0, 0, None);
    WalkIsSeparated(base, target, 0, 0, None);
    assert base[0..] == base && target[0..] == target;
  }

  // ---------------------------------------------------------------- minimality

  lemma {:induction false} PatchSizes(base: seq<Line>, pos: nat, hs: seq<Hunk>)
    requires Patch(hs, pos, |base|)
    ensures |Kept(base, pos, hs)| == |base| - pos - Removed(hs)
    ensures |Patched(base, pos, hs)| == |base| - pos - Removed(hs) + Inserted(hs)
    decreases hs
  {
    if hs != [] {
      PatchSizes(base, hs[0].end, hs[1..]);
    }
  }

  /** The kept lines are a common subsequence of what the patch reads and what it produces. */
  lemma {:induction false} KeptIsCommon(base: seq<Line>, pos: nat, hs: seq<Hunk>)
    requires Patch(hs, pos, |base|)
    ensures CommonSubsequence(Kept(base, pos, hs), base[pos..], Patched(base, pos, hs))
    decreases hs
  {
    if hs == [] {
      SubsequenceReflexive(base[pos..]);
    } else {
      var h, rest := hs[0], hs[1..];
      KeptIsCommon(base, h.end, rest);
      var kept, out := Kept(base, h.end, rest), Patched(base, h.end, rest);
      SubsequencePrepend(base[h.start..h.end], kept, base[h.end..]);
      SubsequenceKeepPrefix(base[pos..h.start], kept, base[h.start..h.end] + base[h.end..]);
      assert base[pos..h.start] + (base[h.start..h.end] + base[h.end..]) == base[pos..];
      SubsequencePrepend(h.replacement, kept, out);
      SubsequenceKeepPrefix(base[pos..h.start], kept, h.replacement + out);
      assert base[pos..h.start] + (h.replacement + out) == Patched(base, pos, hs);
    }
  }

  /** No patch from `base` to `target` removes or inserts fewer lines than `diffHunks` does. */
  lemma DiffIsMinimal(base: seq<Line>, target: seq<Line>, hs: seq<Hunk>)
    requires Patch(hs, 0, |base|) && Patched(base, 0, hs) == target
    ensures Removed(Diff(base, target)) <= Removed(hs)
    ensures Inserted(Diff(base, target)) <= Inserted(hs)
  {
    DiffIsCorrect(base, target);
    PatchSizes(base, 0, Diff(base, target));
    PatchSizes(base, 0, hs);
    KeptIsCommon(base, 0, hs);
    assert base[0..] == base;
    LengthBoundsCommonSubsequences(Kept(base, 0, hs), base, target);
  }
}
