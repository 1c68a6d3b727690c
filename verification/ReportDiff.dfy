/**
  The report preview: `lcsDiff` breaks ties the other way round from the merge, and still shows
  an edit of the same, smallest possible, size.
 */
module ReportDiff {

  import opened Lcs
  import opened Lines
  import opened Hunks
  import opened Options

  datatype Kind = Equal | Add | Remove
  datatype DiffRow = DiffRow(kind: Kind, text: Line)
  datatype Mode = Create | Update
  datatype Preview = Preview(path: string, mode: Mode, rows: seq<DiffRow>, addedLines: nat, removedLines: nat,
                             requiresConfirmation: bool)

  function Count(rows: seq<DiffRow>, kind: Kind): nat {
    if rows == [] then 0 else (if rows[0].kind == kind then 1 else 0) + Count(rows[1..], kind)
  }

  /** The texts of all rows except those of one kind. */
  function Side(rows: seq<DiffRow>, hidden: Kind): seq<Line> {
    if rows == [] then []
    else (if rows[0].kind == hidden then [] else [rows[0].text]) + Side(rows[1..], hidden)
  }

  function Previous(rows: seq<DiffRow>): seq<Line> { Side(rows, Add) }
  function Next(rows: seq<DiffRow>): seq<Line> { Side(rows, Remove) }

  /** The rows still to be pushed when the walk stands at `i`, `j`. */
  function Rows(previous: seq<Line>, next: seq<Line>, i: nat, j: nat): seq<DiffRow>
    requires i <= |previous| && j <= |next|
    decreases |previous| - i + |next| - j
  {
    if i == |previous| && j == |next| then []
    else if i == |previous| then [DiffRow(Add, next[j])] + Rows(previous, next, i, j + 1)
    else if j == |next| then [DiffRow(Remove, previous[i])] + Rows(previous, next, i + 1, j)
    else if previous[i] == next[j] then [DiffRow(Equal, previous[i])] + Rows(previous, next, i + 1, j + 1)
    else if Length(previous[i + 1..], next[j..]) >= Length(previous[i..], next[j + 1..]) then
      [DiffRow(Remove, previous[i])] + Rows(previous, next, i + 1, j)
    else [DiffRow(Add, next[j])] + Rows(previous, next, i, j + 1)
  }

  /** What `lcsDiff` returns. */
  function AllRows(previous: seq<Line>, next: seq<Line>): seq<DiffRow> {
    Rows(previous, next, 0, 0)
  }

  ghost predicate Tabulated(table: array2<nat>, previous: seq<Line>, next: seq<Line>, from: nat)
    reads table
  {
    table.Length0 == |previous| + 1 && table.Length1 == |next| + 1 &&
    forall i, j :: from <= i <= |previous| && 0 <= j <= |next| ==> Holds(table, previous, next, i, j)
  }

  ghost predicate Holds(table: array2<nat>, previous: seq<Line>, next: seq<Line>, i: nat, j: nat)
    requires table.Length0 == |previous| + 1 && table.Length1 == |next| + 1 && i <= |previous| && j <= |next|
    reads table
  {
    table[i, j] == Length(previous[i..], next[j..])
  }

  method Tabulate(previous: seq<Line>, next: seq<Line>) returns (table: array2<nat>)
    ensures fresh(table) && Tabulated(table, previous, next, 0)
  {
    var n, m := |previous|, |next|;
    table := new nat[n + 1, m + 1]((_, _) => 0);
    var i := n;
    while i > 0
      invariant 0 <= i <= n
      invariant Tabulated(table, previous, next, i)
      invariant forall k, j :: 0 <= k < i && 0 <= j <= m ==> table[k, j] == 0
    {
      i := i - 1;
      TabulateRow(table, previous, next, i);
    }
  }

  /** One pass of the inner loop; rows before `i` stay as they were. */
  method TabulateRow(table: array2<nat>, previous: seq<Line>, next: seq<Line>, i: nat)
    requires i < |previous| && Tabulated(table, previous, next, i + 1)
    requires table[i, |next|] == 0
    modifies table
    ensures Tabulated(table, previous, next, i)
    ensures forall k, j :: 0 <= k < i && 0 <= j <= |next| ==> table[k, j] == old(table[k, j])
  {
    var j := |next|;
    while j > 0
      invariant 0 <= j <= |next|
      invariant forall k, l :: 0 <= k < i && 0 <= l <= |next| ==> table[k, l] == old(table[k, l])
      invariant Tabulated(table, previous, next, i + 1)
      invariant forall l :: j <= l <= |next| ==> Holds(table, previous, next, i, l)
    {
      j := j - 1;
      TabulateCell(table, previous, next, i, j);
    }
  }

  /** One cell, from the three cells below and to the right of it. */
  method TabulateCell(table: array2<nat>, previous: seq<Line>, next: seq<Line>, i: nat, j: nat)
    requires i < |previous| && j < |next| && Tabulated(table, previous, next, i + 1)
    requires forall l :: j < l <= |next| ==> Holds(table, previous, next, i, l)
    modifies table
    ensures Tabulated(table, previous, next, i + 1)
    ensures forall l :: j <= l <= |next| ==> Holds(table, previous, next, i, l)
    ensures forall k, l :: 0 <= k < i && 0 <= l <= |next| ==> table[k, l] == old(table[k, l])
  {
    TailCells(previous, next, i, j);
    assert Holds(table, previous, next, i, j + 1);
    assert Holds(table, previous, next, i + 1, j) && Holds(table, previous, next, i + 1, j + 1);
    var entry := if previous[i] == next[j] then table[i + 1, j + 1] + 1 else Max(table[i + 1, j], table[i, j + 1]);
    table[i, j] := entry;
    forall k, l | i <= k <= |previous| && 0 <= l <= |next| && (k == i ==> j <= l)
      ensures Holds(table, previous, next, k, l)
    {
      if k != i || l != j { assert old(Holds(table, previous, next, k, l)); }
    }
  }

  /** `lcsDiff`: tabulate bottom-up, then walk from the front. */
  method LcsDiff(previous: seq<Line>, next: seq<Line>) returns (rows: seq<DiffRow>)
    ensures rows == AllRows(previous, next)
  {
    var table := Tabulate(previous, next);
    rows := [];
    var i, j := 0, 0;
    while i < |previous| && j < |next|
      invariant i <= |previous| && j <= |next|
      invariant Tabulated(table, previous, next, 0)
      invariant rows + Rows(previous, next, i, j) == AllRows(previous, next)
      decreases |previous| - i + |next| - j
    {
      var row := NextRow(table, previous, next, i, j);
      Associates(rows, Rows(previous, next, i, j));
      rows := rows + [row];
      i := if row.kind == Add then i else i + 1;
      j := if row.kind == Remove then j else j + 1;
    }
    rows := Drain(previous, next, i, j, rows);
  }

  /** The body of the walking loop: the row to push; the caller advances the sides it shows. */
  method NextRow(table: array2<nat>, previous: seq<Line>, next: seq<Line>, i: nat, j: nat) returns (row: DiffRow)
    requires Tabulated(table, previous, next, 0)
    requires i < |previous| && j < |next|
    ensures Rows(previous, next, i, j) ==
            [row] + Rows(previous, next, if row.kind == Add then i else i + 1, if row.kind == Remove then j else j + 1)
  {
    assert Holds(table, previous, next, i + 1, j) && Holds(table, previous, next, i, j + 1);
    if previous[i] == next[j] {
      row := DiffRow(Equal, previous[i]);
    } else if table[i + 1, j] >= table[i, j + 1] {
      row := DiffRow(Remove, previous[i]);
    } else {
      row := DiffRow(Add, next[j]);
    }
  }

  /** The two loops after the walk: what is left of one side. */
  method Drain(previous: seq<Line>, next: seq<Line>, left: nat, right: nat, pushed: seq<DiffRow>)
    returns (rows: seq<DiffRow>)
    requires left <= |previous| && right <= |next| && (left == |previous| || right == |next|)
    ensures rows == pushed + Rows(previous, next, left, right)
  {
    rows := pushed;
    var i, j := left, right;
    while i < |previous|
      invariant left <= i <= |previous| && (i == |previous| || j == |next|)
      invariant rows + Rows(previous, next, i, j) == pushed + Rows(previous, next, left, right)
    {
      Associates(rows, Rows(previous, next, i, j));
      rows := rows + [DiffRow(Remove, previous[i])];
      i := i + 1;
    }
    while j < |next|
      invariant i == |previous| && j <= |next|
      invariant rows + Rows(previous, next, i, j) == pushed + Rows(previous, next, left, right)
    {
      Associates(rows, Rows(previous, next, i, j));
      rows := rows + [DiffRow(Add, next[j])];
      j := j + 1;
    }
  }

  lemma Associates(pushed: seq<DiffRow>, rest: seq<DiffRow>)
    ensures rest != [] ==> pushed + rest == (pushed + [rest[0]]) + rest[1..]
  {
  }

  lemma {:induction false} RowsRebuild(previous: seq<Line>, next: seq<Line>, i: nat, j: nat)
    requires i <= |previous| && j <= |next|
    ensures Previous(Rows(previous, next, i, j)) == previous[i..]
    ensures Next(Rows(previous, next, i, j)) == next[j..]
    ensures Count(Rows(previous, next, i, j), Equal) == Length(previous[i..], next[j..])
    decreases |previous| - i + |next| - j
  {
    if i < |previous| { assert [previous[i]] + previous[i + 1..] == previous[i..]; }
    if j < |next| { assert [next[j]] + next[j + 1..] == next[j..]; }
    if i == |previous| && j == |next| {
    } else if i == |previous| {
      RowsRebuild(previous, next, i, j + 1);
    } else if j == |next| {
      RowsRebuild(previous, next, i + 1, j);
    } else {
      TailCells(previous, next, i, j);
      assert [] + previous[i..] == previous[i..] && [] + next[j..] == next[j..];
      if previous[i] == next[j] {
        RowsRebuild(previous, next, i + 1, j + 1);
      } else if Length(previous[i + 1..], next[j..]) >= Length(previous[i..], next[j + 1..]) {
        RowsRebuild(previous, next, i + 1, j);
      } else {
        RowsRebuild(previous, next, i, j + 1);
      }
    }
  }

  lemma {:induction false} SidesAdd(rows: seq<DiffRow>)
    ensures |Previous(rows)| == Count(rows, Equal) + Count(rows, Remove)
    ensures |Next(rows)| == Count(rows, Equal) + Count(rows, Add)
  {
    if rows != [] { SidesAdd(rows[1..]); }
  }

  /** The equal rows of any diff form a common subsequence of its two sides. */
  lemma {:induction false} EqualRowsAreCommon(rows: seq<DiffRow>, s: seq<Line>)
    requires s == Texts(rows)
    ensures CommonSubsequence(s, Previous(rows), Next(rows)) && |s| == Count(rows, Equal)
  {
    if rows != [] {
      var r, rest := rows[0], rows[1..];
      EqualRowsAreCommon(rest, Texts(rest));
      if r.kind == Equal {
        SubsequenceKeepPrefix([r.text], Texts(rest), Previous(rest));
        SubsequenceKeepPrefix([r.text], Texts(rest), Next(rest));
      } else if r.kind == Add {
        SubsequencePrepend([r.text], Texts(rest), Next(rest));
      } else {
        SubsequencePrepend([r.text], Texts(rest), Previous(rest));
      }
      assert [] + Texts(rest) == Texts(rest) && [] + Previous(rest) == Previous(rest) && [] + Next(rest) == Next(rest);
    }
  }

  function Texts(rows: seq<DiffRow>): seq<Line> {
    if rows == [] then []
    else (if rows[0].kind == Equal then [rows[0].text] else []) + Texts(rows[1..])
  }

  /** `lcsDiff` rebuilds both inputs, and no list of rows that does so shows fewer additions or removals. */
  lemma LcsDiffIsMinimal(previous: seq<Line>, next: seq<Line>, other: seq<DiffRow>)
    requires Previous(other) == previous && Next(other) == next
    ensures var rows := AllRows(previous, next);
      Previous(rows) == previous && Next(rows) == next &&
      Count(rows, Add) <= Count(other, Add) && Count(rows, Remove) <= Count(other, Remove)
  {
    var rows := AllRows(previous, next);
    RowsRebuild(previous, next, 0, 0);
    assert previous[0..] == previous && next[0..] == next;
    SidesAdd(rows);
    SidesAdd(other);
    EqualRowsAreCommon(other, Texts(other));
    LengthBoundsCommonSubsequences(Texts(other), previous, next);
  }

  /** The preview and the merge agree on the size of the edit, although they break ties differently. */
  lemma SameEditSize(previous: seq<Line>, next: seq<Line>)
    ensures var rows := AllRows(previous, next);
      Previous(rows) == previous && Next(rows) == next &&
      Count(rows, Remove) == Removed(Diff(previous, next)) && Count(rows, Add) == Inserted(Diff(previous, next))
  {
    var rows := AllRows(previous, next);
    RowsRebuild(previous, next, 0, 0);
    assert previous[0..] == previous && next[0..] == next;
    SidesAdd(rows);
    DiffIsCorrect(previous, next);
    PatchSizes(previous, 0, Diff(previous, next));
  }

  /** Between two lines that differ, both walks drop the side that costs fewer lines; at every tie the merge's next hunk
      inserts at once, and the preview's next row removes. */
  lemma TieBreaksDiffer(previous: seq<Line>, next: seq<Line>, i: nat, j: nat)
    requires i < |previous| && j < |next| && previous[i] != next[j]
    ensures var below, beside := Length(previous[i + 1..], next[j..]), Length(previous[i..], next[j + 1..]);
      var rows, hunks := Rows(previous, next, i, j), Walk(previous, next, i, j, None);
      rows != [] && rows[0] == (if beside > below then DiffRow(Add, next[j]) else DiffRow(Remove, previous[i])) &&
      hunks != [] && hunks[0].start == i &&
      if beside >= below then [next[j]] <= hunks[0].replacement else i < hunks[0].end
  {
    if Inserts(previous, next, i, j) {
      assert [] + [next[j]] == [next[j]];
      OpenHunkStays(previous, next, i, j + 1, Hunk(i, i, [next[j]]));
    } else {
      OpenHunkStays(previous, next, i + 1, j, Hunk(i, i + 1, []));
    }
  }

  function MapAdd(lines: seq<Line>): (rows: seq<DiffRow>)
    ensures Previous(rows) == [] && Next(rows) == lines
    ensures Count(rows, Add) == |lines| && Count(rows, Remove) == 0
  {
    if lines == [] then [] else [DiffRow(Add, lines[0])] + MapAdd(lines[1..])
  }

  /** `buildReportDiffPreview`; an absent and an empty previous content both mean a new report. */
  method BuildReportDiffPreview(path: string, nextContent: string, previousContent: string) returns (p: Preview)
    ensures p.path == path && p.mode == if previousContent == "" then Create else Update
    ensures Next(p.rows) == SplitOn(nextContent, '\n')
    ensures Previous(p.rows) == if previousContent == "" then [] else SplitOn(previousContent, '\n')
    ensures p.addedLines == Count(p.rows, Add) && p.removedLines == Count(p.rows, Remove)
    ensures previousContent != "" ==>
      p.addedLines == Inserted(Diff(SplitOn(previousContent, '\n'), SplitOn(nextContent, '\n')))
    ensures previousContent != "" ==>
      p.removedLines == Removed(Diff(SplitOn(previousContent, '\n'), SplitOn(nextContent, '\n')))
    ensures p.requiresConfirmation <==> previousContent == "" || previousContent != nextContent
  {
    var nextLines := SplitOn(nextContent, '\n');
    if previousContent == "" {
      return Preview(path, Create, MapAdd(nextLines), |nextLines|, 0, true);
    }
    var previousLines := SplitOn(previousContent, '\n');
    var rows := LcsDiff(previousLines, nextLines);
    SameEditSize(previousLines, nextLines);
    NoChangesMeansEqual(rows);
    JoinWithSplitOn(nextContent, '\n');
    JoinWithSplitOn(previousContent, '\n');
    if previousLines == nextLines { SelfDiffIsEmpty(previousLines); }
    p := Preview(path, Update, rows, Count(rows, Add), Count(rows, Remove), Count(rows, Add) + Count(rows, Remove) > 0);
  }

  lemma {:induction false} NoChangesMeansEqual(rows: seq<DiffRow>)
    ensures Count(rows, Add) == 0 && Count(rows, Remove) == 0 ==> Previous(rows) == Next(rows)
  {
    if rows != [] { NoChangesMeansEqual(rows[1..]); }
  }

  lemma SelfDiffIsEmpty(lines: seq<Line>)
    ensures Count(AllRows(lines, lines), Add) == 0 && Count(AllRows(lines, lines), Remove) == 0
  {
    RowsRebuild(lines, lines, 0, 0);
    assert lines[0..] == lines;
    SidesAdd(AllRows(lines, lines));
    LengthOfSelf(lines);
  }
}
