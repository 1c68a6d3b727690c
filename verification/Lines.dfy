/**
  Splitting text into lines. `SplitLines` keeps each terminator with its line (the merge),
  `SplitOn` drops the separator (the report preview).
 */
module Lines {

  /** The position of the first `c` in `s`, or `|s|`. */
  function Find(s: string, c: char): (i: nat)
    ensures i <= |s|
  {
    if s == "" || s[0] == c then 0 else Find(s[1..], c) + 1
  }

  lemma {:induction false} FindIsFirst(s: string, c: char)
    ensures Find(s, c) < |s| ==> s[Find(s, c)] == c
    ensures forall j :: 0 <= j < Find(s, c) ==> s[j] != c
  {
    if s != "" && s[0] != c {
      FindIsFirst(s[1..], c);
      assert forall j :: 1 <= j <= Find(s[1..], c) ==> s[j] == s[1..][j - 1];
    }
  }

  lemma {:induction false} FirstIsFound(s: string, c: char, i: nat)
    requires i <= |s| && (i < |s| ==> s[i] == c)
    requires forall j :: 0 <= j < i ==> s[j] != c
    ensures Find(s, c) == i
  {
    if i > 0 { FirstIsFound(s[1..], c, i - 1); }
  }

  /** Maximal pieces matching `[^\n]*\n` or a final unterminated `[^\n]+`. */
  function SplitLines(s: string): seq<string> {
    if s == "" then []
    else
      var i := Find(s, '\n');
      if i == |s| then [s] else [s[..i + 1]] + SplitLines(s[i + 1..])
  }

  function Join(ls: seq<string>): string {
    if ls == [] then "" else ls[0] + Join(ls[1..])
  }

  ghost predicate Terminated(l: string) {
    l != "" && l[|l| - 1] == '\n' && forall j :: 0 <= j < |l| - 1 ==> l[j] != '\n'
  }

  /** Every line but the last is terminated; the last is terminated or non-empty without terminator. */
  ghost predicate LineList(ls: seq<string>) {
    ls == [] ||
    (if |ls| == 1 then Terminated(ls[0]) || (ls[0] != "" && '\n' !in ls[0])
     else Terminated(ls[0]) && LineList(ls[1..]))
  }

  lemma {:induction false} JoinSplitLines(s: string)
    ensures Join(SplitLines(s)) == s
    ensures LineList(SplitLines(s))
  {
    if s != "" {
      var i := Find(s, '\n');
      FindIsFirst(s, '\n');
      if i == |s| {
        assert Join([s]) == s + Join([]);
      } else {
        JoinSplitLines(s[i + 1..]);
        JoinFirst(s, i);
        LineListCons(s[..i + 1], SplitLines(s[i + 1..]));
      }
    }
  }

  lemma JoinFirst(s: string, i: nat)
    requires i < |s| && Join(SplitLines(s[i + 1..])) == s[i + 1..]
    ensures Join([s[..i + 1]] + SplitLines(s[i + 1..])) == s
  {
    var first, rest := s[..i + 1], SplitLines(s[i + 1..]);
    assert ([first] + rest)[1..] == rest;
    assert first + s[i + 1..] == s;
  }

  lemma LineListCons(l: string, rest: seq<string>)
    requires Terminated(l) && LineList(rest)
    ensures LineList([l] + rest)
  {
    assert ([l] + rest)[1..] == rest;
  }

  lemma FindInTerminated(l: string, rest: string)
    requires Terminated(l)
    ensures Find(l + rest, '\n') == |l| - 1
  {
    assert forall j :: 0 <= j < |l| ==> (l + rest)[j] == l[j];
    FirstIsFound(l + rest, '\n', |l| - 1);
  }

  lemma SplitFirstLine(l: string, rest: string)
    requires Terminated(l)
    ensures SplitLines(l + rest) == [l] + SplitLines(rest)
  {
    FindInTerminated(l, rest);
    assert (l + rest)[..|l|] == l && (l + rest)[|l|..] == rest;
  }

  lemma SplitLastLine(l: string)
    requires l != "" && '\n' !in l
    ensures SplitLines(l) == [l]
  {
    FirstIsFound(l, '\n', |l|);
  }

  /** Splitting undoes joining on every list that has the shape of a split. */
  lemma {:induction false} SplitLinesJoin(ls: seq<string>)
    requires LineList(ls)
    ensures SplitLines(Join(ls)) == ls
  {
    if ls != [] {
      var l, rest := ls[0], ls[1..];
      if Terminated(l) {
        SplitLinesJoin(rest);
        SplitFirstLine(l, Join(rest));
      } else {
        assert rest == [] && Join(ls) == l;
        SplitLastLine(l);
      }
    }
  }

  /** `text.split(separator)` for a one-character separator. */
  function SplitOn(s: string, c: char): (ls: seq<string>)
    ensures ls != []
  {
    var i := Find(s, c);
    if i == |s| then [s] else [s[..i]] + SplitOn(s[i + 1..], c)
  }

  function JoinWith(ls: seq<string>, c: char): string
    requires ls != []
  {
    if |ls| == 1 then ls[0] else ls[0] + [c] + JoinWith(ls[1..], c)
  }

  lemma JoinWithFirst(l: string, rest: seq<string>, c: char)
    requires rest != []
    ensures JoinWith([l] + rest, c) == l + [c] + JoinWith(rest, c)
  {
    assert ([l] + rest)[1..] == rest;
  }

  lemma CutAt(s: string, i: nat)
    requires i < |s|
    ensures s[..i] + [s[i]] + s[i + 1..] == s
  {
  }

  lemma {:induction false} JoinWithSplitOn(s: string, c: char)
    ensures JoinWith(SplitOn(s, c), c) == s
  {
    var i := Find(s, c);
    if i < |s| {
      var rest := s[i + 1..];
      JoinWithSplitOn(rest, c);
      JoinWithFirst(s[..i], SplitOn(rest, c), c);
      FindIsFirst(s, c);
      CutAt(s, i);
    }
  }
}
