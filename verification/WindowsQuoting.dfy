/**
  Quoting arguments for a Windows command line, and the rules by which the Microsoft C runtime
  takes such a line apart again.
 */
module WindowsQuoting {

  import opened ScriptValues

  predicate NeedsQuotes(value: string) {
    value == "" || exists i :: 0 <= i < |value| && (IsSpace(value[i]) || value[i] == '"')
  }

  function Backslashes(n: nat): (s: string)
    ensures |s| == n && forall i :: 0 <= i < n ==> s[i] == '\\'
  {
    if n == 0 then "" else "\\" + Backslashes(n - 1)
  }

  /** What still has to be written when `pending` backslashes have been read but not written. */
  function QuoteRest(value: string, pending: nat): string {
    if value == "" then Backslashes(2 * pending) + "\""
    else if value[0] == '\\' then QuoteRest(value[1..], pending + 1)
    else if value[0] == '"' then Backslashes(2 * pending + 1) + "\"" + QuoteRest(value[1..], 0)
    else Backslashes(pending) + [value[0]] + QuoteRest(value[1..], 0)
  }

  function Quote(value: string): string {
    if NeedsQuotes(value) then "\"" + QuoteRest(value, 0) else value
  }

  /** `quoteWindowsArgument`. */
  method QuoteWindowsArgument(value: string) returns (quoted: string)
    ensures quoted == Quote(value)
  {
    if !NeedsQuotes(value) { return value; }
    quoted := "\"";
    var backslashes := 0;
    for k := 0 to |value|
      invariant quoted + QuoteRest(value[k..], backslashes) == "\"" + QuoteRest(value, 0)
    {
      var character := value[k];
      assert value[k..][0] == character && value[k..][1..] == value[k + 1..];
      if character == '\\' {
        backslashes := backslashes + 1;
      } else if character == '"' {
        quoted := quoted + (Backslashes(backslashes * 2 + 1) + "\"");
        backslashes := 0;
      } else {
        quoted := quoted + (Backslashes(backslashes) + [character]);
        backslashes := 0;
      }
    }
    quoted := quoted + (Backslashes(backslashes * 2) + "\"");
  }

  function QuoteAll(values: seq<string>): seq<string> {
    if values == [] then [] else [Quote(values[0])] + QuoteAll(values[1..])
  }

  function JoinSpaced(parts: seq<string>): string {
    if parts == [] then "" else if |parts| == 1 then parts[0] else parts[0] + " " + JoinSpaced(parts[1..])
  }

  /** An argument is left as it is exactly when it is not empty and has neither white space nor a quote mark. */
  lemma QuotedOnlyIfNeeded(value: string)
    ensures Quote(value) == value <==> value != "" && forall i :: 0 <= i < |value| ==>
      !IsSpace(value[i]) && value[i] != '"'
  {
    if NeedsQuotes(value) {
      QuotingAdds(value, 0);
      assert |Quote(value)| > |value|;
    }
  }

  lemma {:induction false} QuotingAdds(value: string, pending: nat)
    ensures |QuoteRest(value, pending)| >= |value| + pending + 1
  {
    if value != "" { QuotingAdds(value[1..], if value[0] == '\\' then pending + 1 else 0); }
  }

  // ---------------------------------------------------------------- the C runtime's rules

  predicate Separates(c: char) {
    c == ' ' || c == '\t'
  }

  /** One argument from its first character on: its value and what follows it. `pending` counts the
      backslashes just read: before a quote mark each pair stands for one, and an odd one makes the
      mark literal; two marks inside quotes stand for one; elsewhere backslashes are ordinary. */
  function ParseOne(s: string, inQuotes: bool, pending: nat): (r: (string, string))
    ensures |r.1| <= |s|
  {
    if s == "" then (Backslashes(pending), "")
    else if s[0] == '\\' then ParseOne(s[1..], inQuotes, pending + 1)
    else if s[0] == '"' then
      if pending % 2 == 1 then
        var r := ParseOne(s[1..], inQuotes, 0);
        (Backslashes(pending / 2) + "\"" + r.0, r.1)
      else if inQuotes && |s| > 1 && s[1] == '"' then
        var r := ParseOne(s[2..], inQuotes, 0);
        (Backslashes(pending / 2) + "\"" + r.0, r.1)
      else
        var r := ParseOne(s[1..], !inQuotes, 0);
        (Backslashes(pending / 2) + r.0, r.1)
    else if !inQuotes && Separates(s[0]) then (Backslashes(pending), s)
    else
      var r := ParseOne(s[1..], inQuotes, 0);
      (Backslashes(pending) + [s[0]] + r.0, r.1)
  }

  lemma {:induction false} ParseOneConsumes(s: string, inQuotes: bool, pending: nat)
    requires s != "" && (inQuotes || !Separates(s[0]))
    ensures |ParseOne(s, inQuotes, pending).1| < |s|
  {
  }

  /** All arguments of a line, after the program name. */
  function ParseArguments(s: string): seq<string>
    decreases |s|
  {
    if s == "" then []
    else if Separates(s[0]) then ParseArguments(s[1..])
    else
      ParseOneConsumes(s, false, 0);
      var r := ParseOne(s, false, 0);
      [r.0] + ParseArguments(r.1)
  }

  /** The program name: quote marks are dropped wherever they stand, and backslashes are ordinary. */
  function ParseProgram(s: string, inQuotes: bool): (string, string) {
    if s == "" then ("", "")
    else if s[0] == '"' then ParseProgram(s[1..], !inQuotes)
    else if !inQuotes && Separates(s[0]) then ("", s)
    else
      var r := ParseProgram(s[1..], inQuotes);
      ([s[0]] + r.0, r.1)
  }

  // ---------------------------------------------------------------- parsing undoes quoting

  ghost predicate Boundary(rest: string) {
    rest == "" || Separates(rest[0])
  }

  lemma {:induction false} ParseBackslashes(n: nat, t: string, inQuotes: bool, pending: nat)
    ensures ParseOne(Backslashes(n) + t, inQuotes, pending) == ParseOne(t, inQuotes, pending + n)
  {
    if n == 0 {
      assert Backslashes(n) + t == t;
    } else {
      assert (Backslashes(n) + t)[1..] == Backslashes(n - 1) + t;
      ParseBackslashes(n - 1, t, inQuotes, pending + 1);
    }
  }

  lemma {:induction false} ParseQuoted(value: string, pending: nat, rest: string)
    requires Boundary(rest)
    ensures ParseOne(QuoteRest(value, pending) + rest, true, 0) == (Backslashes(pending) + value, rest)
    decreases |value|
  {
    if value == "" {
      ParseClosing(pending, rest);
    } else if value[0] == '\\' {
      ParseQuoted(value[1..], pending + 1, rest);
      MoreBackslashes(pending);
      assert Backslashes(pending + 1) + value[1..] == Backslashes(pending) + value;
    } else {
      ParseQuoted(value[1..], 0, rest);
      QuotedPieces(pending, value);
      if value[0] == '"' {
        ParseEscapedMark(pending, QuoteRest(value[1..], 0), value[1..], rest);
      } else {
        ParseOrdinary(value[0], pending, QuoteRest(value[1..], 0), value[1..], rest);
      }
    }
  }

  lemma QuotedPieces(pending: nat, value: string)
    requires value != ""
    ensures Backslashes(0) + value[1..] == value[1..]
    ensures Backslashes(pending) + [value[0]] + value[1..] == Backslashes(pending) + value
  {
    assert [value[0]] + value[1..] == value;
  }

  lemma ParseClosing(pending: nat, rest: string)
    requires Boundary(rest)
    ensures ParseOne(Backslashes(2 * pending) + "\"" + rest, true, 0) == (Backslashes(pending) + "", rest)
  {
    ParseBackslashes(2 * pending, "\"" + rest, true, 0);
    assert Backslashes(2 * pending) + "\"" + rest == Backslashes(2 * pending) + ("\"" + rest);
    assert ("\"" + rest)[1..] == rest;
    assert ParseOne(rest, false, 0) == ("", rest);
  }

  lemma ParseEscapedMark(pending: nat, text: string, value: string, rest: string)
    requires ParseOne(text + rest, true, 0) == (value, rest)
    ensures ParseOne(Backslashes(2 * pending + 1) + "\"" + text + rest, true, 0) ==
      (Backslashes(pending) + "\"" + value, rest)
  {
    var t := "\"" + (text + rest);
    ParseBackslashes(2 * pending + 1, t, true, 0);
    Regroup(Backslashes(2 * pending + 1), "\"", text, rest);
    assert t[1..] == text + rest;
  }

  lemma ParseOrdinary(c: char, pending: nat, text: string, value: string, rest: string)
    requires c != '"' && c != '\\' && ParseOne(text + rest, true, 0) == (value, rest)
    ensures ParseOne(Backslashes(pending) + [c] + text + rest, true, 0) == (Backslashes(pending) + [c] + value, rest)
  {
    var t := [c] + (text + rest);
    ParseBackslashes(pending, t, true, 0);
    Regroup(Backslashes(pending), [c], text, rest);
    assert t[1..] == text + rest;
  }

  lemma Regroup(a: string, b: string, c: string, d: string)
    ensures a + b + c + d == a + (b + (c + d))
  {
  }

  lemma {:induction false} MoreBackslashes(n: nat)
    ensures Backslashes(n + 1) == Backslashes(n) + "\\"
  {
    if n > 0 { MoreBackslashes(n - 1); }
  }

  lemma {:induction false} ParsePlain(value: string, pending: nat, rest: string)
    requires Boundary(rest) && forall i :: 0 <= i < |value| ==> !IsSpace(value[i]) && value[i] != '"'
    ensures ParseOne(value + rest, false, pending) == (Backslashes(pending) + value, rest)
    decreases |value|
  {
    if value == "" {
      assert value + rest == rest;
      assert Backslashes(pending) + "" == Backslashes(pending);
    } else {
      assert (value + rest)[0] == value[0] && (value + rest)[1..] == value[1..] + rest;
      assert IsSpace(' ') && IsSpace('\t');
      assert value == [value[0]] + value[1..];
      if value[0] == '\\' {
        ParsePlain(value[1..], pending + 1, rest);
        MoreBackslashes(pending);
        assert Backslashes(pending + 1) + value[1..] == Backslashes(pending) + value;
      } else {
        ParsePlain(value[1..], 0, rest);
        assert Backslashes(0) + value[1..] == value[1..];
        assert Backslashes(pending) + [value[0]] + value[1..] == Backslashes(pending) + value;
      }
    }
  }

  lemma ParseOpening(t: string)
    ensures ParseOne("\"" + t, false, 0) == ParseOne(t, true, 0)
  {
    assert ("\"" + t)[1..] == t;
    NonePending(ParseOne(t, true, 0).0);
  }

  lemma NonePending(value: string)
    ensures Backslashes(0) + value == value
  {
  }

  lemma ParseQuote(value: string, rest: string)
    requires Boundary(rest)
    ensures ParseOne(Quote(value) + rest, false, 0) == (value, rest)
    ensures Quote(value) != "" && !Separates(Quote(value)[0])
  {
    NonePending(value);
    if NeedsQuotes(value) {
      assert Quote(value) + rest == "\"" + (QuoteRest(value, 0) + rest);
      ParseOpening(QuoteRest(value, 0) + rest);
      ParseQuoted(value, 0, rest);
    } else {
      ParsePlain(value, 0, rest);
    }
  }

  lemma ParseLast(word: string, value: string)
    requires word != "" && !Separates(word[0]) && ParseOne(word + "", false, 0) == (value, "")
    ensures ParseArguments(word) == [value]
  {
    assert word + "" == word;
  }

  lemma ParseNext(word: string, value: string, others: string)
    requires word != "" && !Separates(word[0]) && ParseOne(word + (" " + others), false, 0) == (value, " " + others)
    ensures ParseArguments(word + (" " + others)) == [value] + ParseArguments(others)
  {
    var line := word + (" " + others);
    assert line[0] == word[0];
    assert (" " + others)[1..] == others;
  }

  lemma JoinFirst(part: string, parts: seq<string>)
    requires parts != []
    ensures JoinSpaced([part] + parts) == part + (" " + JoinSpaced(parts))
  {
    assert ([part] + parts)[1..] == parts;
  }

  /** For every list of arguments, parsing the quoted arguments joined by spaces gives the list back. */
  lemma {:induction false} ParseJoinedQuotes(values: seq<string>)
    ensures ParseArguments(JoinSpaced(QuoteAll(values))) == values
  {
    if |values| == 1 {
      ParseQuote(values[0], "");
      ParseLast(Quote(values[0]), values[0]);
      assert values[1..] == [] && QuoteAll(values) == [Quote(values[0])] + [];
    } else if values != [] {
      var others := values[1..];
      ParseJoinedQuotes(others);
      ParseQuote(values[0], " " + JoinSpaced(QuoteAll(others)));
      ParseNext(Quote(values[0]), values[0], JoinSpaced(QuoteAll(others)));
      JoinFirst(Quote(values[0]), QuoteAll(others));
    }
  }

  // ---------------------------------------------------------------- the registered command

  /** `buildWindowsProtocolCommand`: the launcher, its arguments, and the place of the launch URL. */
  function BuildCommand(executable: string, args: seq<string>): string {
    JoinSpaced([Quote(executable)] + QuoteAll(args) + ["launch-uri", "\"%1\""])
  }

  /** A program name that survives: no quote mark in it, and no backslash before a closing one. */
  predicate SafeProgram(executable: string) {
    '"' !in executable && (NeedsQuotes(executable) && executable != "" ==> executable[|executable| - 1] != '\\')
  }

  lemma {:induction false} ProgramHasNoMarks(s: string, inQuotes: bool)
    ensures '"' !in ParseProgram(s, inQuotes).0
  {
    if s != "" && s[0] == '"' {
      ProgramHasNoMarks(s[1..], !inQuotes);
    } else if s != "" && (inQuotes || !Separates(s[0])) {
      ProgramHasNoMarks(s[1..], inQuotes);
    }
  }

  lemma {:induction false} ProgramBackslashes(n: nat, t: string, inQuotes: bool)
    ensures ParseProgram(Backslashes(n) + t, inQuotes) ==
      (Backslashes(n) + ParseProgram(t, inQuotes).0, ParseProgram(t, inQuotes).1)
  {
    if n == 0 {
      assert Backslashes(n) + t == t;
      assert Backslashes(n) + ParseProgram(t, inQuotes).0 == ParseProgram(t, inQuotes).0;
    } else {
      var s := Backslashes(n) + t;
      assert s[0] == '\\' && s[1..] == Backslashes(n - 1) + t;
      ProgramBackslashes(n - 1, t, inQuotes);
      var r := ParseProgram(t, inQuotes);
      assert "\\" + (Backslashes(n - 1) + r.0) == Backslashes(n) + r.0;
    }
  }

  /** The backslashes at the end of a value. */
  function Trailing(value: string, pending: nat): nat {
    if value == "" then pending else if value[0] == '\\' then Trailing(value[1..], pending + 1)
      else Trailing(value[1..], 0)
  }

  lemma {:induction false} TrailingIsZero(value: string, pending: nat)
    ensures Trailing(value, pending) == 0 <==> if value == "" then pending == 0 else value[|value| - 1] != '\\'
    decreases |value|
  {
    if value != "" {
      TrailingIsZero(value[1..], if value[0] == '\\' then pending + 1 else 0);
      if |value| > 1 { assert value[1..][|value| - 2] == value[|value| - 1]; }
    }
  }

  /** Read as a program name, a quoted value without quote marks comes out with its trailing backslashes doubled. */
  lemma {:induction false} ProgramQuoted(value: string, pending: nat, rest: string)
    requires Boundary(rest) && '"' !in value
    ensures ParseProgram(QuoteRest(value, pending) + rest, true) ==
      (Backslashes(pending) + value + Backslashes(Trailing(value, pending)), rest)
    decreases |value|
  {
    if value == "" {
      ProgramBackslashes(2 * pending, "\"" + rest, true);
      assert QuoteRest(value, pending) + rest == Backslashes(2 * pending) + ("\"" + rest);
      assert ("\"" + rest)[1..] == rest;
      assert ParseProgram(rest, false) == ("", rest);
      TwiceBackslashes(pending, pending);
      assert Backslashes(2 * pending) + "" == Backslashes(pending) + "" + Backslashes(pending);
    } else if value[0] == '\\' {
      ProgramQuoted(value[1..], pending + 1, rest);
      MoreBackslashes(pending);
      assert Backslashes(pending + 1) + value[1..] == Backslashes(pending) + value;
    } else {
      ProgramQuoted(value[1..], 0, rest);
      ProgramOrdinary(value, pending, rest);
    }
  }

  lemma ProgramOrdinary(value: string, pending: nat, rest: string)
    requires value != "" && value[0] != '\\' && value[0] != '"'
    requires ParseProgram(QuoteRest(value[1..], 0) + rest, true) ==
      (Backslashes(0) + value[1..] + Backslashes(Trailing(value[1..], 0)), rest)
    ensures ParseProgram(QuoteRest(value, pending) + rest, true) ==
      (Backslashes(pending) + value + Backslashes(Trailing(value, pending)), rest)
  {
    var t := [value[0]] + (QuoteRest(value[1..], 0) + rest);
    ProgramBackslashes(pending, t, true);
    OrdinaryShape(value, pending, rest);
    assert t[1..] == QuoteRest(value[1..], 0) + rest;
    ProgramPieces(pending, value, Backslashes(Trailing(value[1..], 0)));
  }

  lemma OrdinaryShape(value: string, pending: nat, rest: string)
    requires value != "" && value[0] != '\\' && value[0] != '"'
    ensures QuoteRest(value, pending) + rest == Backslashes(pending) + ([value[0]] + (QuoteRest(value[1..], 0) + rest))
  {
  }

  lemma ProgramPieces(pending: nat, value: string, end: string)
    requires value != ""
    ensures Backslashes(pending) + ([value[0]] + (Backslashes(0) + value[1..] + end)) ==
      Backslashes(pending) + value + end
  {
  }

  lemma {:induction false} TwiceBackslashes(m: nat, n: nat)
    ensures Backslashes(m + n) == Backslashes(m) + Backslashes(n)
  {
    if m > 0 { TwiceBackslashes(m - 1, n); }
  }

  lemma {:induction false} ProgramPlain(value: string, rest: string)
    requires Boundary(rest) && forall i :: 0 <= i < |value| ==> !IsSpace(value[i]) && value[i] != '"'
    ensures ParseProgram(value + rest, false) == (value, rest)
  {
    if value == "" {
      assert value + rest == rest;
    } else {
      assert (value + rest)[0] == value[0] && (value + rest)[1..] == value[1..] + rest;
      assert IsSpace(' ') && IsSpace('\t');
      ProgramPlain(value[1..], rest);
      assert [value[0]] + value[1..] == value;
    }
  }

  /** The executable comes out as it went in if and only if it is a safe program name. */
  lemma ProgramComesOut(executable: string, rest: string)
    requires Boundary(rest)
    ensures ParseProgram(Quote(executable) + rest, false).0 == executable <==> SafeProgram(executable)
    ensures SafeProgram(executable) ==> ParseProgram(Quote(executable) + rest, false).1 == rest
  {
    ProgramHasNoMarks(Quote(executable) + rest, false);
    if '"' !in executable {
      if NeedsQuotes(executable) {
        QuotedProgram(executable, rest);
      } else {
        ProgramPlain(executable, rest);
      }
    }
  }

  lemma OpeningMark(t: string)
    ensures ParseProgram("\"" + t, false) == ParseProgram(t, true)
  {
    assert ("\"" + t)[1..] == t;
  }

  lemma QuotedProgram(executable: string, rest: string)
    requires Boundary(rest) && '"' !in executable && NeedsQuotes(executable)
    ensures var r := ParseProgram(Quote(executable) + rest, false);
      r.1 == rest && (r.0 == executable <==> executable == "" || executable[|executable| - 1] != '\\')
  {
    var t := QuoteRest(executable, 0) + rest;
    OpeningMark(t);
    assert Quote(executable) + rest == "\"" + t;
    ProgramQuoted(executable, 0, rest);
    TrailingIsZero(executable, 0);
    ExtraBackslashes(executable, Trailing(executable, 0));
  }

  lemma ExtraBackslashes(value: string, n: nat)
    ensures Backslashes(0) + value + Backslashes(n) == value <==> n == 0
  {
    assert |Backslashes(0) + value + Backslashes(n)| == |value| + n;
    assert n == 0 ==> Backslashes(0) + value + Backslashes(n) == value;
  }

  lemma {:induction false} ParseCommandTail(args: seq<string>)
    ensures var tail := JoinSpaced(QuoteAll(args) + ["launch-uri", "\"%1\""]);
      ParseArguments(tail) == args + ["launch-uri", "%1"]
  {
    var last := ["launch-uri", "\"%1\""];
    if args == [] {
      LaunchWords();
      assert QuoteAll(args) + last == last && args + ["launch-uri", "%1"] == ["launch-uri", "%1"];
    } else {
      var first, parts := args[0], QuoteAll(args[1..]) + last;
      ParseCommandTail(args[1..]);
      ParseQuote(first, " " + JoinSpaced(parts));
      ParseNext(Quote(first), first, JoinSpaced(parts));
      JoinFirst(Quote(first), parts);
      assert QuoteAll(args) + last == [Quote(first)] + parts;
      assert args + ["launch-uri", "%1"] == [first] + (args[1..] + ["launch-uri", "%1"]);
    }
  }

  lemma LaunchWords()
    ensures ParseArguments(JoinSpaced(["launch-uri", "\"%1\""])) == ["launch-uri", "%1"]
  {
    var word, place := "launch-uri", "\"%1\"";
    LaunchPlace();
    JoinFirst(word, [place]);
    assert [word, place] == [word] + [place] && JoinSpaced([place]) == place;
    assert Quote(word) == word;
    ParseQuote(word, " " + place);
    ParseNext(word, word, place);
  }

  lemma LaunchPlace()
    ensures ParseArguments("\"%1\"") == ["%1"]
  {
    var t := QuoteRest("%1", 0);
    assert "%1"[1..] == "1" && "1"[1..] == "";
    assert t == "%1\"" && t + "" == t;
    ParseQuoted("%1", 0, "");
    NonePending("%1");
    ParseOpening(t);
    var place := "\"" + t;
    assert place + "" == place;
    ParseLast(place, "%1");
    assert place == "\"%1\"";
  }

  /** The registered command is taken apart into the executable, its arguments, and the two launch words,
      if and only if the executable is a safe program name. */
  lemma CommandComesApart(executable: string, args: seq<string>)
    ensures var program := ParseProgram(BuildCommand(executable, args), false);
      (program.0 == executable && ParseArguments(program.1) == args + ["launch-uri", "%1"]) <==> SafeProgram(executable)
  {
    var parts := QuoteAll(args) + ["launch-uri", "\"%1\""];
    var tail := " " + JoinSpaced(parts);
    var all := [Quote(executable)] + QuoteAll(args) + ["launch-uri", "\"%1\""];
    assert all[1..] == parts;
    assert BuildCommand(executable, args) == Quote(executable) + tail;
    ProgramComesOut(executable, tail);
    ParseCommandTail(args);
    assert tail[1..] == JoinSpaced(parts);
  }

  /** The executables on which it fails: in a directory with a space, and with a backslash at the end, or with a quote
      mark. */
  lemma UnsafeProgramsAreLost(directory: string, name: string, args: seq<string>)
    ensures ParseProgram(BuildCommand(directory + " " + name + "\\", args), false).0 != directory + " " + name + "\\"
    ensures ParseProgram(BuildCommand(directory + "\"" + name, args), false).0 != directory + "\"" + name
  {
    var spaced, marked := directory + " " + name + "\\", directory + "\"" + name;
    assert spaced[|directory|] == ' ' && IsSpace(' ') && spaced[|spaced| - 1] == '\\';
    assert marked[|directory|] == '"';
    ProgramOfCommand(spaced, args);
    ProgramOfCommand(marked, args);
  }

  lemma ProgramOfCommand(executable: string, args: seq<string>)
    ensures ParseProgram(BuildCommand(executable, args), false).0 == executable <==> SafeProgram(executable)
  {
    var parts := QuoteAll(args) + ["launch-uri", "\"%1\""];
    var tail := " " + JoinSpaced(parts);
    var all := [Quote(executable)] + QuoteAll(args) + ["launch-uri", "\"%1\""];
    assert all[1..] == parts;
    assert BuildCommand(executable, args) == Quote(executable) + tail;
    ProgramComesOut(executable, tail);
  }
}
