/**
  Reading a runtime's standard output chunk by chunk: complete lines go to a callback, and a
  bounded tail of the sanitised output is kept. Proved against splitting the whole text once.
 */
module StdoutLines {

  import opened Lines

  /** A line without the carriage return of its terminator. */
  function Chomp(line: string): string {
    if line != "" && line[|line| - 1] == '\r' then line[..|line| - 1] else line
  }

  /** `text.split(/\r?\n/)`; the last piece is what follows the last terminator. */
  function Split(s: string): (pieces: seq<string>)
    ensures pieces != []
  {
    var i := Find(s, '\n');
    if i == |s| then [s] else [Chomp(s[..i])] + Split(s[i + 1..])
  }

  function Complete(s: string): seq<string> {
    Split(s)[..|Split(s)| - 1]
  }

  function Pending(s: string): string {
    Split(s)[|Split(s)| - 1]
  }

  function LastChars(s: string, n: nat): string {
    if |s| <= n then s else s[|s| - n..]
  }

  /** `appendBounded`. */
  function AppendBounded(current: string, chunk: string, cap: nat): string {
    LastChars(current + chunk, cap)
  }

  function NonEmpty(lines: seq<string>): seq<string> {
    if lines == [] then []
    else NonEmpty(lines[..|lines| - 1]) + (if lines[|lines| - 1] == "" then [] else [lines[|lines| - 1]])
  }

  /** The sanitised text of complete lines. */
  function Sanitized(sanitize: string -> string, lines: seq<string>): string {
    if lines == [] then ""
    else Sanitized(sanitize, lines[..|lines| - 1]) + (sanitize(lines[|lines| - 1]) + "\n")
  }

  function Size(lines: seq<string>): nat {
    if lines == [] then 0 else Size(lines[..|lines| - 1]) + |lines[|lines| - 1]|
  }

  /** The pieces with the terminators that were between them. */
  function Weave(pieces: seq<string>, terminators: seq<string>): string
    requires |pieces| == |terminators| + 1
  {
    if terminators == [] then pieces[0] else pieces[0] + terminators[0] + Weave(pieces[1..], terminators[1..])
  }

  /** A line feed, with a carriage return before it wherever there is one. */
  predicate Ends(piece: string, terminator: string) {
    terminator == "\r\n" || (terminator == "\n" && (piece == "" || piece[|piece| - 1] != '\r'))
  }

  /** The pieces hold no line feed, and with these line ends between them they make up the text. */
  ghost predicate Woven(s: string, pieces: seq<string>, terminators: seq<string>) {
    |pieces| == |terminators| + 1 && Weave(pieces, terminators) == s &&
    (forall k :: 0 <= k < |terminators| ==> Ends(pieces[k], terminators[k])) &&
    forall k :: 0 <= k < |pieces| ==> '\n' !in pieces[k]
  }

  /** Splitting takes a text apart at its line feeds, each with a carriage return before it, and loses nothing else. */
  lemma {:induction false} SplitIsWoven(s: string) returns (terminators: seq<string>)
    ensures Woven(s, Split(s), terminators)
  {
    var i := Find(s, '\n');
    FindIsFirst(s, '\n');
    if i == |s| {
      SplitLast(s);
      terminators := [];
    } else {
      var rest := s[i + 1..];
      var others := SplitIsWoven(rest);
      var first := WovenFirst(s[..i], rest, Split(rest), others);
      terminators := [first] + others;
      SplitFirst(s, i);
      CutAt(s, i);
    }
  }

  lemma WovenFirst(line: string, rest: string, pieces: seq<string>, terminators: seq<string>)
    returns (first: string)
    requires '\n' !in line && Woven(rest, pieces, terminators)
    ensures Woven(line + "\n" + rest, [Chomp(line)] + pieces, [first] + terminators)
  {
    var chomped := line != "" && line[|line| - 1] == '\r';
    first := if chomped then "\r\n" else "\n";
    if chomped { assert line == Chomp(line) + "\r"; }
    assert Chomp(line) + first == line + "\n";
    WeaveFirst(Chomp(line), first, pieces, terminators);
  }

  lemma WeaveFirst(piece: string, terminator: string, pieces: seq<string>, terminators: seq<string>)
    requires |pieces| == |terminators| + 1
    ensures Weave([piece] + pieces, [terminator] + terminators) == piece + terminator + Weave(pieces, terminators)
  {
    assert ([piece] + pieces)[1..] == pieces && ([terminator] + terminators)[1..] == terminators;
  }

  // ---------------------------------------------------------------- splitting in two steps

  lemma {:induction false} PendingHasNoNewline(s: string)
    ensures '\n' !in Pending(s)
  {
    var i := Find(s, '\n');
    FindIsFirst(s, '\n');
    if i < |s| {
      PendingHasNoNewline(s[i + 1..]);
    }
  }

  lemma FindInPrefix(s: string, t: string, c: char)
    ensures Find(s, c) < |s| ==> Find(s + t, c) == Find(s, c)
    ensures Find(s, c) == |s| ==> Find(s + t, c) == |s| + Find(t, c)
  {
    FindIsFirst(s, c);
    FindIsFirst(t, c);
    var i := Find(s, c);
    if i < |s| {
      FirstIsFound(s + t, c, i);
    } else {
      FirstIsFound(s + t, c, |s| + Find(t, c));
    }
  }

  lemma SplitFirst(s: string, i: nat)
    requires i == Find(s, '\n') < |s|
    ensures Split(s) == [Chomp(s[..i])] + Split(s[i + 1..])
  {
  }

  /** `whole` is `head` but for its last piece, then what splitting that piece and `t` gives. */
  ghost predicate Continues(whole: seq<string>, head: seq<string>, last: seq<string>) {
    head != [] && whole == head[..|head| - 1] + last
  }

  lemma ContinuesAfter(piece: string, whole: seq<string>, head: seq<string>, last: seq<string>)
    requires Continues(whole, head, last)
    ensures Continues([piece] + whole, [piece] + head, last) && ([piece] + head)[|head|] == head[|head| - 1]
  {
    assert ([piece] + head)[..|head|] == [piece] + head[..|head| - 1];
  }

  lemma {:induction false} SplitContinues(s: string, t: string)
    ensures Continues(Split(s + t), Split(s), Split(Pending(s) + t))
  {
    var i := Find(s, '\n');
    FindInPrefix(s, t, '\n');
    if i < |s| {
      var rest := s[i + 1..];
      SplitContinues(rest, t);
      assert (s + t)[..i] == s[..i] && (s + t)[i + 1..] == rest + t;
      SplitFirst(s, i);
      SplitFirst(s + t, i);
      ContinuesAfter(Chomp(s[..i]), Split(rest + t), Split(rest), Split(Pending(rest) + t));
    } else {
      SplitLast(s);
      assert [s][..0] + Split(s + t) == Split(s + t);
    }
  }

  /** The lines of a text are those of its first part, then those of what was pending and the second. */
  lemma SplitInTwo(s: string, t: string)
    ensures Split(s + t) == Complete(s) + Split(Pending(s) + t)
  {
    SplitContinues(s, t);
  }

  lemma LastCharsCompose(x: string, y: string, n: nat)
    ensures LastChars(LastChars(x, n) + y, n) == LastChars(x + y, n)
  {
  }

  lemma NonEmptyAppend(xs: seq<string>, ys: seq<string>)
    ensures NonEmpty(xs + ys) == NonEmpty(xs) + NonEmpty(ys)
    ensures Size(xs + ys) == Size(xs) + Size(ys)
    ensures Size(NonEmpty(xs)) == Size(xs)
  {
    NonEmptyTogether(xs, ys);
    SizeTogether(xs, ys);
    NonEmptySize(xs);
  }

  lemma {:induction false} NonEmptyTogether(xs: seq<string>, ys: seq<string>)
    ensures NonEmpty(xs + ys) == NonEmpty(xs) + NonEmpty(ys)
    decreases |ys|
  {
    if ys == [] {
      assert xs + ys == xs;
    } else {
      var n := |ys| - 1;
      assert (xs + ys)[..|xs| + n] == xs + ys[..n];
      NonEmptyTogether(xs, ys[..n]);
    }
  }

  lemma {:induction false} SizeTogether(xs: seq<string>, ys: seq<string>)
    ensures Size(xs + ys) == Size(xs) + Size(ys)
    decreases |ys|
  {
    if ys == [] {
      assert xs + ys == xs;
    } else {
      var n := |ys| - 1;
      assert (xs + ys)[..|xs| + n] == xs + ys[..n];
      SizeTogether(xs, ys[..n]);
    }
  }

  lemma {:induction false} NonEmptySize(xs: seq<string>)
    ensures Size(NonEmpty(xs)) == Size(xs)
  {
    if xs != [] {
      NonEmptySize(xs[..|xs| - 1]);
      SizeOne(NonEmpty(xs[..|xs| - 1]), xs[|xs| - 1]);
    }
  }

  lemma SizeOne(lines: seq<string>, line: string)
    ensures Size(lines + (if line == "" then [] else [line])) == Size(lines) + |line|
  {
    if line == "" { assert lines + [] == lines; }
    else { assert (lines + [line])[..|lines|] == lines; }
  }

  // ---------------------------------------------------------------- a dropped beginning

  lemma SplitLast(s: string)
    requires Find(s, '\n') == |s|
    ensures Split(s) == [s]
  {
  }

  lemma FindAfter(line: string, chunk: string)
    requires '\n' !in line
    ensures Find(line + chunk, '\n') == |line| + Find(chunk, '\n')
  {
    FirstIsFound(line, '\n', |line|);
    FindInPrefix(line, chunk, '\n');
  }

  lemma SplitAfter(line: string, chunk: string, i: nat)
    requires i < |chunk| && Find(line + chunk, '\n') == |line| + i
    ensures Split(line + chunk) == [Chomp(line + chunk[..i])] + Split(chunk[i + 1..])
  {
    UnterminatedParts(line, chunk, i);
    SplitFirst(line + chunk, |line| + i);
  }

  lemma UnterminatedParts(line: string, chunk: string, i: nat)
    requires i < |chunk|
    ensures (line + chunk)[..|line| + i] == line + chunk[..i] && (line + chunk)[|line| + i + 1..] == chunk[i + 1..]
  {
  }

  /** What splitting gives when the first `dropped` characters of an unterminated line are missing. */
  ghost predicate SplitsAlike(whole: seq<string>, actual: seq<string>, dropped: nat) {
    |whole| == |actual| && |whole| > 0 && actual[1..] == whole[1..] &&
    (|whole| == 1 ==> dropped <= |whole[0]| && actual[0] == whole[0][dropped..]) &&
    (|whole| > 1 ==> |actual[0]| + dropped <= |whole[0]| + 1 && (dropped == 0 ==> actual[0] == whole[0]))
  }

  lemma DroppedSplit(line: string, dropped: nat, chunk: string)
    requires dropped <= |line| && '\n' !in line
    ensures SplitsAlike(Split(line + chunk), Split(line[dropped..] + chunk), dropped)
  {
    var i := Find(chunk, '\n');
    FindAfter(line, chunk);
    FindAfter(line[dropped..], chunk);
    if i == |chunk| {
      SplitLast(line + chunk);
      SplitLast(line[dropped..] + chunk);
      assert line[dropped..] + chunk == (line + chunk)[dropped..];
    } else {
      SplitAfter(line, chunk, i);
      SplitAfter(line[dropped..], chunk, i);
      DroppedFirst(line, dropped, chunk[..i], Split(chunk[i + 1..]));
    }
  }

  lemma DroppedFirst(line: string, dropped: nat, head: string, rest: seq<string>)
    requires dropped <= |line| && rest != []
    ensures SplitsAlike([Chomp(line + head)] + rest, [Chomp(line[dropped..] + head)] + rest, dropped)
  {
    var whole, actual := [Chomp(line + head)] + rest, [Chomp(line[dropped..] + head)] + rest;
    assert whole[1..] == rest == actual[1..];
    assert dropped == 0 ==> line[dropped..] == line;
  }

  // ---------------------------------------------------------------- the assembler

  lemma {:induction false} SanitizedAppend(sanitize: string -> string, xs: seq<string>, ys: seq<string>)
    ensures Sanitized(sanitize, xs + ys) == Sanitized(sanitize, xs) + Sanitized(sanitize, ys)
    decreases |ys|
  {
    if ys == [] {
      assert xs + ys == xs;
    } else {
      var n := |ys| - 1;
      assert (xs + ys)[..|xs| + n] == xs + ys[..n];
      SanitizedAppend(sanitize, xs, ys[..n]);
    }
  }

  /** The pending line is what is pending in the whole text, less `dropped` characters; at least `lost`
      characters of complete lines never came out. */
  ghost predicate Pended(fed: string, dropped: nat, lost: nat, pendingLine: string, emitted: seq<string>) {
    dropped <= |Pending(fed)| && dropped != 1 && pendingLine == Pending(fed)[dropped..] &&
    Size(emitted) + lost <= Size(Complete(fed))
  }

  lemma FedSplit(fed: string, chunk: string)
    ensures var whole := Split(Pending(fed) + chunk);
      Complete(fed + chunk) == Complete(fed) + whole[..|whole| - 1] && Pending(fed + chunk) == whole[|whole| - 1]
  {
    SplitInTwo(fed, chunk);
  }

  /** How the dropped part of the line weighs on the complete lines of one chunk. */
  lemma CompleteShrinks(whole: seq<string>, actual: seq<string>, dropped: nat)
    requires SplitsAlike(whole, actual, dropped)
    ensures |whole| > 1 ==> Size(actual[..|actual| - 1]) + dropped <= Size(whole[..|whole| - 1]) + 1
    ensures dropped == 0 ==> actual == whole
  {
    var n := |whole| - 1;
    if n > 0 {
      var w, a := whole[..n], actual[..n];
      SizeHead(w);
      SizeHead(a);
      assert w[1..] == whole[1..][..n - 1] && a[1..] == actual[1..][..n - 1];
    }
    if dropped == 0 {
      assert actual[0] == whole[0];
      assert actual == [actual[0]] + actual[1..] && whole == [whole[0]] + whole[1..];
    }
  }

  lemma SizeHead(lines: seq<string>)
    requires lines != []
    ensures Size(lines) == |lines[0]| + Size(lines[1..])
  {
    assert lines == [lines[0]] + lines[1..];
    NonEmptyAppend([lines[0]], lines[1..]);
    assert [lines[0]][..0] == [];
  }

  lemma FeedPends(fed: string, dropped: nat, lost: nat, pendingLine: string, emitted: seq<string>, chunk: string)
    requires Pended(fed, dropped, lost, pendingLine, emitted)
    ensures var segments := Split(pendingLine + chunk); var n := |segments| - 1;
      Pended(fed + chunk, if n == 0 then dropped else 0, if n == 0 || dropped == 0 then lost else lost + dropped - 1,
             segments[n], emitted + NonEmpty(segments[..n])) &&
      (dropped == 0 ==> Complete(fed + chunk) == Complete(fed) + segments[..n])
  {
    var segments, whole := Split(pendingLine + chunk), Split(Pending(fed) + chunk);
    PendingHasNoNewline(fed);
    DroppedSplit(Pending(fed), dropped, chunk);
    CompleteShrinks(whole, segments, dropped);
    FedSplit(fed, chunk);
    FeedSizes(Complete(fed), whole, emitted, segments);
    PendingTail(whole, segments, dropped);
  }

  lemma FeedSizes(complete: seq<string>, whole: seq<string>, emitted: seq<string>, segments: seq<string>)
    requires |whole| == |segments| > 0
    ensures var n := |whole| - 1;
      Size(complete + whole[..n]) == Size(complete) + Size(whole[..n]) &&
      Size(emitted + NonEmpty(segments[..n])) == Size(emitted) + Size(segments[..n]) &&
      (n == 0 ==> Size(whole[..n]) == 0 && Size(segments[..n]) == 0)
  {
    var n := |whole| - 1;
    NonEmptyAppend(complete, whole[..n]);
    NonEmptyAppend(emitted, NonEmpty(segments[..n]));
    NonEmptyAppend(segments[..n], []);
  }

  lemma PendingTail(whole: seq<string>, segments: seq<string>, dropped: nat)
    requires SplitsAlike(whole, segments, dropped)
    ensures var n := |whole| - 1; if n == 0 then dropped <= |whole[n]| && segments[n] == whole[n][dropped..]
      else segments[n] == whole[n]
  {
    var n := |whole| - 1;
    if n > 0 { assert segments[n] == segments[1..][n - 1] && whole[n] == whole[1..][n - 1]; }
  }

  lemma EmitStep(sanitize: string -> string, cap: nat, out: string, lines: seq<string>, segments: seq<string>, k: nat)
    requires k < |segments|
    ensures var segment := segments[k]; var done := Sanitized(sanitize, segments[..k]);
      lines + NonEmpty(segments[..k + 1]) ==
        (lines + NonEmpty(segments[..k])) + (if segment == "" then [] else [segment]) &&
      LastChars(out + Sanitized(sanitize, segments[..k + 1]), cap) ==
        AppendBounded(LastChars(out + done, cap), sanitize(segment) + "\n", cap)
  {
    var done, line := Sanitized(sanitize, segments[..k]), sanitize(segments[k]) + "\n";
    assert segments[..k + 1][..k] == segments[..k];
    LastCharsCompose(out + done, line, cap);
    assert out + (done + line) == (out + done) + line;
  }

  /** What the callback has seen and what is kept, once more lines are complete. */
  lemma MoreLines(sanitize: string -> string, cap: nat, lines: seq<string>, more: seq<string>)
    ensures NonEmpty(lines) + NonEmpty(more) == NonEmpty(lines + more)
    ensures LastChars(LastChars(Sanitized(sanitize, lines), cap) + Sanitized(sanitize, more), cap) ==
            LastChars(Sanitized(sanitize, lines + more), cap)
  {
    SanitizedAppend(sanitize, lines, more);
    NonEmptyAppend(lines, more);
    LastCharsCompose(Sanitized(sanitize, lines), Sanitized(sanitize, more), cap);
  }

  /** The capture after the close handler. */
  function Captured(sanitize: string -> string, cap: nat, whole: string): string {
    LastChars(Sanitized(sanitize, Complete(whole)) +
              (if Pending(whole) == "" then "" else sanitize(Pending(whole))), cap)
  }

  /** Output without carriage returns that fits the cap is captured as it is, when sanitising leaves its lines alone. */
  lemma CaptureIsText(sanitize: string -> string, cap: nat, whole: string)
    requires (forall l :: l in Split(whole) ==> sanitize(l) == l) && '\r' !in whole && |whole| <= cap
    ensures Captured(sanitize, cap, whole) == whole
  {
    PiecesMakeText(sanitize, whole);
  }

  /** The sanitised text of pieces, of which the last has no line feed behind it. */
  function Made(sanitize: string -> string, pieces: seq<string>): string
    requires pieces != []
  {
    var n := |pieces| - 1;
    Sanitized(sanitize, pieces[..n]) + (if pieces[n] == "" then "" else sanitize(pieces[n]))
  }

  lemma MadeFirst(sanitize: string -> string, line: string, pieces: seq<string>)
    requires pieces != []
    ensures Made(sanitize, [line] + pieces) == sanitize(line) + "\n" + Made(sanitize, pieces)
  {
    var n := |pieces| - 1;
    assert ([line] + pieces)[..n + 1] == [line] + pieces[..n];
    OneLine(sanitize, line);
    SanitizedAppend(sanitize, [line], pieces[..n]);
  }

  lemma {:induction false} PiecesMakeText(sanitize: string -> string, s: string)
    requires (forall l :: l in Split(s) ==> sanitize(l) == l) && '\r' !in s
    ensures Made(sanitize, Split(s)) == s
  {
    var i := Find(s, '\n');
    FindIsFirst(s, '\n');
    if i == |s| {
      SplitLast(s);
      OnlyPiece(sanitize, s);
    } else {
      var line, rest := s[..i], s[i + 1..];
      SplitFirst(s, i);
      assert Chomp(line) == line;
      FirstPiece(sanitize, line, Split(rest));
      PiecesMakeText(sanitize, rest);
      MadeFirst(sanitize, line, Split(rest));
      CutAt(s, i);
    }
  }

  lemma OnlyPiece(sanitize: string -> string, s: string)
    requires forall l :: l in [s] ==> sanitize(l) == l
    ensures Made(sanitize, [s]) == s
  {
    assert s in [s] && [s][..0] == [];
    assert "" + s == s;
  }

  lemma FirstPiece(sanitize: string -> string, line: string, pieces: seq<string>)
    requires forall l :: l in [line] + pieces ==> sanitize(l) == l
    ensures sanitize(line) == line && forall l :: l in pieces ==> sanitize(l) == l
  {
    assert line in [line] + pieces && forall l :: l in pieces ==> l in [line] + pieces;
  }

  lemma OneLine(sanitize: string -> string, line: string)
    ensures Sanitized(sanitize, [line]) == sanitize(line) + "\n"
  {
    assert [line][..0] == [];
  }

  lemma ClosedCapture(sanitize: string -> string, cap: nat, fed: string, stdout: string)
    requires stdout == LastChars(Sanitized(sanitize, Complete(fed)), cap)
    ensures Captured(sanitize, cap, fed) == if Pending(fed) == "" then stdout
      else AppendBounded(stdout, sanitize(Pending(fed)), cap)
  {
    var text := Sanitized(sanitize, Complete(fed));
    if Pending(fed) == "" { assert text + "" == text; }
    else { LastCharsCompose(text, sanitize(Pending(fed)), cap); }
  }

  /** At the end the callback has seen exactly the lines of the whole text unless something was dropped. */
  lemma ClosedExactly(fed: string, dropped: nat, lost: nat, pendingLine: string, emitted: seq<string>)
    requires Pended(fed, dropped, lost, pendingLine, emitted)
    requires lost == 0 && dropped == 0 ==> emitted == NonEmpty(Complete(fed))
    ensures emitted + (if pendingLine == "" then [] else [pendingLine]) == NonEmpty(Split(fed)) <==>
      lost == 0 && dropped == 0
  {
    var all, closing := Split(fed), if pendingLine == "" then [] else [pendingLine];
    assert all == Complete(fed) + [Pending(fed)];
    SizeOne(emitted, pendingLine);
    NonEmptyAppend(Complete(fed), [Pending(fed)]);
    SizeHead([Pending(fed)]);
    NonEmptyAppend(all, []);
    if lost == 0 && dropped == 0 {
      assert NonEmpty([pendingLine]) == NonEmpty([]) + closing == closing;
    }
  }

  /** What the assembler's fields have to do with the text fed so far. `overflowed`: at the end of some
      chunk the unterminated line was longer than the cap. */
  ghost predicate Accounted(sanitize: string -> string, cap: nat, fed: string, dropped: nat, lost: nat,
                            pendingLine: string, emitted: seq<string>, stdout: string, overflowed: bool) {
    Pended(fed, dropped, lost, pendingLine, emitted) && (overflowed <==> lost > 0 || dropped > 0) &&
    (!overflowed ==> emitted == NonEmpty(Complete(fed)) && stdout == LastChars(Sanitized(sanitize, Complete(fed)), cap))
  }

  /** A chunk, up to the test of the pending line's length. */
  lemma FeedAccounts(sanitize: string -> string, cap: nat, fed: string, dropped: nat, lost: nat,
                     pendingLine: string, emitted: seq<string>, stdout: string, overflowed: bool, chunk: string)
    requires Accounted(sanitize, cap, fed, dropped, lost, pendingLine, emitted, stdout, overflowed)
    ensures var segments := Split(pendingLine + chunk); var n := |segments| - 1;
      Accounted(sanitize, cap, fed + chunk, if n == 0 then dropped else 0,
                if n == 0 || dropped == 0 then lost else lost + dropped - 1, segments[n],
                emitted + NonEmpty(segments[..n]), LastChars(stdout + Sanitized(sanitize, segments[..n]), cap),
                overflowed)
  {
    FeedPends(fed, dropped, lost, pendingLine, emitted, chunk);
    if !overflowed {
      var segments := Split(pendingLine + chunk);
      MoreLines(sanitize, cap, Complete(fed), segments[..|segments| - 1]);
    }
  }

  /** A pending line over the cap is dropped. */
  lemma DropAccounts(sanitize: string -> string, cap: nat, fed: string, dropped: nat, lost: nat,
                     pendingLine: string, emitted: seq<string>, stdout: string, overflowed: bool)
    requires Accounted(sanitize, cap, fed, dropped, lost, pendingLine, emitted, stdout, overflowed)
    requires |pendingLine| > cap >= 1
    ensures Accounted(sanitize, cap, fed, |Pending(fed)|, lost, "", emitted, stdout, true) && |Pending(fed)| > cap
  {
  }

  class StdoutAssembler {
    const cap: nat
    const sanitize: string -> string
    var stdout: string
    var pendingLine: string
    // The lines passed to the callback so far.
    var emitted: seq<string>
    ghost var fed: string
    ghost var dropped: nat
    ghost var lost: nat
    // At the end of some chunk the unterminated line was longer than the cap.
    ghost var overflowed: bool

    constructor (cap: nat, sanitize: string -> string)
      requires cap >= 1
      ensures Valid() && fed == "" && !overflowed && this.cap == cap && this.sanitize == sanitize
    {
      this.cap, this.sanitize := cap, sanitize;
      stdout, pendingLine, emitted := "", "", [];
      fed, dropped, lost, overflowed := "", 0, 0, false;
    }

    ghost predicate Valid()
      reads this
    {
      cap >= 1 && |stdout| <= cap &&
      Accounted(sanitize, cap, fed, dropped, lost, pendingLine, emitted, stdout, overflowed)
    }

    /** The loop over the complete lines of a chunk. */
    method EmitAll(segments: seq<string>)
      requires |stdout| <= cap
      modifies this`stdout, this`emitted
      ensures emitted == old(emitted) + NonEmpty(segments)
      ensures |stdout| <= cap
      ensures stdout == LastChars(old(stdout) + Sanitized(sanitize, segments), cap)
    {
      ghost var out, lines := stdout, emitted;
      assert out + "" == out && lines + [] == lines;
      for k := 0 to |segments|
        invariant emitted == lines + NonEmpty(segments[..k])
        invariant stdout == LastChars(out + Sanitized(sanitize, segments[..k]), cap)
      {
        EmitStep(sanitize, cap, out, lines, segments, k);
        if segments[k] != "" { emitted := emitted + [segments[k]]; }
        stdout := AppendBounded(stdout, sanitize(segments[k]) + "\n", cap);
      }
      assert segments[..|segments|] == segments;
    }

    /** The chunk handler. */
    method Feed(chunk: string)
      requires Valid()
      modifies this
      ensures Valid() && fed == old(fed) + chunk
      ensures overflowed <==> old(overflowed) || |Pending(fed)| > cap
    {
      TakeLines(chunk);
      if |pendingLine| > cap {
        DropAccounts(sanitize, cap, fed, dropped, lost, pendingLine, emitted, stdout, overflowed);
        pendingLine := "";
        dropped := |Pending(fed)|;
        overflowed := true;
      }
    }

    method TakeLines(chunk: string)
      requires Valid()
      modifies this
      ensures Valid() && fed == old(fed) + chunk && overflowed == old(overflowed)
    {
      var segments := Split(pendingLine + chunk);
      var n := |segments| - 1;
      FeedAccounts(sanitize, cap, fed, dropped, lost, pendingLine, emitted, stdout, overflowed, chunk);
      EmitAll(segments[..n]);
      pendingLine := segments[n];
      lost := if n == 0 || dropped == 0 then lost else lost + dropped - 1;
      dropped := if n == 0 then dropped else 0;
      fed := fed + chunk;
    }

    /** The close handler: the trailing line has no terminator. With no unterminated line ever over the
        cap, callback and capture are those of the whole text; otherwise some output was never passed on. */
    method Close()
      requires Valid()
      modifies this
      ensures emitted == NonEmpty(Split(old(fed))) <==> !old(overflowed)
      ensures !old(overflowed) ==> stdout == Captured(sanitize, cap, old(fed))
    {
      var trailing := pendingLine;
      pendingLine := "";
      ClosedExactly(fed, dropped, lost, trailing, emitted);
      if !overflowed { ClosedCapture(sanitize, cap, fed, stdout); }
      ghost var lines := emitted;
      assert lines + [] == lines;
      if trailing != "" {
        emitted := emitted + [trailing];
        stdout := AppendBounded(stdout, sanitize(trailing), cap);
      }
      assert emitted == lines + (if trailing == "" then [] else [trailing]);
    }
  }

  // ---------------------------------------------------------------- chunks

  /** The text of all chunks. */
  function Joined(chunks: seq<string>): string {
    if chunks == [] then "" else Joined(chunks[..|chunks| - 1]) + chunks[|chunks| - 1]
  }

  /** At the end of every chunk the unterminated line is within the cap. */
  ghost predicate WithinCap(chunks: seq<string>, cap: nat) {
    |Pending(Joined(chunks))| <= cap && (chunks == [] || WithinCap(chunks[..|chunks| - 1], cap))
  }

  lemma OneMoreChunk(chunks: seq<string>, k: nat, cap: nat)
    requires k < |chunks|
    ensures Joined(chunks[..k + 1]) == Joined(chunks[..k]) + chunks[k]
    ensures WithinCap(chunks[..k + 1], cap) <==>
      |Pending(Joined(chunks[..k]) + chunks[k])| <= cap && WithinCap(chunks[..k], cap)
  {
    assert chunks[..k + 1][..k] == chunks[..k];
  }

  /** However the output is cut into chunks, the callback gets the lines of the whole text, if and only
      if no unterminated line is over the cap at the end of a chunk; then the capture is that of the
      whole text too. */
  method Collect(chunks: seq<string>, cap: nat, sanitize: string -> string)
    returns (lines: seq<string>, captured: string)
    requires cap >= 1
    ensures lines == NonEmpty(Split(Joined(chunks))) <==> WithinCap(chunks, cap)
    ensures WithinCap(chunks, cap) ==> captured == Captured(sanitize, cap, Joined(chunks))
  {
    var assembler := new StdoutAssembler(cap, sanitize);
    assert Pending("") == "";
    for k := 0 to |chunks|
      invariant assembler.Valid() && fresh(assembler) && assembler.fed == Joined(chunks[..k])
      invariant assembler.cap == cap && assembler.sanitize == sanitize
      invariant assembler.overflowed <==> !WithinCap(chunks[..k], cap)
    {
      OneMoreChunk(chunks, k, cap);
      assembler.Feed(chunks[k]);
    }
    assert chunks[..|chunks|] == chunks;
    assembler.Close();
    lines, captured := assembler.emitted, assembler.stdout;
  }

  /** The chunks on which it fails: a line over the cap, cut before its line feed. Uncut, it comes through. */
  lemma LongLineIsLost(line: string, cap: nat)
    requires '\n' !in line && |line| > cap
    ensures !WithinCap([line, "\n"], cap) && WithinCap([line + "\n"], cap)
    ensures Joined([line, "\n"]) == Joined([line + "\n"]) == line + "\n"
  {
    var cut, uncut := [line, "\n"], [line + "\n"];
    assert cut[..1] == [line] && [line][..0] == [] && uncut[..0] == [];
    assert "" + (line + "\n") == line + "\n";
    assert Joined([line]) == line && Joined(uncut) == line + "\n";
    NoTerminator(line);
    OneTerminator(line);
  }

  lemma NoTerminator(line: string)
    requires '\n' !in line
    ensures Split(line) == [line] && Pending(line) == line
  {
    FirstIsFound(line, '\n', |line|);
  }

  lemma OneTerminator(line: string)
    requires '\n' !in line
    ensures Pending(line + "\n") == "" && Pending("") == ""
  {
    NoTerminator(line);
    FindInPrefix(line, "\n", '\n');
    var s := line + "\n";
    assert s[|line| + 1..] == "" && Split("") == [""];
    assert Split(s) == [Chomp(s[..|line|])] + [""];
  }
}
