/**
  `stableJson`: JSON text with the members of every object in key order, whose digest authorises a
  change set. A parser for such text shows that nothing is lost but the member order.
 */
module StableJson {

  import opened Collation
  import opened Options
  import opened Permutations
  import opened StableSort

  /** A value without `undefined`; a number is represented by the text it prints as. */
  datatype Json =
    | Null
    | Bool(b: bool)
    | Num(lexeme: string)
    | Str(s: string)
    | Arr(items: seq<Json>)
    | Obj(members: seq<Member>)

  datatype Member = Member(key: string, value: Json)

  /** What a tree stands for: the members of an object have no order. */
  datatype Value =
    | VNull
    | VBool(b: bool)
    | VNum(lexeme: string)
    | VStr(s: string)
    | VArr(items: seq<Value>)
    | VObj(members: map<string, Value>)

  predicate NumberChar(c: char) {
    c in "0123456789+-.eE"
  }

  predicate Lexeme(s: string) {
    s != "" && s[0] in "-0123456789" && forall i :: 0 <= i < |s| ==> NumberChar(s[i])
  }

  /** Numbers print as numbers, and the keys of an object are distinct. */
  ghost predicate Valid(j: Json) {
    match j
    case Num(lexeme) => Lexeme(lexeme)
    case Arr(items) => forall i :: 0 <= i < |items| ==> Valid(items[i])
    case Obj(members) =>
      (forall i :: 0 <= i < |members| ==> Valid(members[i].value)) && DistinctKeys(members)
    case _ => true
  }

  ghost predicate DistinctKeys(members: seq<Member>) {
    forall i, j :: 0 <= i < j < |members| ==> members[i].key != members[j].key
  }

  // ---------------------------------------------------------------- printing

  function Hex(n: nat): char
    requires n < 16
  {
    "0123456789abcdef"[n]
  }

  function Escape(c: char): string {
    var n := c as int;
    if c == '"' then "\\\""
    else if c == '\\' then "\\\\"
    else if n == 8 then "\\b"
    else if n == 9 then "\\t"
    else if n == 10 then "\\n"
    else if n == 12 then "\\f"
    else if n == 13 then "\\r"
    else if n < 32 then "\\u00" + [Hex(n / 16), Hex(n % 16)]
    else [c]
  }

  function Escaped(s: string): string {
    if s == "" then "" else Escape(s[0]) + Escaped(s[1..])
  }

  /** `JSON.stringify` of a string. */
  function Quote(s: string): string {
    "\"" + Escaped(s) + "\""
  }

  function KeyOrder(le: Order): (Member, Member) -> bool {
    (m: Member, n: Member) => le(m.key, n.key)
  }

  /** `entries.sort` by key. */
  function InKeyOrder(le: Order, members: seq<Member>): (r: seq<Member>)
    ensures multiset(r) == multiset(members)
  {
    SortPermutes(KeyOrder(le), members);
    Sort(KeyOrder(le), members)
  }

  lemma SortedMembersBelong(le: Order, members: seq<Member>)
    ensures forall m :: m in InKeyOrder(le, members) <==> m in members
  {
    PermutationKeepsMembers(members, InKeyOrder(le, members));
  }

  function Text(le: Order, j: Json): string
    decreases j
  {
    match j
    case Null => "null"
    case Bool(b) => if b then "true" else "false"
    case Num(lexeme) => lexeme
    case Str(s) => Quote(s)
    case Arr(items) => "[" + ItemTexts(le, j, items) + "]"
    case Obj(members) =>
      SortedMembersBelong(le, members);
      "{" + MemberTexts(le, j, InKeyOrder(le, members)) + "}"
  }

  function ItemTexts(le: Order, context: Json, items: seq<Json>): string
    requires forall i :: i in items ==> i < context
    decreases context, |items|
  {
    if items == [] then ""
    else
      assert items[0] in items;
      assert forall i :: i in items[1..] ==> i in items;
      Text(le, items[0]) + (if |items| == 1 then "" else "," + ItemTexts(le, context, items[1..]))
  }

  function MemberText(le: Order, context: Json, m: Member): string
    requires m.value < context
    decreases context, 0
  {
    Quote(m.key) + ":" + Text(le, m.value)
  }

  function MemberTexts(le: Order, context: Json, members: seq<Member>): string
    requires forall m :: m in members ==> m.value < context
    decreases context, |members|
  {
    if members == [] then ""
    else
      MemberText(le, context, members[0]) +
      (if |members| == 1 then "" else "," + MemberTexts(le, context, members[1..]))
  }

  // ---------------------------------------------------------------- meaning

  function Meaning(j: Json): Value
    decreases j
  {
    match j
    case Null => VNull
    case Bool(b) => VBool(b)
    case Num(lexeme) => VNum(lexeme)
    case Str(s) => VStr(s)
    case Arr(items) => VArr(seq(|items|, i requires 0 <= i < |items| => Meaning(items[i])))
    case Obj(members) => VObj(MemberMap(j, members))
  }

  function MemberMap(context: Json, members: seq<Member>): map<string, Value>
    requires forall m :: m in members ==> m.value < context
    decreases context, |members|
  {
    if members == [] then map[] else map[members[0].key := Meaning(members[0].value)] + MemberMap(context, members[1..])
  }

  // ---------------------------------------------------------------- parsing

  datatype Parsed<T> = Failed | Parsed(value: T, rest: string)

  function HexValue(c: char): Option<nat> {
    if '0' <= c <= '9' then Some((c as int - '0' as int) as nat)
    else if 'a' <= c <= 'f' then Some((c as int - 'a' as int + 10) as nat)
    else if 'A' <= c <= 'F' then Some((c as int - 'A' as int + 10) as nat)
    else None
  }

  /** Four hexadecimal digits naming a character; surrogate halves are not characters here. */
  function ParseHex(s: string): Parsed<char> {
    if |s| < 4 then Failed
    else
      var a, b, c, d := HexValue(s[0]), HexValue(s[1]), HexValue(s[2]), HexValue(s[3]);
      if a.None? || b.None? || c.None? || d.None? then Failed
      else
        var n := ((a.value * 16 + b.value) * 16 + c.value) * 16 + d.value;
        if n < 0xD800 then Parsed(n as char, s[4..])
        else if 0xE000 <= n < 0x10000 then Parsed(n as char, s[4..])
        else Failed
  }

  /** One character after a backslash. */
  function ParseEscape(s: string): (r: Parsed<char>)
    ensures r.Parsed? ==> |r.rest| < |s|
  {
    if s == "" then Failed
    else if s[0] == '"' || s[0] == '\\' || s[0] == '/' then Parsed(s[0], s[1..])
    else if s[0] == 'b' then Parsed(8 as char, s[1..])
    else if s[0] == 't' then Parsed(9 as char, s[1..])
    else if s[0] == 'n' then Parsed(10 as char, s[1..])
    else if s[0] == 'f' then Parsed(12 as char, s[1..])
    else if s[0] == 'r' then Parsed(13 as char, s[1..])
    else if s[0] == 'u' then ParseHex(s[1..])
    else Failed
  }

  /** The characters up to and including the closing quote. */
  function ParseChars(s: string): (r: Parsed<string>)
    ensures r.Parsed? ==> |r.rest| < |s|
    decreases |s|
  {
    if s == "" || s[0] as int < 32 then Failed
    else if s[0] == '"' then Parsed("", s[1..])
    else if s[0] == '\\' then
      var first := ParseEscape(s[1..]);
      if first.Failed? then Failed
      else
        var others := ParseChars(first.rest);
        if others.Failed? then Failed else Parsed([first.value] + others.value, others.rest)
    else
      var others := ParseChars(s[1..]);
      if others.Failed? then Failed else Parsed([s[0]] + others.value, others.rest)
  }

  function NumberLength(s: string): (n: nat)
    ensures n <= |s|
  {
    if s == "" || !NumberChar(s[0]) then 0 else 1 + NumberLength(s[1..])
  }

  function ParseValue(s: string): (r: Parsed<Value>)
    ensures r.Parsed? ==> |r.rest| < |s|
    decreases |s|, 0
  {
    if "null" <= s then Parsed(VNull, s[4..])
    else if "true" <= s then Parsed(VBool(true), s[4..])
    else if "false" <= s then Parsed(VBool(false), s[5..])
    else if s == "" then Failed
    else if s[0] == '"' then
      var chars := ParseChars(s[1..]);
      if chars.Failed? then Failed else Parsed(VStr(chars.value), chars.rest)
    else if s[0] == '[' then
      if |s| > 1 && s[1] == ']' then Parsed(VArr([]), s[2..])
      else
        var items := ParseItems(s[1..]);
        if items.Failed? then Failed else Parsed(VArr(items.value), items.rest)
    else if s[0] == '{' then
      if |s| > 1 && s[1] == '}' then Parsed(VObj(map[]), s[2..])
      else
        var members := ParseMembers(s[1..]);
        if members.Failed? then Failed else Parsed(VObj(members.value), members.rest)
    else if s[0] in "-0123456789" then
      var n := NumberLength(s);
      Parsed(VNum(s[..n]), s[n..])
    else Failed
  }

  /** One or more items up to and including the closing bracket. */
  function ParseItems(s: string): (r: Parsed<seq<Value>>)
    ensures r.Parsed? ==> |r.rest| < |s|
    decreases |s|, 1
  {
    var first := ParseValue(s);
    if first.Failed? || first.rest == "" then Failed
    else if first.rest[0] == ']' then Parsed([first.value], first.rest[1..])
    else if first.rest[0] == ',' then
      var others := ParseItems(first.rest[1..]);
      if others.Failed? then Failed else Parsed([first.value] + others.value, others.rest)
    else Failed
  }

  /** One or more members up to and including the closing brace; a later duplicate wins. */
  function ParseMembers(s: string): (r: Parsed<map<string, Value>>)
    ensures r.Parsed? ==> |r.rest| < |s|
    decreases |s|, 1
  {
    if s == "" || s[0] != '"' then Failed
    else
      var key := ParseChars(s[1..]);
      if key.Failed? || key.rest == "" || key.rest[0] != ':' then Failed
      else
        var first := ParseValue(key.rest[1..]);
        if first.Failed? || first.rest == "" then Failed
        else if first.rest[0] == '}' then Parsed(map[key.value := first.value], first.rest[1..])
        else if first.rest[0] == ',' then
          var others := ParseMembers(first.rest[1..]);
          if others.Failed? then Failed else Parsed(map[key.value := first.value] + others.value, others.rest)
        else Failed
  }

  // ---------------------------------------------------------------- parsing undoes printing

  lemma EscapeParses(c: char, rest: string)
    ensures var e := Escape(c);
      if e == [c] then c as int >= 32 && c != '"' && c != '\\'
      else e[0] == '\\' && ParseEscape((e + rest)[1..]) == Parsed(c, rest)
  {
    var e, n := Escape(c), c as int;
    if n < 32 && n != 8 && n != 9 && n != 10 && n != 12 && n != 13 {
      var s := (e + rest)[1..];
      assert s == ['u', '0', '0', Hex(n / 16), Hex(n % 16)] + rest;
      assert s[1..] == ['0', '0', Hex(n / 16), Hex(n % 16)] + rest;
      assert s[1..][4..] == rest;
      HexParses(n / 16);
      HexParses(n % 16);
      assert n / 16 * 16 + n % 16 == n;
      assert HexValue('0') == Some(0);
    } else if e != [c] {
      assert (e + rest)[1..] == [e[1]] + rest;
      assert ([e[1]] + rest)[1..] == rest;
    }
  }

  lemma HexParses(n: nat)
    requires n < 16
    ensures HexValue(Hex(n)) == Some(n)
  {
  }

  lemma {:induction false} QuoteParses(s: string, rest: string)
    ensures ParseChars(Escaped(s) + "\"" + rest) == Parsed(s, rest)
  {
    if s == "" {
      assert Escaped(s) + "\"" + rest == "\"" + rest;
    } else {
      QuoteParses(s[1..], rest);
      var tail := Escaped(s[1..]) + "\"" + rest;
      assert Escaped(s) + "\"" + rest == Escape(s[0]) + tail;
      EscapeParses(s[0], tail);
      var all := Escape(s[0]) + tail;
      if Escape(s[0]) == [s[0]] {
        assert all[0] == s[0] && all[1..] == tail;
      }
      assert [s[0]] + s[1..] == s;
    }
  }

  ghost predicate Ends(rest: string) {
    rest == "" || !NumberChar(rest[0])
  }

  lemma {:induction false} NumberParses(lexeme: string, rest: string)
    requires Ends(rest) && forall i :: 0 <= i < |lexeme| ==> NumberChar(lexeme[i])
    ensures NumberLength(lexeme + rest) == |lexeme|
  {
    if lexeme == "" {
      assert lexeme + rest == rest;
    } else {
      NumberParses(lexeme[1..], rest);
      assert (lexeme + rest)[1..] == lexeme[1..] + rest;
    }
  }

  /** The text of a value never starts with the bracket that would end an empty array or object. */
  lemma TextStarts(le: Order, j: Json)
    requires Valid(j)
    ensures Text(le, j) != "" && Text(le, j)[0] !in "]},:"
  {
  }

  function Meanings(context: Json, items: seq<Json>): seq<Value>
    requires forall i :: i in items ==> i < context
  {
    seq(|items|, k requires 0 <= k < |items| => assert items[k] in items; Meaning(items[k]))
  }

  lemma ArrayParses(t: string, items: seq<Value>, rest: string)
    requires ParseItems(t) == Parsed(items, rest) && t != "" && t[0] != ']'
    ensures ParseValue("[" + t) == Parsed(VArr(items), rest)
  {
    assert ("[" + t)[1..] == t;
  }

  lemma ObjectParses(t: string, members: map<string, Value>, rest: string)
    requires ParseMembers(t) == Parsed(members, rest)
    ensures ParseValue("{" + t) == Parsed(VObj(members), rest)
  {
    assert ("{" + t)[1..] == t;
  }

  lemma EmptyParses(rest: string)
    ensures ParseValue("[]" + rest) == Parsed(VArr([]), rest)
    ensures ParseValue("{}" + rest) == Parsed(VObj(map[]), rest)
  {
    var a, o := "[]" + rest, "{}" + rest;
    assert a[0] == '[' && a[1] == ']' && a[2..] == rest;
    assert o[0] == '{' && o[1] == '}' && o[2..] == rest;
  }

  lemma LastItemParses(s: string, v: Value, rest: string)
    requires ParseValue(s) == Parsed(v, "]" + rest)
    ensures ParseItems(s) == Parsed([v], rest)
  {
    assert ("]" + rest)[1..] == rest;
  }

  lemma FirstItemParses(s: string, v: Value, t: string, others: seq<Value>, rest: string)
    requires ParseValue(s) == Parsed(v, "," + t) && ParseItems(t) == Parsed(others, rest)
    ensures ParseItems(s) == Parsed([v] + others, rest)
  {
    assert ("," + t)[1..] == t;
  }

  lemma KeyParses(key: string, t: string)
    ensures ParseChars((Quote(key) + ":" + t)[1..]) == Parsed(key, ":" + t)
  {
    assert (Quote(key) + ":" + t)[1..] == Escaped(key) + "\"" + (":" + t);
    QuoteParses(key, ":" + t);
  }

  lemma LastMemberParses(key: string, t: string, v: Value, rest: string)
    requires ParseValue(t) == Parsed(v, "}" + rest)
    ensures ParseMembers(Quote(key) + ":" + t) == Parsed(map[key := v], rest)
  {
    KeyParses(key, t);
    assert (":" + t)[1..] == t && ("}" + rest)[1..] == rest;
  }

  lemma FirstMemberParses(key: string, t: string, v: Value, u: string, others: map<string, Value>, rest: string)
    requires ParseValue(t) == Parsed(v, "," + u) && ParseMembers(u) == Parsed(others, rest)
    ensures ParseMembers(Quote(key) + ":" + t) == Parsed(map[key := v] + others, rest)
  {
    KeyParses(key, t);
    assert (":" + t)[1..] == t && ("," + u)[1..] == u;
  }

  lemma KeywordParses(le: Order, j: Json, rest: string)
    requires j.Null? || j.Bool?
    ensures ParseValue(Text(le, j) + rest) == Parsed(Meaning(j), rest)
  {
    var s := Text(le, j) + rest;
    if j == Bool(false) {
      assert s[..5] == "false" && s[5..] == rest && s[0] == 'f';
    } else {
      assert s[..4] == Text(le, j) && s[4..] == rest && s[0] == Text(le, j)[0];
    }
  }

  lemma NumberTextParses(lexeme: string, rest: string)
    requires Lexeme(lexeme) && Ends(rest)
    ensures ParseValue(lexeme + rest) == Parsed(VNum(lexeme), rest)
  {
    var s := lexeme + rest;
    NumberParses(lexeme, rest);
    assert s[..|lexeme|] == lexeme && s[|lexeme|..] == rest;
    assert s[0] == lexeme[0];
    NumberStarts(s);
  }

  lemma NumberStarts(s: string)
    requires s != "" && s[0] in "-0123456789"
    ensures ParseValue(s) == Parsed(VNum(s[..NumberLength(s)]), s[NumberLength(s)..])
  {
    assert s[0] !in "ntf\"[{";
  }

  lemma StringTextParses(t: string, rest: string)
    ensures ParseValue(Quote(t) + rest) == Parsed(VStr(t), rest)
  {
    var s := Quote(t) + rest;
    assert s[0] == '"' && s[1..] == Escaped(t) + "\"" + rest;
    QuoteParses(t, rest);
  }

  /** Parsing the text of a tree gives what the tree stands for, and stops where the text stops. */
  lemma {:induction false} TextParses(le: Order, j: Json, rest: string)
    requires Valid(j) && Ends(rest)
    ensures ParseValue(Text(le, j) + rest) == Parsed(Meaning(j), rest)
    decreases j
  {
    if j.Arr? {
      ArrayTextParses(le, j, rest);
    } else if j.Obj? {
      ObjectTextParses(le, j, rest);
    } else if j.Num? {
      NumberTextParses(j.lexeme, rest);
    } else if j.Str? {
      StringTextParses(j.s, rest);
    } else {
      KeywordParses(le, j, rest);
    }
  }

  lemma {:induction false} ArrayTextParses(le: Order, j: Json, rest: string)
    requires j.Arr? && Valid(j)
    ensures ParseValue(Text(le, j) + rest) == Parsed(Meaning(j), rest)
    decreases j, 0
  {
    ArrayTextShape(le, j, rest);
    if j.items == [] {
      EmptyParses(rest);
    } else {
      ItemTextsStart(le, j, j.items);
      ItemsParse(le, j, j.items, rest);
      ArrayParses(ItemTexts(le, j, j.items) + "]" + rest, Meanings(j, j.items), rest);
    }
  }

  lemma ArrayTextShape(le: Order, j: Json, rest: string)
    requires j.Arr?
    ensures Text(le, j) + rest == if j.items == [] then "[]" + rest else "[" + (ItemTexts(le, j, j.items) + "]" + rest)
    ensures Meaning(j) == VArr(Meanings(j, j.items))
    ensures j.items == [] ==> Meaning(j) == VArr([])
  {
    assert Meaning(j).items == Meanings(j, j.items);
  }

  lemma {:induction false} ObjectTextParses(le: Order, j: Json, rest: string)
    requires j.Obj? && Valid(j)
    ensures ParseValue(Text(le, j) + rest) == Parsed(Meaning(j), rest)
    decreases j, 0
  {
    var sorted := InKeyOrder(le, j.members);
    SortedMembersBelong(le, j.members);
    ObjectTextShape(le, j, rest);
    if j.members == [] {
      EmptyParses(rest);
    } else {
      assert j.members[0] in sorted;
      MembersParse(le, j, sorted, rest);
      ObjectParses(MemberTexts(le, j, sorted) + "}" + rest, MemberMap(j, sorted), rest);
      SortKeepsDistinct(le, j.members);
      SameMembersSameMap(j, sorted, j.members);
    }
  }

  lemma ObjectTextShape(le: Order, j: Json, rest: string)
    requires j.Obj? && forall m :: m in InKeyOrder(le, j.members) <==> m in j.members
    ensures Text(le, j) + rest ==
            if j.members == [] then "{}" + rest else "{" + (MemberTexts(le, j, InKeyOrder(le, j.members)) + "}" + rest)
  {
  }

  lemma ItemTextsStart(le: Order, context: Json, items: seq<Json>)
    requires items != [] && (forall i :: i in items ==> i < context && Valid(i))
    ensures ItemTexts(le, context, items) != "" && ItemTexts(le, context, items)[0] != ']'
  {
    assert items[0] in items;
    TextStarts(le, items[0]);
  }

  lemma {:induction false} ItemsParse(le: Order, context: Json, items: seq<Json>, rest: string)
    requires items != [] && (forall i :: i in items ==> i < context && Valid(i))
    ensures ParseItems(ItemTexts(le, context, items) + "]" + rest) == Parsed(Meanings(context, items), rest)
    decreases context, 0, |items|
  {
    var first, v := Text(le, items[0]), Meaning(items[0]);
    assert items[0] in items;
    if |items| == 1 {
      TextParses(le, items[0], "]" + rest);
      LastItemParses(first + ("]" + rest), v, rest);
      LastItemShape(le, context, items, rest);
    } else {
      assert forall i :: i in items[1..] ==> i in items;
      var t := ItemTexts(le, context, items[1..]) + "]" + rest;
      TextParses(le, items[0], "," + t);
      ItemsParse(le, context, items[1..], rest);
      FirstItemParses(first + ("," + t), v, t, Meanings(context, items[1..]), rest);
      FirstItemShape(le, context, items, rest);
    }
  }

  lemma LastItemShape(le: Order, context: Json, items: seq<Json>, rest: string)
    requires |items| == 1 && forall i :: i in items ==> i < context
    ensures ItemTexts(le, context, items) + "]" + rest == Text(le, items[0]) + ("]" + rest)
    ensures Meanings(context, items) == [Meaning(items[0])]
  {
  }

  lemma FirstItemShape(le: Order, context: Json, items: seq<Json>, rest: string)
    requires |items| > 1 && (forall i :: i in items ==> i < context) && (forall i :: i in items[1..] ==> i in items)
    ensures ItemTexts(le, context, items) + "]" + rest ==
            Text(le, items[0]) + ("," + (ItemTexts(le, context, items[1..]) + "]" + rest))
    ensures Meanings(context, items) == [Meaning(items[0])] + Meanings(context, items[1..])
  {
  }

  lemma {:induction false} MembersParse(le: Order, context: Json, members: seq<Member>, rest: string)
    requires members != [] && (forall m :: m in members ==> m.value < context && Valid(m.value))
    ensures ParseMembers(MemberTexts(le, context, members) + "}" + rest) == Parsed(MemberMap(context, members), rest)
    decreases context, 0, |members|
  {
    var m := members[0];
    if |members| == 1 {
      TextParses(le, m.value, "}" + rest);
      LastMemberParses(m.key, Text(le, m.value) + ("}" + rest), Meaning(m.value), rest);
      LastMemberShape(le, context, members, rest);
    } else {
      var u := MemberTexts(le, context, members[1..]) + "}" + rest;
      TextParses(le, m.value, "," + u);
      MembersParse(le, context, members[1..], rest);
      FirstMemberParses(m.key, Text(le, m.value) + ("," + u), Meaning(m.value), u, MemberMap(context, members[1..]),
                        rest);
      FirstMemberShape(le, context, members, rest);
    }
  }

  lemma LastMemberShape(le: Order, context: Json, members: seq<Member>, rest: string)
    requires |members| == 1 && forall m :: m in members ==> m.value < context
    ensures MemberTexts(le, context, members) + "}" + rest ==
      Quote(members[0].key) + ":" + (Text(le, members[0].value) + ("}" + rest))
    ensures MemberMap(context, members) == map[members[0].key := Meaning(members[0].value)]
  {
    Associates(Quote(members[0].key) + ":", Text(le, members[0].value), "}", rest);
    assert MemberMap(context, members) == map[members[0].key := Meaning(members[0].value)] + MemberMap(context, []);
  }

  lemma FirstMemberShape(le: Order, context: Json, members: seq<Member>, rest: string)
    requires |members| > 1 && forall m :: m in members ==> m.value < context
    ensures MemberTexts(le, context, members) + "}" + rest ==
            Quote(members[0].key) + ":" +
            (Text(le, members[0].value) + ("," + (MemberTexts(le, context, members[1..]) + "}" + rest)))
  {
    var k, v, t := Quote(members[0].key) + ":", Text(le, members[0].value), MemberTexts(le, context, members[1..]);
    assert MemberTexts(le, context, members) == (k + v) + ("," + t);
    assert (k + v) + ("," + t) + "}" + rest == k + (v + ("," + (t + "}" + rest)));
  }

  lemma Associates(a: string, b: string, c: string, d: string)
    ensures (a + b) + c + d == a + (b + (c + d))
  {
  }

  // ---------------------------------------------------------------- member order

  lemma {:induction false} MemberMapKeys(context: Json, members: seq<Member>)
    requires forall m :: m in members ==> m.value < context
    ensures forall k :: k in MemberMap(context, members) ==> HasKey(members, k)
    decreases |members|
  {
    if members != [] {
      assert forall m :: m in members[1..] ==> m in members;
      MemberMapKeys(context, members[1..]);
      assert members[0] in members;
    }
  }

  lemma {:induction false} MemberMapAt(context: Json, members: seq<Member>, i: nat)
    requires forall m :: m in members ==> m.value < context
    requires DistinctKeys(members) && i < |members|
    ensures members[i].key in MemberMap(context, members)
    ensures MemberMap(context, members)[members[i].key] == Meaning(members[i].value)
    decreases |members|
  {
    var tail := members[1..];
    assert forall m :: m in tail ==> m in members;
    assert forall k :: 0 <= k < |tail| ==> tail[k] == members[k + 1];
    if i == 0 {
      MemberMapKeys(context, tail);
    } else {
      MemberMapAt(context, tail, i - 1);
    }
  }

  lemma MemberMapIs(context: Json, members: seq<Member>)
    requires forall m :: m in members ==> m.value < context
    requires DistinctKeys(members)
    ensures forall m :: m in members ==>
      m.key in MemberMap(context, members) && MemberMap(context, members)[m.key] == Meaning(m.value)
    ensures forall k :: k in MemberMap(context, members) ==> HasKey(members, k)
  {
    MemberMapKeys(context, members);
    forall m | m in members
      ensures m.key in MemberMap(context, members) && MemberMap(context, members)[m.key] == Meaning(m.value)
    {
      var i :| 0 <= i < |members| && members[i] == m;
      MemberMapAt(context, members, i);
    }
  }

  ghost predicate HasKey(members: seq<Member>, k: string) {
    exists m :: m in members && m.key == k
  }

  lemma TailKeys(members: seq<Member>)
    requires members != [] && DistinctKeys(members)
    ensures forall k :: HasKey(members[1..], k) <==> HasKey(members, k) && k != members[0].key
  {
    forall k
      ensures HasKey(members[1..], k) <==> HasKey(members, k) && k != members[0].key
    {
      if HasKey(members[1..], k) {
        var i :| 0 <= i < |members[1..]| && members[1..][i].key == k;
        assert members[i + 1] in members && members[i + 1].key == k;
      }
      if HasKey(members, k) && k != members[0].key {
        var m :| m in members && m.key == k;
        var i :| 0 <= i < |members| && members[i] == m;
        assert members[1..][i - 1] == m;
      }
    }
  }

  lemma SameMembersSameMap(context: Json, xs: seq<Member>, ys: seq<Member>)
    requires forall m :: m in ys ==> m.value < context
    requires DistinctKeys(xs) && DistinctKeys(ys) && forall m :: m in xs <==> m in ys
    ensures MemberMap(context, xs) == MemberMap(context, ys)
  {
    MemberMapIs(context, xs);
    MemberMapIs(context, ys);
  }

  lemma SortKeepsDistinct(le: Order, members: seq<Member>)
    requires DistinctKeys(members)
    ensures DistinctKeys(InKeyOrder(le, members))
  {
    var sorted := InKeyOrder(le, members);
    PermutationKeepsMembers(members, sorted);
    forall i, j | 0 <= i < j < |sorted|
      ensures sorted[i].key != sorted[j].key
    {
      assert sorted[i] in members && sorted[j] in members && AllDistinct(members);
      var k :| 0 <= k < |members| && members[k] == sorted[i];
      var l :| 0 <= l < |members| && members[l] == sorted[j];
      assert sorted[i] != sorted[j] && k != l;
    }
  }

  // ---------------------------------------------------------------- faithfulness

  /** Trees with the same text stand for the same value, whatever order the sort uses. */
  lemma SameTextSameMeaning(le: Order, x: Json, y: Json)
    requires Valid(x) && Valid(y) && Text(le, x) == Text(le, y)
    ensures Meaning(x) == Meaning(y)
  {
    TextParses(le, x, "");
    TextParses(le, y, "");
  }
}
