/**
  The canonical text piece by piece: what `JSON.stringify` makes of a string, and how arrays and objects are put
  together, the members of an object in ascending order of their keys.
 */
module TextShape {

  import opened CanonicalText
  import opened Collation
  import opened StableJson
  import opened StableSort

  function Commas(parts: seq<string>): string {
    if parts == [] then "" else if |parts| == 1 then parts[0] else parts[0] + "," + Commas(parts[1..])
  }

  // ---------------------------------------------------------------- strings

  /** The characters with an escape of two, and its second one. */
  const SHORT_ESCAPES: map<char, char> := map[
    '"' := '"', '\\' := '\\', 8 as char := 'b', 9 as char := 't', 10 as char := 'n', 12 as char := 'f', 13 as char :=
      'r'
  ]

  function DigitOf(c: char): int {
    if '0' <= c <= '9' then c as int - '0' as int else if 'a' <= c <= 'f' then c as int - 'a' as int + 10 else -1
  }

  /** A character is printed as it is, unless it has a short escape or is another control character. */
  lemma EscapeReads(c: char)
    ensures if c in SHORT_ESCAPES then Escape(c) == ['\\', SHORT_ESCAPES[c]]
      else if c as int >= 32 then Escape(c) == [c]
      else
        |Escape(c)| == 6 && Escape(c)[..4] == "\\u00" && DigitOf(Escape(c)[4]) >= 0 && DigitOf(Escape(c)[5]) >= 0 &&
        16 * DigitOf(Escape(c)[4]) + DigitOf(Escape(c)[5]) == c as int
  {
    var n := c as int;
    if c !in SHORT_ESCAPES && n < 32 {
      HexReads(n / 16);
      HexReads(n % 16);
    }
  }

  lemma HexReads(n: nat)
    requires n < 16
    ensures DigitOf(Hex(n)) == n
  {
  }

  function Concat(parts: seq<string>): string {
    if parts == [] then "" else parts[0] + Concat(parts[1..])
  }

  /** A string is printed character by character between quote marks. */
  lemma {:induction false} QuoteReads(s: string)
    ensures Quote(s) == "\"" + Concat(seq(|s|, i requires 0 <= i < |s| => Escape(s[i]))) + "\""
  {
    EscapedReads(s);
  }

  lemma {:induction false} EscapedReads(s: string)
    ensures Escaped(s) == Concat(seq(|s|, i requires 0 <= i < |s| => Escape(s[i])))
  {
    if s != "" {
      EscapedReads(s[1..]);
      var parts := seq(|s|, i requires 0 <= i < |s| => Escape(s[i]));
      assert parts[1..] == seq(|s[1..]|, i requires 0 <= i < |s[1..]| => Escape(s[1..][i]));
    }
  }

  // ---------------------------------------------------------------- arrays and objects

  function ItemParts(le: Order, items: seq<Json>): seq<string> {
    seq(|items|, i requires 0 <= i < |items| => Text(le, items[i]))
  }

  function MemberParts(le: Order, members: seq<Member>): seq<string> {
    seq(|members|, i requires 0 <= i < |members| => Quote(members[i].key) + ":" + Text(le, members[i].value))
  }

  lemma {:induction false} ItemsRead(le: Order, context: Json, items: seq<Json>)
    requires forall i :: i in items ==> i < context
    ensures ItemTexts(le, context, items) == Commas(ItemParts(le, items))
    decreases |items|
  {
    if items != [] {
      assert forall i :: i in items[1..] ==> i in items;
      ItemsRead(le, context, items[1..]);
      assert ItemParts(le, items)[1..] == ItemParts(le, items[1..]);
    }
  }

  lemma {:induction false} MembersRead(le: Order, context: Json, members: seq<Member>)
    requires forall m :: m in members ==> m.value < context
    ensures MemberTexts(le, context, members) == Commas(MemberParts(le, members))
    decreases |members|
  {
    if members != [] {
      TailBelow(context, members);
      MembersRead(le, context, members[1..]);
      assert MemberParts(le, members)[1..] == MemberParts(le, members[1..]);
    }
  }

  /** The text of an array: its items in their order. */
  lemma ArrayReads(le: Order, items: seq<Json>)
    ensures Text(le, Arr(items)) == "[" + Commas(ItemParts(le, items)) + "]"
  {
    ItemsRead(le, Arr(items), items);
  }

  /** The same members, in ascending order of their keys. */
  ghost predicate Lists(le: Order, ordered: seq<Member>, members: seq<Member>) {
    multiset(ordered) == multiset(members) &&
    forall i, j :: 0 <= i < j < |ordered| ==> le(ordered[i].key, ordered[j].key)
  }

  /** The text of an object: all its members, in ascending order of their keys. */
  lemma ObjectReads(le: Order, members: seq<Member>)
    requires TotalPreorder(le)
    ensures exists ordered :: Lists(le, ordered, members) &&
                              Text(le, Obj(members)) == "{" + Commas(MemberParts(le, ordered)) + "}"
  {
    var ordered := InKeyOrder(le, members);
    SortedMembersBelong(le, members);
    InKeyOrderIsOrdered(le, members);
    MembersRead(le, Obj(members), ordered);
  }

  /** The other texts: a number as it prints, and the three words. */
  lemma AtomsRead(le: Order, lexeme: string)
    ensures Text(le, Num(lexeme)) == lexeme && Text(le, Null) == "null"
    ensures Text(le, Bool(true)) == "true" && Text(le, Bool(false)) == "false"
  {
  }
}
