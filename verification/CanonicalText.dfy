/**
  When the canonical text of a tree does not depend on the order in which its objects list their members: exactly
  when no object in the tree has two keys that the comparison does not tell apart.
 */
module CanonicalText {

  import opened Collation
  import opened Permutations
  import opened StableJson
  import opened StableSort

  ghost predicate Tied(le: Order, a: string, b: string) {
    le(a, b) && le(b, a)
  }

  ghost predicate NoTiedKeys(le: Order, members: seq<Member>) {
    forall m, n :: m in members && n in members && Tied(le, m.key, n.key) ==> m.key == n.key
  }

  /** No object anywhere in the tree has two distinct keys that compare equal. */
  ghost predicate Untied(le: Order, j: Json) {
    match j
    case Arr(items) => forall i :: 0 <= i < |items| ==> Untied(le, items[i])
    case Obj(members) => NoTiedKeys(le, members) && forall i :: 0 <= i < |members| ==> Untied(le, members[i].value)
    case _ => true
  }

  /** Every tree that stands for the same value has the same text. */
  ghost predicate Canonical(le: Order, x: Json) {
    forall y :: Valid(y) && Meaning(y) == Meaning(x) ==> Text(le, y) == Text(le, x)
  }

  // ---------------------------------------------------------------- without ties

  ghost predicate Ordered(le: Order, members: seq<Member>) {
    forall i, j :: 0 <= i < j < |members| ==> le(members[i].key, members[j].key)
  }

  lemma KeysCompare(le: Order)
    requires TotalPreorder(le)
    ensures TotalPreorder(KeyOrder(le))
  {
    assert forall m, n :: KeyOrder(le)(m, n) == le(m.key, n.key);
  }

  lemma InKeyOrderIsOrdered(le: Order, members: seq<Member>)
    requires TotalPreorder(le)
    ensures Ordered(le, InKeyOrder(le, members))
  {
    KeysCompare(le);
    SortSorts(KeyOrder(le), members);
  }

  /** Two ordered member lists with the same keys, none of them tied, list them in the same order. */
  lemma {:induction false} SameKeysSameOrder(le: Order, xs: seq<Member>, ys: seq<Member>)
    requires NoTiedKeys(le, xs) && Ordered(le, xs) && Ordered(le, ys) && DistinctKeys(xs) && DistinctKeys(ys)
    requires forall k :: HasKey(xs, k) <==> HasKey(ys, k)
    ensures |xs| == |ys| && forall i :: 0 <= i < |xs| ==> xs[i].key == ys[i].key
  {
    if xs != [] { assert xs[0] in xs && HasKey(xs, xs[0].key); }
    if ys != [] { assert ys[0] in ys && HasKey(ys, ys[0].key); }
    if xs != [] && ys != [] {
      SameHeadKey(le, xs, ys);
      TailKeys(xs);
      TailKeys(ys);
      SameKeysSameOrder(le, xs[1..], ys[1..]);
      assert forall i :: 1 <= i < |xs| ==> xs[i] == xs[1..][i - 1] && ys[i] == ys[1..][i - 1];
    }
  }

  lemma SameHeadKey(le: Order, xs: seq<Member>, ys: seq<Member>)
    requires NoTiedKeys(le, xs) && Ordered(le, xs) && Ordered(le, ys) && xs != [] && ys != []
    requires HasKey(xs, ys[0].key) && HasKey(ys, xs[0].key)
    ensures xs[0].key == ys[0].key
  {
    HeadIsLeast(le, xs, ys[0].key);
    HeadIsLeast(le, ys, xs[0].key);
    var m :| m in xs && m.key == ys[0].key;
    assert xs[0] in xs;
  }

  lemma HeadIsLeast(le: Order, members: seq<Member>, k: string)
    requires Ordered(le, members) && HasKey(members, k)
    ensures members != [] && (k == members[0].key || le(members[0].key, k))
  {
  }

  /** Two trees that stand for the same value have the same text, when one of them has no ties. */
  lemma {:induction false} SameMeaningSameText(le: Order, x: Json, y: Json)
    requires TotalPreorder(le) && Untied(le, x) && Valid(x) && Valid(y) && Meaning(x) == Meaning(y)
    ensures Text(le, x) == Text(le, y)
    decreases x
  {
    if x.Arr? {
      assert Meaning(x).items == Meanings(x, x.items) && Meaning(y).items == Meanings(y, y.items);
      forall i | 0 <= i < |x.items|
        ensures Text(le, x.items[i]) == Text(le, y.items[i])
      {
        assert Meaning(x).items[i] == Meaning(y).items[i];
        SameMeaningSameText(le, x.items[i], y.items[i]);
      }
      SameItemTexts(le, x, y, x.items, y.items);
    } else if x.Obj? {
      var xs, ys := InKeyOrder(le, x.members), InKeyOrder(le, y.members);
      SortedPairwise(le, x, y);
      SortedMembersBelong(le, x.members);
      SortedMembersBelong(le, y.members);
      forall i | 0 <= i < |xs|
        ensures Text(le, xs[i].value) == Text(le, ys[i].value)
      {
        assert xs[i] in x.members && ys[i] in y.members;
        SameMeaningSameText(le, xs[i].value, ys[i].value);
      }
      SameMemberTexts(le, x, y, xs, ys);
    }
  }

  lemma SortedPairwise(le: Order, x: Json, y: Json)
    requires TotalPreorder(le) && Valid(x) && Valid(y) && x.Obj? && y.Obj? && Meaning(x) == Meaning(y)
    requires NoTiedKeys(le, x.members)
    ensures var xs, ys := InKeyOrder(le, x.members), InKeyOrder(le, y.members);
      |xs| == |ys| &&
      forall i :: 0 <= i < |xs| ==> xs[i].key == ys[i].key && Meaning(xs[i].value) == Meaning(ys[i].value)
  {
    var xs, ys := InKeyOrder(le, x.members), InKeyOrder(le, y.members);
    SortedMembersBelong(le, x.members);
    SortedMembersBelong(le, y.members);
    InKeyOrderIsOrdered(le, x.members);
    InKeyOrderIsOrdered(le, y.members);
    SortKeepsDistinct(le, x.members);
    SortKeepsDistinct(le, y.members);
    SameMembersSameMap(x, xs, x.members);
    SameMembersSameMap(y, ys, y.members);
    MemberMapIs(x, xs);
    MemberMapIs(y, ys);
    SameKeysSameOrder(le, xs, ys);
    forall i | 0 <= i < |xs|
      ensures Meaning(xs[i].value) == Meaning(ys[i].value)
    {
      assert xs[i] in xs && ys[i] in ys;
    }
  }

  lemma TailBelow(context: Json, members: seq<Member>)
    requires members != [] && forall m :: m in members ==> m.value < context
    ensures forall m :: m in members[1..] ==> m.value < context
  {
  }

  lemma {:induction false} SameItemTexts(le: Order, cx: Json, cy: Json, xs: seq<Json>, ys: seq<Json>)
    requires (forall i :: i in xs ==> i < cx) && (forall i :: i in ys ==> i < cy)
    requires |xs| == |ys| && forall i :: 0 <= i < |xs| ==> Text(le, xs[i]) == Text(le, ys[i])
    ensures ItemTexts(le, cx, xs) == ItemTexts(le, cy, ys)
    decreases |xs|
  {
    if xs != [] {
      assert (forall i :: i in xs[1..] ==> i in xs) && (forall i :: i in ys[1..] ==> i in ys);
      SameItemTexts(le, cx, cy, xs[1..], ys[1..]);
    }
  }

  lemma {:induction false} SameMemberTexts(le: Order, cx: Json, cy: Json, xs: seq<Member>, ys: seq<Member>)
    requires (forall m :: m in xs ==> m.value < cx) && (forall m :: m in ys ==> m.value < cy)
    requires |xs| == |ys| && forall i :: 0 <= i < |xs| ==>
      xs[i].key == ys[i].key && Text(le, xs[i].value) == Text(le, ys[i].value)
    ensures MemberTexts(le, cx, xs) == MemberTexts(le, cy, ys)
    decreases |xs|
  {
    if xs != [] {
      TailBelow(cx, xs);
      TailBelow(cy, ys);
      SameMemberTexts(le, cx, cy, xs[1..], ys[1..]);
    }
  }

  // ---------------------------------------------------------------- what equal texts agree on

  /** Two texts that start with trees agree on where the first tree ends. */
  lemma SameHead(le: Order, x: Json, y: Json, restX: string, restY: string)
    requires Valid(x) && Valid(y) && Ends(restX) && Ends(restY) && Text(le, x) + restX == Text(le, y) + restY
    ensures restX == restY && Text(le, x) == Text(le, y)
  {
    TextParses(le, x, restX);
    TextParses(le, y, restY);
    var s := Text(le, x) + restX;
    assert Text(le, x) == s[..|s| - |restX|] && Text(le, y) == s[..|s| - |restY|];
  }

  lemma SameMemberHead(le: Order, m: Member, n: Member, restM: string, restN: string)
    requires Valid(m.value) && Valid(n.value) && Ends(restM) && Ends(restN)
    requires Quote(m.key) + ":" + (Text(le, m.value) + restM) == Quote(n.key) + ":" + (Text(le, n.value) + restN)
    ensures m.key == n.key && restM == restN && Text(le, m.value) == Text(le, n.value)
  {
    var u, v := Text(le, m.value) + restM, Text(le, n.value) + restN;
    KeyParses(m.key, u);
    KeyParses(n.key, v);
    assert (":" + u)[1..] == u && (":" + v)[1..] == v;
    SameHead(le, m.value, n.value, restM, restN);
  }

  /** What follows the first item. */
  function AfterFirst(le: Order, context: Json, items: seq<Json>, rest: string): string
    requires items != [] && forall i :: i in items ==> i < context
  {
    assert forall i :: i in items[1..] ==> i in items;
    if |items| == 1 then "]" + rest else "," + (ItemTexts(le, context, items[1..]) + "]" + rest)
  }

  lemma FirstItem(le: Order, context: Json, items: seq<Json>, rest: string)
    requires items != [] && forall i :: i in items ==> i < context
    ensures ItemTexts(le, context, items) + "]" + rest == Text(le, items[0]) + AfterFirst(le, context, items, rest)
    ensures Ends(AfterFirst(le, context, items, rest))
  {
    assert forall i :: i in items[1..] ==> i in items;
    if |items| == 1 {
      LastItemShape(le, context, items, rest);
    } else {
      FirstItemShape(le, context, items, rest);
    }
  }

  lemma SameFirstItem(le: Order, cx: Json, cy: Json, xs: seq<Json>, ys: seq<Json>, rest: string)
    requires xs != [] && ys != []
    requires (forall i :: i in xs ==> i < cx && Valid(i)) && (forall i :: i in ys ==> i < cy && Valid(i))
    requires ItemTexts(le, cx, xs) + "]" + rest == ItemTexts(le, cy, ys) + "]" + rest
    ensures Text(le, xs[0]) == Text(le, ys[0]) && (|xs| == 1 <==> |ys| == 1)
    ensures AfterFirst(le, cx, xs, rest) == AfterFirst(le, cy, ys, rest)
  {
    FirstItem(le, cx, xs, rest);
    FirstItem(le, cy, ys, rest);
    assert xs[0] in xs && ys[0] in ys;
    SameHead(le, xs[0], ys[0], AfterFirst(le, cx, xs, rest), AfterFirst(le, cy, ys, rest));
    SameTailStart(AfterFirst(le, cx, xs, rest), AfterFirst(le, cy, ys, rest));
  }

  /** Lists of items with the same text agree item by item. */
  lemma {:induction false} SameItems(le: Order, cx: Json, cy: Json, xs: seq<Json>, ys: seq<Json>, rest: string)
    requires xs != [] && ys != []
    requires (forall i :: i in xs ==> i < cx && Valid(i)) && (forall i :: i in ys ==> i < cy && Valid(i))
    requires ItemTexts(le, cx, xs) + "]" + rest == ItemTexts(le, cy, ys) + "]" + rest
    ensures |xs| == |ys| && forall i :: 0 <= i < |xs| ==> Text(le, xs[i]) == Text(le, ys[i])
    decreases |xs|
  {
    SameFirstItem(le, cx, cy, xs, ys, rest);
    if |xs| > 1 {
      assert (forall i :: i in xs[1..] ==> i in xs) && (forall i :: i in ys[1..] ==> i in ys);
      CommaTail(ItemTexts(le, cx, xs[1..]) + "]" + rest, ItemTexts(le, cy, ys[1..]) + "]" + rest);
      SameItems(le, cx, cy, xs[1..], ys[1..], rest);
      SameTextsCons(le, xs, ys);
    }
  }

  lemma SameTextsCons(le: Order, xs: seq<Json>, ys: seq<Json>)
    requires xs != [] && |xs| == |ys| && Text(le, xs[0]) == Text(le, ys[0])
    requires forall i :: 0 <= i < |xs[1..]| ==> Text(le, xs[1..][i]) == Text(le, ys[1..][i])
    ensures forall i :: 0 <= i < |xs| ==> Text(le, xs[i]) == Text(le, ys[i])
  {
    assert forall i :: 1 <= i < |xs| ==> xs[i] == xs[1..][i - 1] && ys[i] == ys[1..][i - 1];
  }

  lemma SameTailStart(a: string, b: string)
    requires a == b && a != ""
    ensures a[0] == b[0]
  {
  }

  lemma CommaTail(a: string, b: string)
    requires "," + a == "," + b
    ensures a == b
  {
    assert ("," + a)[1..] == a && ("," + b)[1..] == b;
  }

  function AfterFirstMember(le: Order, context: Json, members: seq<Member>, rest: string): string
    requires members != [] && forall m :: m in members ==> m.value < context
  {
    TailBelow(context, members);
    if |members| == 1 then "}" + rest else "," + (MemberTexts(le, context, members[1..]) + "}" + rest)
  }

  lemma FirstMember(le: Order, context: Json, members: seq<Member>, rest: string)
    requires members != [] && forall m :: m in members ==> m.value < context
    ensures Ends(AfterFirstMember(le, context, members, rest))
    ensures MemberTexts(le, context, members) + "}" + rest ==
            Quote(members[0].key) + ":" + (Text(le, members[0].value) + AfterFirstMember(le, context, members, rest))
  {
    var after := AfterFirstMember(le, context, members, rest);
    if |members| == 1 {
      LastMemberShape(le, context, members, rest);
      assert after == "}" + rest;
    } else {
      TailBelow(context, members);
      FirstMemberShape(le, context, members, rest);
      assert after == "," + (MemberTexts(le, context, members[1..]) + "}" + rest);
    }
  }

  ghost predicate SamePairs(le: Order, xs: seq<Member>, ys: seq<Member>) {
    |xs| == |ys| &&
    forall i :: 0 <= i < |xs| ==> xs[i].key == ys[i].key && Text(le, xs[i].value) == Text(le, ys[i].value)
  }

  lemma SameFirstMember(le: Order, cx: Json, cy: Json, xs: seq<Member>, ys: seq<Member>, rest: string)
    requires xs != [] && ys != []
    requires forall m :: m in xs ==> m.value < cx && Valid(m.value)
    requires forall m :: m in ys ==> m.value < cy && Valid(m.value)
    requires MemberTexts(le, cx, xs) + "}" + rest == MemberTexts(le, cy, ys) + "}" + rest
    ensures xs[0].key == ys[0].key && Text(le, xs[0].value) == Text(le, ys[0].value) && (|xs| == 1 <==> |ys| == 1)
    ensures AfterFirstMember(le, cx, xs, rest) == AfterFirstMember(le, cy, ys, rest)
  {
    FirstMember(le, cx, xs, rest);
    FirstMember(le, cy, ys, rest);
    assert xs[0] in xs && ys[0] in ys;
    SameMemberHead(le, xs[0], ys[0], AfterFirstMember(le, cx, xs, rest), AfterFirstMember(le, cy, ys, rest));
    SameTailStart(AfterFirstMember(le, cx, xs, rest), AfterFirstMember(le, cy, ys, rest));
  }

  /** Lists of members with the same text agree on every key and on the text of every value. */
  lemma {:induction false} SameMembers(le: Order, cx: Json, cy: Json, xs: seq<Member>, ys: seq<Member>, rest: string)
    requires xs != [] && ys != []
    requires forall m :: m in xs ==> m.value < cx && Valid(m.value)
    requires forall m :: m in ys ==> m.value < cy && Valid(m.value)
    requires MemberTexts(le, cx, xs) + "}" + rest == MemberTexts(le, cy, ys) + "}" + rest
    ensures SamePairs(le, xs, ys)
    decreases |xs|
  {
    SameFirstMember(le, cx, cy, xs, ys, rest);
    if |xs| > 1 {
      assert (forall m :: m in xs[1..] ==> m in xs) && (forall m :: m in ys[1..] ==> m in ys);
      CommaTail(MemberTexts(le, cx, xs[1..]) + "}" + rest, MemberTexts(le, cy, ys[1..]) + "}" + rest);
      SameMembers(le, cx, cy, xs[1..], ys[1..], rest);
      PairsCons(le, xs, ys);
    }
  }

  lemma PairsCons(le: Order, xs: seq<Member>, ys: seq<Member>)
    requires xs != [] && ys != [] && xs[0].key == ys[0].key && Text(le, xs[0].value) == Text(le, ys[0].value)
    requires SamePairs(le, xs[1..], ys[1..])
    ensures SamePairs(le, xs, ys)
  {
    assert forall i :: 1 <= i < |xs| ==> xs[i] == xs[1..][i - 1] && ys[i] == ys[1..][i - 1];
  }

  /** Objects with the same text list the same keys in the same order, each with a value of the same text. */
  lemma ObjectsAgree(le: Order, x: Json, y: Json)
    requires Valid(x) && Valid(y) && x.Obj? && y.Obj? && x.members != [] && y.members != []
    requires Text(le, x) == Text(le, y)
    ensures SamePairs(le, InKeyOrder(le, x.members), InKeyOrder(le, y.members))
  {
    var xs, ys := InKeyOrder(le, x.members), InKeyOrder(le, y.members);
    SortedMembersBelong(le, x.members);
    SortedMembersBelong(le, y.members);
    assert x.members[0] in xs && y.members[0] in ys;
    ObjectTextShape(le, x, "");
    ObjectTextShape(le, y, "");
    var u, v := MemberTexts(le, x, xs) + "}" + "", MemberTexts(le, y, ys) + "}" + "";
    assert Text(le, x) + "" == "{" + u && Text(le, y) + "" == "{" + v;
    assert ("{" + u)[1..] == u && ("{" + v)[1..] == v;
    SameMembers(le, x, y, xs, ys, "");
  }

  lemma ArraysAgree(le: Order, x: Json, y: Json)
    requires Valid(x) && Valid(y) && x.Arr? && y.Arr? && x.items != [] && y.items != [] && Text(le, x) == Text(le, y)
    ensures |x.items| == |y.items| && forall i :: 0 <= i < |x.items| ==> Text(le, x.items[i]) == Text(le, y.items[i])
  {
    ArrayTextShape(le, x, "");
    ArrayTextShape(le, y, "");
    var u, v := ItemTexts(le, x, x.items) + "]" + "", ItemTexts(le, y, y.items) + "]" + "";
    assert Text(le, x) + "" == "[" + u && Text(le, y) + "" == "[" + v;
    assert ("[" + u)[1..] == u && ("[" + v)[1..] == v;
    SameItems(le, x, y, x.items, y.items, "");
  }

  // ---------------------------------------------------------------- with ties

  function ToFront(members: seq<Member>, j: nat): seq<Member>
    requires j < |members|
  {
    [members[j]] + (members[..j] + members[j + 1..])
  }

  lemma ToFrontKeeps(members: seq<Member>, j: nat)
    requires j < |members| && DistinctKeys(members)
    ensures DistinctKeys(ToFront(members, j)) && forall m :: m in ToFront(members, j) <==> m in members
  {
    var moved := ToFront(members, j);
    forall k | 0 <= k < |moved|
      ensures moved[k] == members[MovedFrom(j, k)]
    {
      MovedAt(members, j, k);
    }
    forall k | 0 <= k < |members|
      ensures members[k] in moved
    {
      var to := if k == j then 0 else if k < j then k + 1 else k;
      assert moved[to] == members[MovedFrom(j, to)];
    }
    forall k, l | 0 <= k < l < |moved|
      ensures moved[k].key != moved[l].key
    {
      assert MovedFrom(j, k) != MovedFrom(j, l);
    }
  }

  /** Where the member at `k` was before the one at `j` was moved to the front. */
  function MovedFrom(j: nat, k: nat): nat {
    if k == 0 then j else if k <= j then k - 1 else k
  }

  lemma MovedAt(members: seq<Member>, j: nat, k: nat)
    requires j < |members| && k < |members|
    ensures ToFront(members, j)[k] == members[MovedFrom(j, k)]
  {
  }

  lemma {:induction false} MapIgnoresContext(cx: Json, cy: Json, members: seq<Member>)
    requires (forall m :: m in members ==> m.value < cx) && (forall m :: m in members ==> m.value < cy)
    ensures MemberMap(cx, members) == MemberMap(cy, members)
    decreases |members|
  {
    if members != [] {
      assert forall m :: m in members[1..] ==> m in members;
      MapIgnoresContext(cx, cy, members[1..]);
    }
  }

  lemma RearrangedMeaning(x: Json, y: Json)
    requires x.Obj? && y.Obj? && DistinctKeys(x.members) && DistinctKeys(y.members)
    requires forall m :: m in y.members <==> m in x.members
    ensures Meaning(x) == Meaning(y)
  {
    forall m | m in y.members
      ensures m.value < x && m.value < y
    {
      assert m in x.members;
    }
    SameMembersSameMap(x, x.members, y.members);
    MapIgnoresContext(x, y, y.members);
  }

  /** The first of the members that tie with `z`. */
  lemma {:induction false} FirstTie(le: Order, members: seq<Member>, z: Member, i: nat)
    requires i < |members| && Tie(KeyOrder(le), members[i], z)
    ensures var picked := Ties(KeyOrder(le), z, members);
      picked != [] && picked[0] in members[..i + 1]
  {
    if Tie(KeyOrder(le), members[0], z) {
      assert members[0] in members[..i + 1];
    } else {
      FirstTie(le, members[1..], z, i - 1);
      var first := Ties(KeyOrder(le), z, members)[0];
      var k :| 0 <= k < i && members[1..][..i][k] == first;
      assert members[..i + 1][k + 1] == first;
    }
  }

  /** Lists with the same keys have the same ties, key by key. */
  lemma {:induction false} SameTies(le: Order, xs: seq<Member>, ys: seq<Member>, z: Member)
    requires |xs| == |ys| && forall i :: 0 <= i < |xs| ==> xs[i].key == ys[i].key
    ensures var p, q := Ties(KeyOrder(le), z, xs), Ties(KeyOrder(le), z, ys);
      |p| == |q| && forall i :: 0 <= i < |p| ==> p[i].key == q[i].key
  {
    if xs != [] {
      assert xs[0].key == ys[0].key;
      assert forall i :: 0 <= i < |xs| - 1 ==> xs[1..][i] == xs[i + 1] && ys[1..][i] == ys[i + 1];
      SameTies(le, xs[1..], ys[1..], z);
    }
  }

  /** Of two tied keys, whichever member comes first in the object comes first in the text. */
  lemma TiedKeysShow(le: Order, x: Json, i: nat, j: nat)
    requires TotalPreorder(le) && Valid(x) && x.Obj? && i < j < |x.members| &&
      Tied(le, x.members[i].key, x.members[j].key)
    ensures var y := Obj(ToFront(x.members, j)); Valid(y) && Meaning(y) == Meaning(x) && Text(le, y) != Text(le, x)
  {
    var y, n := Obj(ToFront(x.members, j)), x.members[j];
    ToFrontKeeps(x.members, j);
    ToFrontIsValid(x, j);
    RearrangedMeaning(x, y);
    KeysCompare(le);
    SortIsStable(KeyOrder(le), x.members, n);
    SortIsStable(KeyOrder(le), y.members, n);
    FirstTie(le, x.members, n, i);
    assert le(n.key, n.key);
    FirstTie(le, y.members, n, 0);
    var p, q := Ties(KeyOrder(le), n, x.members), Ties(KeyOrder(le), n, y.members);
    assert p[0].key != n.key && q[0].key == n.key;
    if Text(le, y) == Text(le, x) {
      ObjectsAgree(le, y, x);
      SameTies(le, InKeyOrder(le, y.members), InKeyOrder(le, x.members), n);
      assert false;
    }
  }

  lemma ToFrontIsValid(x: Json, j: nat)
    requires Valid(x) && x.Obj? && j < |x.members|
    ensures Valid(Obj(ToFront(x.members, j)))
  {
    ToFrontKeeps(x.members, j);
    var moved := ToFront(x.members, j);
    forall k | 0 <= k < |moved|
      ensures Valid(moved[k].value)
    {
      assert moved[k] in x.members;
    }
  }

  /** A tree with a tie somewhere has a twin: the same value, listed otherwise, with another text. */
  lemma {:induction false} TiedHasTwin(le: Order, x: Json) returns (y: Json)
    requires TotalPreorder(le) && Valid(x) && !Untied(le, x)
    ensures Valid(y) && Meaning(y) == Meaning(x) && Text(le, y) != Text(le, x)
    decreases x
  {
    if x.Arr? {
      var i :| 0 <= i < |x.items| && !Untied(le, x.items[i]);
      var twin := TiedHasTwin(le, x.items[i]);
      y := Arr(x.items[i := twin]);
      ItemTwin(le, x, i, twin);
    } else if NoTiedKeys(le, x.members) {
      var i :| 0 <= i < |x.members| && !Untied(le, x.members[i].value);
      var twin := TiedHasTwin(le, x.members[i].value);
      y := Obj(x.members[i := Member(x.members[i].key, twin)]);
      MemberTwin(le, x, i, twin);
    } else {
      var i, j := TwoTied(le, x.members);
      y := Obj(ToFront(x.members, j));
      TiedKeysShow(le, x, i, j);
    }
  }

  lemma TwoTied(le: Order, members: seq<Member>) returns (i: nat, j: nat)
    requires !NoTiedKeys(le, members)
    ensures i < j < |members| && Tied(le, members[i].key, members[j].key)
  {
    var m, n :| m in members && n in members && Tied(le, m.key, n.key) && m.key != n.key;
    i :| i < |members| && members[i] == m;
    j :| j < |members| && members[j] == n;
    if j < i { i, j := j, i; }
  }

  lemma ItemTwin(le: Order, x: Json, i: nat, twin: Json)
    requires Valid(x) && x.Arr? && i < |x.items| && Valid(twin) && Meaning(twin) == Meaning(x.items[i])
    requires Text(le, twin) != Text(le, x.items[i])
    ensures var y := Arr(x.items[i := twin]); Valid(y) && Meaning(y) == Meaning(x) && Text(le, y) != Text(le, x)
  {
    var y := Arr(x.items[i := twin]);
    assert forall k :: 0 <= k < |x.items| ==> Meaning(y.items[k]) == Meaning(x.items[k]);
    assert Meaning(y).items == Meaning(x).items;
    if Text(le, y) == Text(le, x) {
      ArraysAgree(le, y, x);
      assert false;
    }
  }

  ghost predicate SameMeanings(xs: seq<Member>, ys: seq<Member>) {
    |xs| == |ys| &&
    forall i :: 0 <= i < |xs| ==> xs[i].key == ys[i].key && Meaning(xs[i].value) == Meaning(ys[i].value)
  }

  lemma TailMeanings(xs: seq<Member>, ys: seq<Member>)
    requires xs != [] && SameMeanings(xs, ys)
    ensures SameMeanings(xs[1..], ys[1..])
  {
    assert forall i :: 0 <= i < |xs| - 1 ==> xs[1..][i] == xs[i + 1] && ys[1..][i] == ys[i + 1];
  }

  lemma {:induction false} SameMeaningsSameMap(cx: Json, cy: Json, xs: seq<Member>, ys: seq<Member>)
    requires (forall m :: m in xs ==> m.value < cx) && (forall m :: m in ys ==> m.value < cy)
    requires SameMeanings(xs, ys)
    ensures MemberMap(cx, xs) == MemberMap(cy, ys)
    decreases |xs|
  {
    if xs != [] {
      TailBelow(cx, xs);
      TailBelow(cy, ys);
      TailMeanings(xs, ys);
      SameMeaningsSameMap(cx, cy, xs[1..], ys[1..]);
      assert MemberMap(cx, xs) == map[xs[0].key := Meaning(xs[0].value)] + MemberMap(cx, xs[1..]);
    }
  }

  lemma MemberTwin(le: Order, x: Json, i: nat, twin: Json)
    requires Valid(x) && x.Obj? && i < |x.members| && Valid(twin) && Meaning(twin) == Meaning(x.members[i].value)
    requires Text(le, twin) != Text(le, x.members[i].value)
    ensures var y := Obj(x.members[i := Member(x.members[i].key, twin)]);
      Valid(y) && Meaning(y) == Meaning(x) && Text(le, y) != Text(le, x)
  {
    var m, n := x.members[i], Member(x.members[i].key, twin);
    var y := Obj(x.members[i := n]);
    TwinIsValid(x, i, n);
    SameMeaningsSameMap(y, x, y.members, x.members);
    if Text(le, y) == Text(le, x) {
      ObjectsAgree(le, y, x);
      assert m in x.members && n == y.members[i] && n in y.members;
      ValuesAgree(le, x, y, m, n);
      assert false;
    }
  }

  lemma TwinIsValid(x: Json, i: nat, n: Member)
    requires Valid(x) && x.Obj? && i < |x.members| && n.key == x.members[i].key && Valid(n.value)
    ensures Valid(Obj(x.members[i := n]))
    ensures Meaning(n.value) == Meaning(x.members[i].value) ==> SameMeanings(x.members[i := n], x.members)
  {
    assert forall k :: 0 <= k < |x.members| ==> x.members[i := n][k].key == x.members[k].key;
  }

  /** In objects that agree pair by pair, members with the same key have values with the same text. */
  lemma ValuesAgree(le: Order, x: Json, y: Json, m: Member, n: Member)
    requires x.Obj? && y.Obj? && DistinctKeys(y.members) && m in x.members && n in y.members && m.key == n.key
    requires SamePairs(le, InKeyOrder(le, y.members), InKeyOrder(le, x.members))
    ensures Text(le, m.value) == Text(le, n.value)
  {
    SortedMembersBelong(le, x.members);
    SortedMembersBelong(le, y.members);
    var xs, ys := InKeyOrder(le, x.members), InKeyOrder(le, y.members);
    var k :| 0 <= k < |xs| && xs[k] == m;
    assert ys[k].key == m.key && ys[k] in y.members;
    OneMemberPerKey(y.members, ys[k], n);
  }

  lemma OneMemberPerKey(members: seq<Member>, m: Member, n: Member)
    requires DistinctKeys(members) && m in members && n in members && m.key == n.key
    ensures m == n
  {
  }

  // ---------------------------------------------------------------- exactly when

  /** The text of a tree is canonical if and only if no object in it has two keys that compare equal. */
  lemma CanonicalIffUntied(le: Order, x: Json)
    requires TotalPreorder(le) && Valid(x)
    ensures Canonical(le, x) <==> Untied(le, x)
  {
    if Untied(le, x) {
      forall y | Valid(y) && Meaning(y) == Meaning(x)
        ensures Text(le, y) == Text(le, x)
      {
        SameMeaningSameText(le, x, y);
      }
    } else {
      var y := TiedHasTwin(le, x);
    }
  }

  lemma {:induction false} NoTiesNowhere(le: Order, x: Json)
    requires NoTies(le)
    ensures Untied(le, x)
    decreases x
  {
    if x.Arr? {
      forall i | 0 <= i < |x.items|
        ensures Untied(le, x.items[i])
      {
        NoTiesNowhere(le, x.items[i]);
      }
    } else if x.Obj? {
      forall i | 0 <= i < |x.members|
        ensures Untied(le, x.members[i].value)
      {
        NoTiesNowhere(le, x.members[i].value);
      }
    }
  }

  lemma TwoKeysTied(le: Order, a: string, b: string)
    requires TotalPreorder(le) && le(a, b) && le(b, a) && a != b
    ensures var x := Obj([Member(a, Null), Member(b, Null)]); Valid(x) && !Canonical(le, x)
  {
    var x := Obj([Member(a, Null), Member(b, Null)]);
    assert x.members[0].key == a && x.members[1].key == b;
    assert x.members[0] in x.members && x.members[1] in x.members && Tied(le, a, b);
    CanonicalIffUntied(le, x);
  }

  /** All texts are canonical if and only if the comparison tells all strings apart, as a locale-aware one does not. */
  lemma CanonicalIffNoTies(le: Order)
    requires TotalPreorder(le)
    ensures (forall x :: Valid(x) ==> Canonical(le, x)) <==> NoTies(le)
  {
    if NoTies(le) {
      forall x | Valid(x)
        ensures Canonical(le, x)
      {
        NoTiesNowhere(le, x);
        CanonicalIffUntied(le, x);
      }
    } else {
      var a, b :| le(a, b) && le(b, a) && a != b;
      TwoKeysTied(le, a, b);
    }
  }
}
