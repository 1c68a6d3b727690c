/**
  The tree of a change set, as its type declares it. Its keys are a fixed handful of names, so that its canonical text
  depends on nothing but the change set, and no two change sets share a text.
 */
module ChangeSetText {

  import opened CanonicalText
  import opened Collation
  import opened Options
  import opened StableJson
  import opened StableSort

  datatype Revision = Revision(id: string, observedAt: string)

  datatype Entry =
    | Create(path: string, content: string)
    | Update(path: string, content: string, expectedHash: string, baseContent: Option<string>)
    | Delete(path: string, expectedHash: string, baseContent: Option<string>)
    | Move(fromPath: string, toPath: string, expectedHash: string)

  datatype WorkspaceChangeSet = WorkspaceChangeSet(id: string, baseRevision: Revision, changes: seq<Entry>,
                                                   createdAt: string)

  /** The names of all fields of a change set and what is in it. */
  const FIELD_NAMES := {
    "id", "baseRevision", "changes", "createdAt", "observedAt", "operation", "path", "content", "encoding",
    "expectedHash", "baseContent", "fromPath", "toPath", "algorithm", "value"
  }

  function Field(name: string, text: string): Member {
    Member(name, Str(text))
  }

  function HashTree(value: string): Json {
    Obj([Field("algorithm", "sha256"), Field("value", value)])
  }

  function BaseField(baseContent: Option<string>): seq<Member> {
    if baseContent.Some? then [Field("baseContent", baseContent.value)] else []
  }

  function EntryFields(entry: Entry): seq<Member> {
    match entry
    case Create(path, content) =>
      [Field("operation", "create"), Field("path", path), Field("content", content), Field("encoding", "utf-8")]
    case Update(path, content, expectedHash, baseContent) =>
      [Field("operation", "update"), Field("path", path), Field("content", content), Field("encoding", "utf-8"),
       Member("expectedHash", HashTree(expectedHash))] + BaseField(baseContent)
    case Delete(path, expectedHash, baseContent) =>
      [Field("operation", "delete"), Field("path", path), Member("expectedHash", HashTree(expectedHash))] +
      BaseField(baseContent)
    case Move(fromPath, toPath, expectedHash) =>
      [Field("operation", "move"), Field("fromPath", fromPath), Field("toPath", toPath),
       Member("expectedHash", HashTree(expectedHash))]
  }

  function EntryTrees(changes: seq<Entry>): seq<Json> {
    seq(|changes|, i requires 0 <= i < |changes| => Obj(EntryFields(changes[i])))
  }

  function RevisionTree(revision: Revision): Json {
    Obj([Field("id", revision.id), Field("observedAt", revision.observedAt)])
  }

  function TreeOf(changeSet: WorkspaceChangeSet): Json {
    Obj([Field("id", changeSet.id),
         Member("baseRevision", RevisionTree(changeSet.baseRevision)),
         Member("changes", Arr(EntryTrees(changeSet.changes))),
         Field("createdAt", changeSet.createdAt)])
  }

  /** The comparison tells the field names apart, as every collation does of names in plain letters. */
  ghost predicate TellsFieldsApart(le: Order) {
    forall a, b :: a in FIELD_NAMES && b in FIELD_NAMES && Tied(le, a, b) ==> a == b
  }

  /** A well-formed object whose keys are field names, over values that are well-formed and untied themselves. */
  ghost predicate Plain(le: Order, members: seq<Member>) {
    DistinctKeys(members) &&
    forall i :: 0 <= i < |members| ==>
      members[i].key in FIELD_NAMES && Valid(members[i].value) && Untied(le, members[i].value)
  }

  lemma PlainObject(le: Order, members: seq<Member>)
    requires TellsFieldsApart(le) && Plain(le, members)
    ensures Valid(Obj(members)) && Untied(le, Obj(members))
  {
    forall m, n | m in members && n in members && Tied(le, m.key, n.key)
      ensures m.key == n.key
    {
    }
  }

  lemma HashIsPlain(le: Order, value: string)
    requires TellsFieldsApart(le)
    ensures Valid(HashTree(value)) && Untied(le, HashTree(value))
  {
    PlainObject(le, HashTree(value).members);
  }

  lemma EntryKeys(entry: Entry)
    ensures DistinctKeys(EntryFields(entry))
    ensures forall i :: 0 <= i < |EntryFields(entry)| ==> EntryFields(entry)[i].key in FIELD_NAMES
  {
  }

  lemma EntryIsPlain(le: Order, entry: Entry)
    requires TellsFieldsApart(le)
    ensures Valid(Obj(EntryFields(entry))) && Untied(le, Obj(EntryFields(entry)))
  {
    if !entry.Create? { HashIsPlain(le, entry.expectedHash); }
    var fields := EntryFields(entry);
    EntryKeys(entry);
    assert forall i :: 0 <= i < |fields| ==> fields[i].value.Str? || fields[i].value == HashTree(entry.expectedHash);
    PlainObject(le, fields);
  }

  lemma ChangeSetIsPlain(le: Order, changeSet: WorkspaceChangeSet)
    requires TellsFieldsApart(le)
    ensures Valid(TreeOf(changeSet)) && Untied(le, TreeOf(changeSet))
  {
    var tree := TreeOf(changeSet);
    forall i | 0 <= i < |changeSet.changes|
      ensures Valid(EntryTrees(changeSet.changes)[i]) && Untied(le, EntryTrees(changeSet.changes)[i])
    {
      EntryIsPlain(le, changeSet.changes[i]);
    }
    PlainObject(le, tree.members[1].value.members);
    PlainObject(le, tree.members);
  }

  /** Whatever order its fields come in, a change set has one text. */
  lemma OneTextPerChangeSet(le: Order, changeSet: WorkspaceChangeSet, tree: Json)
    requires TotalPreorder(le) && TellsFieldsApart(le)
    requires Valid(tree) && Meaning(tree) == Meaning(TreeOf(changeSet))
    ensures Text(le, tree) == Text(le, TreeOf(changeSet))
  {
    ChangeSetIsPlain(le, changeSet);
    CanonicalIffUntied(le, TreeOf(changeSet));
  }

  // ---------------------------------------------------------------- one change set per text

  /** Objects that stand for the same agree on every key: that it is there, and what it holds. */
  lemma ValuesAgreeAt(x: Json, y: Json, i: nat, j: nat)
    requires x.Obj? && y.Obj? && DistinctKeys(x.members) && DistinctKeys(y.members) && Meaning(x) == Meaning(y)
    requires i < |x.members| && j < |y.members| && x.members[i].key == y.members[j].key
    ensures Meaning(x.members[i].value) == Meaning(y.members[j].value)
  {
    MemberMapIs(x, x.members);
    MemberMapIs(y, y.members);
    assert x.members[i] in x.members && y.members[j] in y.members;
  }

  lemma KeysAgree(x: Json, y: Json, i: nat)
    requires x.Obj? && y.Obj? && DistinctKeys(x.members) && DistinctKeys(y.members) && Meaning(x) == Meaning(y)
    requires i < |x.members|
    ensures HasKey(y.members, x.members[i].key)
  {
    MemberMapIs(x, x.members);
    MemberMapIs(y, y.members);
    assert x.members[i] in x.members;
  }

  function Operation(entry: Entry): string {
    match entry
    case Create(_, _) => "create"
    case Update(_, _, _, _) => "update"
    case Delete(_, _, _) => "delete"
    case Move(_, _, _) => "move"
  }

  lemma OperationsDiffer(e: Entry, f: Entry)
    requires Operation(e) == Operation(f)
    ensures (e.Create? <==> f.Create?) && (e.Update? <==> f.Update?) && (e.Delete? <==> f.Delete?)
  {
    assert "create"[0] == 'c' && "update"[0] == 'u' && "delete"[0] == 'd' && "move"[0] == 'm';
  }

  /** `x` and `y` are entries of the same kind that stand for the same; their `i`-th fields do too. */
  lemma SameField(e: Entry, f: Entry, i: nat)
    requires DistinctKeys(EntryFields(e)) && DistinctKeys(EntryFields(f))
    requires Meaning(Obj(EntryFields(e))) == Meaning(Obj(EntryFields(f)))
    requires i < |EntryFields(e)| && i < |EntryFields(f)| && EntryFields(e)[i].key == EntryFields(f)[i].key
    ensures Meaning(EntryFields(e)[i].value) == Meaning(EntryFields(f)[i].value)
  {
    ValuesAgreeAt(Obj(EntryFields(e)), Obj(EntryFields(f)), i, i);
  }

  lemma SameHash(h: string, k: string)
    requires Meaning(HashTree(h)) == Meaning(HashTree(k))
    ensures h == k
  {
    ValuesAgreeAt(HashTree(h), HashTree(k), 1, 1);
  }

  /** A baseline is there in both or in neither. */
  lemma SameBase(e: Entry, f: Entry, n: nat)
    requires (e.Update? && f.Update? && n == 5) || (e.Delete? && f.Delete? && n == 3)
    requires DistinctKeys(EntryFields(e)) && DistinctKeys(EntryFields(f))
    requires Meaning(Obj(EntryFields(e))) == Meaning(Obj(EntryFields(f)))
    ensures e.baseContent == f.baseContent
  {
    var x, y := Obj(EntryFields(e)), Obj(EntryFields(f));
    if e.baseContent.Some? && f.baseContent.Some? {
      SameField(e, f, n);
    } else if e.baseContent.Some? {
      KeysAgree(x, y, n);
      assert false;
    } else if f.baseContent.Some? {
      KeysAgree(y, x, n);
      assert false;
    }
  }

  lemma SameEntry(e: Entry, f: Entry)
    requires DistinctKeys(EntryFields(e)) && DistinctKeys(EntryFields(f))
    requires Meaning(Obj(EntryFields(e))) == Meaning(Obj(EntryFields(f)))
    ensures e == f
  {
    assert Meaning(EntryFields(e)[0].value) == VStr(Operation(e)) &&
      Meaning(EntryFields(f)[0].value) == VStr(Operation(f));
    SameField(e, f, 0);
    OperationsDiffer(e, f);
    if e.Update? { SameUpdate(e, f); } else if e.Delete? { SameDelete(e, f); } else { SameThreeFields(e, f); }
  }

  lemma SameUpdate(e: Entry, f: Entry)
    requires e.Update? && f.Update? && DistinctKeys(EntryFields(e)) && DistinctKeys(EntryFields(f))
    requires Meaning(Obj(EntryFields(e))) == Meaning(Obj(EntryFields(f)))
    ensures e == f
  {
    SameField(e, f, 1);
    SameField(e, f, 2);
    SameField(e, f, 4);
    SameHash(e.expectedHash, f.expectedHash);
    SameBase(e, f, 5);
  }

  lemma SameDelete(e: Entry, f: Entry)
    requires e.Delete? && f.Delete? && DistinctKeys(EntryFields(e)) && DistinctKeys(EntryFields(f))
    requires Meaning(Obj(EntryFields(e))) == Meaning(Obj(EntryFields(f)))
    ensures e == f
  {
    SameField(e, f, 1);
    SameField(e, f, 2);
    SameHash(e.expectedHash, f.expectedHash);
    SameBase(e, f, 3);
  }

  lemma SameThreeFields(e: Entry, f: Entry)
    requires (e.Create? && f.Create?) || (e.Move? && f.Move?)
    requires DistinctKeys(EntryFields(e)) && DistinctKeys(EntryFields(f))
    requires Meaning(Obj(EntryFields(e))) == Meaning(Obj(EntryFields(f)))
    ensures e == f
  {
    SameField(e, f, 1);
    SameField(e, f, 2);
    SameField(e, f, 3);
    if e.Move? { SameHash(e.expectedHash, f.expectedHash); }
  }

  lemma SameEntries(xs: seq<Entry>, ys: seq<Entry>)
    requires Meaning(Arr(EntryTrees(xs))) == Meaning(Arr(EntryTrees(ys)))
    ensures xs == ys
  {
    var x, y := Arr(EntryTrees(xs)), Arr(EntryTrees(ys));
    assert |xs| == |Meaning(x).items| == |Meaning(y).items| == |ys|;
    forall i | 0 <= i < |xs|
      ensures xs[i] == ys[i]
    {
      assert Meaning(x).items[i] == Meaning(x.items[i]) && Meaning(y).items[i] == Meaning(y.items[i]);
      EntryIsPlain((a, b) => a == b, xs[i]);
      EntryIsPlain((a, b) => a == b, ys[i]);
      SameEntry(xs[i], ys[i]);
    }
  }

  /** Two change sets with the same text are the same change set, whatever comparison the sort uses. */
  lemma OneChangeSetPerText(le: Order, a: WorkspaceChangeSet, b: WorkspaceChangeSet)
    requires Text(le, TreeOf(a)) == Text(le, TreeOf(b))
    ensures a == b
  {
    ChangeSetIsValid(a);
    ChangeSetIsValid(b);
    SameTextSameMeaning(le, TreeOf(a), TreeOf(b));
    OneChangeSetPerMeaning(a, b);
  }

  lemma OneChangeSetPerMeaning(a: WorkspaceChangeSet, b: WorkspaceChangeSet)
    requires Meaning(TreeOf(a)) == Meaning(TreeOf(b))
    ensures a == b
  {
    AllValuesAgree(TreeOf(a), TreeOf(b));
    SameParts(a, b);
  }

  lemma ChangeSetIsValid(changeSet: WorkspaceChangeSet)
    ensures Valid(TreeOf(changeSet))
  {
    ChangeSetIsPlain((x, y) => x == y, changeSet);
  }

  lemma AllValuesAgree(x: Json, y: Json)
    requires x.Obj? && y.Obj? && DistinctKeys(x.members) && DistinctKeys(y.members) && Meaning(x) == Meaning(y)
    requires |x.members| == |y.members| && forall i :: 0 <= i < |x.members| ==> x.members[i].key == y.members[i].key
    ensures forall i :: 0 <= i < |x.members| ==> Meaning(x.members[i].value) == Meaning(y.members[i].value)
  {
    forall i | 0 <= i < |x.members|
      ensures Meaning(x.members[i].value) == Meaning(y.members[i].value)
    {
      ValuesAgreeAt(x, y, i, i);
    }
  }

  lemma SameParts(a: WorkspaceChangeSet, b: WorkspaceChangeSet)
    requires forall i :: 0 <= i < 4 ==> Meaning(TreeOf(a).members[i].value) == Meaning(TreeOf(b).members[i].value)
    ensures a == b
  {
    assert Meaning(TreeOf(a).members[0].value) == VStr(a.id) && Meaning(TreeOf(b).members[0].value) == VStr(b.id);
    assert Meaning(TreeOf(a).members[3].value) == VStr(a.createdAt) &&
      Meaning(TreeOf(b).members[3].value) == VStr(b.createdAt);
    assert TreeOf(a).members[1].value == RevisionTree(a.baseRevision) &&
      TreeOf(b).members[1].value == RevisionTree(b.baseRevision);
    assert TreeOf(a).members[2].value == Arr(EntryTrees(a.changes)) &&
      TreeOf(b).members[2].value == Arr(EntryTrees(b.changes));
    SameRevision(a.baseRevision, b.baseRevision);
    SameEntries(a.changes, b.changes);
  }

  lemma SameRevision(r: Revision, q: Revision)
    requires Meaning(RevisionTree(r)) == Meaning(RevisionTree(q))
    ensures r == q
  {
    ValuesAgreeAt(RevisionTree(r), RevisionTree(q), 0, 0);
    ValuesAgreeAt(RevisionTree(r), RevisionTree(q), 1, 1);
  }

  /** The digest authorises exactly one change set, however its fields are listed. */
  lemma DigestNamesOneChangeSet(le: Order, sha256: string -> string, a: WorkspaceChangeSet, b: WorkspaceChangeSet,
                                tree: Json)
    requires TotalPreorder(le) && TellsFieldsApart(le)
    requires forall x, y :: sha256(x) == sha256(y) ==> x == y
    requires Valid(tree) && Meaning(tree) == Meaning(TreeOf(b))
    ensures sha256(Text(le, TreeOf(a))) == sha256(Text(le, tree)) <==> a == b
  {
    OneTextPerChangeSet(le, b, tree);
    if Text(le, TreeOf(a)) == Text(le, TreeOf(b)) { OneChangeSetPerText(le, a, b); }
  }
}
