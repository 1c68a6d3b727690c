/**
  The workspace index: a breadth-first rebuild from the file tree, and the incremental flush of
  changed paths that is meant to arrive at the same entries.
 */
module WorkspaceIndexes {

  import opened Disk
  import opened Options
  import opened Permutations

  datatype Node = Directory(modified: string) | Regular(size: nat, modified: string) | Symlink | Special
  datatype Entry = DirEntry(modified: string) | FileEntry(size: nat, modified: string)

  type FileTree = map<Path, Node>
  type Entries = map<Path, Entry>

  /** Which directory names the index leaves out, and which names it must not show anywhere in a path. */
  datatype Rules = Rules(excluded: string -> bool, secret: string -> bool)

  /** `isSensitiveWorkspacePath`, which looks at the segments one by one. */
  predicate Sensitive(rules: Rules, p: Path) {
    exists i :: 0 <= i < |p| && rules.secret(p[i])
  }

  /** Everything but the root lies in directories of the tree. */
  ghost predicate WellFormed(tree: FileTree) {
    [] !in tree && forall p, q :: p in tree && q in Above(p) && q != [] ==> q in tree && tree[q].Directory?
  }

  function Parent(p: Path): Path {
    if p == [] then [] else p[..|p| - 1]
  }

  predicate Barred(rules: Rules, tree: FileTree, p: Path) {
    p != [] && (Sensitive(rules, p) || (p in tree && tree[p].Directory? && rules.excluded(p[|p| - 1])))
  }

  /** The walk never gets to `p`. */
  ghost predicate Pruned(rules: Rules, tree: FileTree, p: Path) {
    Barred(rules, tree, p) || exists q :: q in Above(p) && Barred(rules, tree, q)
  }

  function EntryOf(node: Node): Option<Entry> {
    match node
    case Directory(modified) => Some(DirEntry(modified))
    case Regular(size, modified) => Some(FileEntry(size, modified))
    case _ => None
  }

  function Raw(tree: FileTree, p: Path): Option<Entry> {
    if p in tree then EntryOf(tree[p]) else None
  }

  ghost function EntryAt(rules: Rules, tree: FileTree, p: Path): Option<Entry> {
    if Pruned(rules, tree, p) then None else Raw(tree, p)
  }

  /** What an index of the tree should hold. */
  ghost function FullIndex(rules: Rules, tree: FileTree): Entries {
    map p | p in tree && EntryAt(rules, tree, p).Some? :: EntryAt(rules, tree, p).value
  }

  function Lookup(entries: Entries, p: Path): Option<Entry> {
    if p in entries then Some(entries[p]) else None
  }

  lemma LookupFullIndex(rules: Rules, tree: FileTree, p: Path)
    ensures Lookup(FullIndex(rules, tree), p) == EntryAt(rules, tree, p)
  {
  }

  /**
    What an index of the tree should hold, segment by segment: the files and directories with no secret name in their
    path and, among the directories on it, none of an excluded name; each with what the tree says of it.
   */
  lemma FullIndexReads(rules: Rules, tree: FileTree, p: Path)
    ensures p in FullIndex(rules, tree) <==>
      p in tree && (tree[p].Directory? || tree[p].Regular?) && (forall i :: 0 <= i < |p| ==> !rules.secret(p[i])) &&
      forall i :: 0 <= i < |p| && p[..i + 1] in tree && tree[p[..i + 1]].Directory? ==> !rules.excluded(p[i])
    ensures p in FullIndex(rules, tree) ==>
      match FullIndex(rules, tree)[p]
      case DirEntry(modified) => tree[p] == Directory(modified)
      case FileEntry(size, modified) => tree[p] == Regular(size, modified)
  {
    PrunedReads(rules, tree, p);
  }

  lemma PrunedReads(rules: Rules, tree: FileTree, p: Path)
    ensures Pruned(rules, tree, p) <==>
      (exists i :: 0 <= i < |p| && rules.secret(p[i])) ||
      exists i :: 0 <= i < |p| && p[..i + 1] in tree && tree[p[..i + 1]].Directory? && rules.excluded(p[i])
  {
    if i :| 0 <= i < |p| && p[..i + 1] in tree && tree[p[..i + 1]].Directory? && rules.excluded(p[i]) {
      assert Barred(rules, tree, p[..i + 1]);
      if i + 1 == |p| { assert p[..i + 1] == p; } else { assert p[..i + 1] in Above(p); }
    }
    if exists i :: 0 <= i < |p| && rules.secret(p[i]) { assert Barred(rules, tree, p); }
    forall q | (q in Above(p) || q == p) && Barred(rules, tree, q)
      ensures (exists i :: 0 <= i < |p| && rules.secret(p[i])) ||
        exists i :: 0 <= i < |p| && p[..i + 1] in tree && tree[p[..i + 1]].Directory? && rules.excluded(p[i])
    {
      assert q == p[..|q|] && q != [];
      if Sensitive(rules, q) {
        var i :| 0 <= i < |q| && rules.secret(q[i]);
        assert rules.secret(p[i]);
      } else {
        assert p[..|q| - 1 + 1] == q && q[|q| - 1] == p[|q| - 1];
      }
    }
  }

  // ---------------------------------------------------------------- rebuilding

  ghost predicate IsDirectory(rules: Rules, tree: FileTree, p: Path) {
    p == [] || (p in tree && tree[p].Directory? && !Pruned(rules, tree, p))
  }

  /** A child of a directory the walk reaches is left out exactly by its own name or path. */
  lemma ChildOfOpen(rules: Rules, tree: FileTree, p: Path)
    requires WellFormed(tree) && p in tree && IsDirectory(rules, tree, Parent(p))
    ensures Pruned(rules, tree, p) <==> Barred(rules, tree, p)
  {
    forall q | q in Above(p)
      ensures !Barred(rules, tree, q)
    {
      var i :| 0 <= i < |p| && q == p[..i];
      if i == |p| - 1 { assert q == Parent(p); }
      else { assert q == Parent(p)[..i] && q in Above(Parent(p)); }
    }
  }

  lemma ParentIsOpen(rules: Rules, tree: FileTree, p: Path)
    requires WellFormed(tree) && p in tree && !Pruned(rules, tree, p)
    ensures IsDirectory(rules, tree, Parent(p))
  {
    var d := Parent(p);
    assert d in Above(p);
    forall q | q in Above(d)
      ensures !Barred(rules, tree, q)
    {
      var i :| 0 <= i < |d| && q == d[..i];
      assert q == p[..i] && q in Above(p);
    }
  }

  ghost predicate Within(entries: Entries, full: Entries) {
    forall p :: p in entries ==> p in full && entries[p] == full[p]
  }

  /** The walk so far: the children of every visited directory, and every directory found is visited or pending. */
  ghost predicate Walking(rules: Rules, tree: FileTree, visited: set<Path>, pending: seq<Path>, entries: Entries) {
    (forall p :: Lookup(entries, p) == if p != [] && Parent(p) in visited then EntryAt(rules, tree, p) else None) &&
    (forall d :: d in visited || d in pending <==> d == [] || (d in entries && entries[d].DirEntry?)) &&
    (forall d :: d in pending ==> d !in visited) &&
    AllDistinct(pending)
  }

  /** One directory: the children still in `todo` are not yet looked at. */
  ghost predicate Listing(rules: Rules, tree: FileTree, directory: Path, todo: set<Path>,
                          found: Entries, queue: seq<Path>, entries: Entries, pending: seq<Path>) {
    (forall p :: p in todo ==> p in tree && p != [] && Parent(p) == directory) &&
    (forall p :: Lookup(entries, p) ==
       if p != [] && Parent(p) == directory && p !in todo then EntryAt(rules, tree, p) else Lookup(found, p)) &&
    (forall d :: d in pending <==>
       d in queue || (d != [] && Parent(d) == directory && d in entries && entries[d].DirEntry?)) &&
    AllDistinct(pending)
  }

  /** What is known before the children of `directory` are listed. */
  ghost predicate ReadyToList(rules: Rules, tree: FileTree, directory: Path, found: Entries, queue: seq<Path>) {
    WellFormed(tree) && IsDirectory(rules, tree, directory) && Within(found, FullIndex(rules, tree)) &&
    (forall p :: p in found ==> p != [] && Parent(p) != directory) &&
    (forall d :: d in queue ==> d == [] || d in found) &&
    AllDistinct(queue)
  }

  ghost predicate Flat(tree: FileTree) {
    forall p :: p in tree ==> !tree[p].Directory?
  }

  function Children(tree: FileTree, directory: Path): set<Path> {
    set p | p in tree && p != [] && Parent(p) == directory
  }

  function Admit(rules: Rules, tree: FileTree, child: Path): Option<Entry> {
    if child !in tree || Barred(rules, tree, child) then None else EntryOf(tree[child])
  }

  /** The directories among the paths found, in the order of discovery. */
  function Directories(tree: FileTree, order: seq<Path>): seq<Path> {
    if order == [] then []
    else
      var n := |order| - 1;
      Directories(tree, order[..n]) + (if order[n] in tree && tree[order[n]].Directory? then [order[n]] else [])
  }

  lemma DirectoriesAppend(tree: FileTree, order: seq<Path>, p: Path)
    ensures Directories(tree, order + [p]) ==
            Directories(tree, order) + (if p in tree && tree[p].Directory? then [p] else [])
  {
    assert (order + [p])[..|order|] == order;
  }

  lemma {:induction false} DirectoriesBelong(tree: FileTree, order: seq<Path>)
    ensures forall d :: d in Directories(tree, order) ==> d in order && d in tree && tree[d].Directory?
    ensures AllDistinct(order) ==> AllDistinct(Directories(tree, order))
  {
    if order != [] {
      var n := |order| - 1;
      DirectoriesBelong(tree, order[..n]);
      assert order == order[..n] + [order[n]];
    }
  }

  /** The last directory that was found; the root is found first. */
  function LastDirectory(tree: FileTree, order: seq<Path>): Path {
    var found := Directories(tree, order);
    if found == [] then [] else found[|found| - 1]
  }

  /**
    What is reported about a rebuild that found these paths, in this order: complete, unless it reached the limit in
    a directory after which another one had been found, which is then left unlisted.
   */
  predicate ReportedComplete(tree: FileTree, order: seq<Path>, limit: nat) {
    |order| < limit || (order != [] && Parent(order[|order| - 1]) == LastDirectory(tree, order))
  }

  /** A directory that was found is still queued when the limit cuts in. */
  predicate LeftUnlisted(tree: FileTree, order: seq<Path>, limit: nat) {
    |order| == limit && (order == [] || Parent(order[|order| - 1]) != LastDirectory(tree, order))
  }

  /** The array and the entries in it: every path once, the directories in it listed or pending in order. */
  ghost predicate Arrayed(tree: FileTree, order: seq<Path>, entries: Entries, listed: seq<Path>, pending: seq<Path>) {
    ListsKeys(order, entries) && listed + pending == [[]] + Directories(tree, order)
  }

  /** Every key once. */
  ghost predicate ListsKeys<K(!new), V>(order: seq<K>, m: map<K, V>) {
    (forall k :: k in order <==> k in m) && |order| == |m| && AllDistinct(order)
  }

  lemma ListsOneMore<K(!new), V>(order: seq<K>, m: map<K, V>, k: K, v: V)
    requires ListsKeys(order, m) && k !in m
    ensures ListsKeys(order + [k], m[k := v])
  {
    var more := m[k := v];
    assert more.Keys == m.Keys + {k};
    assert |more| == |more.Keys| == |m.Keys| + 1;
  }

  lemma ArrayedAdds(tree: FileTree, order: seq<Path>, entries: Entries, listed: seq<Path>, pending: seq<Path>,
                    child: Path, entry: Entry)
    requires Arrayed(tree, order, entries, listed, pending) && child !in entries && child in tree
    ensures Arrayed(tree, order + [child], entries[child := entry], listed,
                    if tree[child].Directory? then pending + [child] else pending)
  {
    DirectoriesAppend(tree, order, child);
    ListsOneMore(order, entries, child, entry);
    var found := Directories(tree, order);
    if tree[child].Directory? { QueueGrows(listed, pending, [[]], found, child); } else { assert found + [] == found; }
  }

  lemma QueueGrows<T>(a: seq<T>, b: seq<T>, c: seq<T>, d: seq<T>, x: T)
    requires a + b == c + d
    ensures a + (b + [x]) == c + (d + [x])
  {
    assert a + (b + [x]) == (a + b) + [x] && c + (d + [x]) == (c + d) + [x];
  }

  lemma WithinAdds(rules: Rules, tree: FileTree, entries: Entries, child: Path, entry: Entry)
    requires Within(entries, FullIndex(rules, tree)) && child !in entries && EntryAt(rules, tree, child) == Some(entry)
    ensures Within(entries[child := entry], FullIndex(rules, tree)) && |entries[child := entry]| == |entries| + 1
  {
    LookupFullIndex(rules, tree, child);
  }

  /** At the end, no directory is pending exactly when the rebuild is to be reported complete. */
  lemma PendingIsReported(tree: FileTree, order: seq<Path>, entries: Entries, listed: seq<Path>, pending: seq<Path>,
                          limit: nat)
    requires Arrayed(tree, order, entries, listed, pending) && [] !in entries && |order| <= limit && listed != []
    requires |order| == limit ==> order != [] && Parent(order[|order| - 1]) == listed[|listed| - 1]
    requires |order| < limit ==> pending == []
    ensures pending == [] <==> ReportedComplete(tree, order, limit)
  {
    var all := [[]] + Directories(tree, order);
    DirectoriesBelong(tree, order);
    assert all[|all| - 1] == LastDirectory(tree, order);
    assert AllDistinct(all);
    if pending == [] {
      assert listed == all;
    } else {
      assert all[|all| - 1] == pending[|pending| - 1] && all[|listed| - 1] == listed[|listed| - 1];
    }
  }

  lemma ListingStarts(rules: Rules, tree: FileTree, directory: Path, found: Entries, queue: seq<Path>)
    requires ReadyToList(rules, tree, directory, found, queue)
    ensures Listing(rules, tree, directory, Children(tree, directory), found, queue, found, queue)
  {
  }

  lemma ListingSkips(rules: Rules, tree: FileTree, directory: Path, todo: set<Path>,
                     found: Entries, queue: seq<Path>, entries: Entries, pending: seq<Path>, child: Path)
    requires ReadyToList(rules, tree, directory, found, queue)
    requires Listing(rules, tree, directory, todo, found, queue, entries, pending) && child in todo
    requires Admit(rules, tree, child).None?
    ensures Listing(rules, tree, directory, todo - {child}, found, queue, entries, pending)
  {
    ChildOfOpen(rules, tree, child);
  }

  lemma ListingAdds(rules: Rules, tree: FileTree, directory: Path, todo: set<Path>,
                    found: Entries, queue: seq<Path>, entries: Entries, pending: seq<Path>, child: Path)
    requires ReadyToList(rules, tree, directory, found, queue)
    requires Listing(rules, tree, directory, todo, found, queue, entries, pending) && child in todo
    requires Admit(rules, tree, child).Some?
    ensures child !in entries && EntryAt(rules, tree, child) == Admit(rules, tree, child)
    ensures Listing(rules, tree, directory, todo - {child}, found, queue,
                    entries[child := Admit(rules, tree, child).value],
                    if tree[child].Directory? then pending + [child] else pending)
  {
    ChildOfOpen(rules, tree, child);
    assert Lookup(entries, child) == Lookup(found, child) == None;
    DistinctAppend(pending, child);
    var more := entries[child := Admit(rules, tree, child).value];
    forall p
      ensures p != child ==> Lookup(more, p) == Lookup(entries, p)
    {
    }
  }

  /** The inner loop of `rebuildIndex`; `cut` says that the limit stopped it before the last child. */
  method ListDirectory(rules: Rules, tree: FileTree, limit: nat, directory: Path, before: seq<Path>, found: Entries,
                       queue: seq<Path>, ghost listed: seq<Path>)
    returns (order: seq<Path>, entries: Entries, pending: seq<Path>, ghost cut: bool)
    requires ReadyToList(rules, tree, directory, found, queue) && |found| < limit
    requires Arrayed(tree, before, found, listed, queue)
    ensures |entries| <= limit && Within(entries, FullIndex(rules, tree))
    ensures cut ==> |entries| == limit
    ensures !cut ==> Listing(rules, tree, directory, {}, found, queue, entries, pending)
    ensures before <= order && Arrayed(tree, order, entries, listed, pending)
    ensures |entries| == limit ==> order != [] && Parent(order[|order| - 1]) == directory
  {
    order, entries, pending, cut := before, found, queue, false;
    var todo := Children(tree, directory);
    ListingStarts(rules, tree, directory, found, queue);
    while todo != {}
      invariant Listing(rules, tree, directory, todo, found, queue, entries, pending)
      invariant |entries| < limit && Within(entries, FullIndex(rules, tree))
      invariant before <= order && Arrayed(tree, order, entries, listed, pending)
      decreases todo
    {
      var child :| child in todo;
      var admitted := Admit(rules, tree, child);
      if admitted.None? {
        ListingSkips(rules, tree, directory, todo, found, queue, entries, pending, child);
      } else {
        // So the array of entries never lists a path twice.
        ListingAdds(rules, tree, directory, todo, found, queue, entries, pending, child);
        ArrayedAdds(tree, order, entries, listed, pending, child, admitted.value);
        WithinAdds(rules, tree, entries, child, admitted.value);
        order, entries := order + [child], entries[child := admitted.value];
        pending := if tree[child].Directory? then pending + [child] else pending;
      }
      todo := todo - {child};
      if |entries| >= limit {
        cut := todo != {};
        break;
      }
    }
  }

  lemma SubsetSizes<T>(a: set<T>, b: set<T>)
    requires a <= b
    ensures |a| <= |b| && (|a| == |b| ==> a == b)
  {
    assert b == a + (b - a);
  }

  lemma SmallerIndex(entries: Entries, full: Entries)
    requires Within(entries, full)
    ensures |entries| <= |full| && (|entries| == |full| ==> entries == full)
  {
    SubsetSizes(entries.Keys, full.Keys);
    assert |entries.Keys| == |entries| && |full.Keys| == |full|;
  }

  /** When no directory is left to visit, everything has been found. */
  lemma {:induction false} WalkFindsAll(rules: Rules, tree: FileTree, visited: set<Path>, entries: Entries, p: Path)
    requires WellFormed(tree) && Walking(rules, tree, visited, [], entries)
    ensures Lookup(entries, p) == EntryAt(rules, tree, p)
    decreases |p|
  {
    if p == [] {
      assert Raw(tree, p) == None;
    } else if p in tree && !Pruned(rules, tree, p) {
      ParentIsOpen(rules, tree, p);
      WalkFindsAll(rules, tree, visited, entries, Parent(p));
    }
  }

  lemma ListedStep(rules: Rules, tree: FileTree, visited: set<Path>, pending: seq<Path>, found: Entries,
                   entries: Entries, after: seq<Path>)
    requires pending != [] && Walking(rules, tree, visited, pending, found)
    requires Listing(rules, tree, pending[0], {}, found, pending[1..], entries, after)
    ensures Walking(rules, tree, visited + {pending[0]}, after, entries)
  {
    Uncons(pending);
  }

  lemma DistinctAppend<T(!new)>(s: seq<T>, x: T)
    requires AllDistinct(s)
    ensures x !in s ==> AllDistinct(s + [x])
    ensures forall y :: y in s + [x] <==> y in s || y == x
  {
  }

  lemma Uncons<T(!new)>(s: seq<T>)
    requires s != [] && AllDistinct(s)
    ensures s[0] !in s[1..] && AllDistinct(s[1..]) && forall x :: x in s <==> x == s[0] || x in s[1..]
  {
    assert s == [s[0]] + s[1..];
  }

  lemma ReadyStep(rules: Rules, tree: FileTree, visited: set<Path>, pending: seq<Path>, found: Entries)
    requires WellFormed(tree) && pending != [] && Walking(rules, tree, visited, pending, found)
    ensures ReadyToList(rules, tree, pending[0], found, pending[1..])
    ensures Within(found, FullIndex(rules, tree))
    ensures pending[0] in tree.Keys + {[]} && pending[0] !in visited
  {
    var d := pending[0];
    Uncons(pending);
    forall p | p in found
      ensures p in FullIndex(rules, tree) && found[p] == FullIndex(rules, tree)[p] && p != [] && Parent(p) in visited
    {
      LookupFullIndex(rules, tree, p);
      assert Lookup(found, p) == Some(found[p]);
    }
    assert d in pending && d !in visited;
    assert d == [] || found[d].DirEntry?;
  }

  /**
    What a rebuild over a tree that does not change meanwhile comes to. It is exact if and only if the full index fits
    under the limit, whatever it reports; and it is reported complete if and only if no directory that it has found is
    left unlisted.
   */
  ghost predicate Outcome(rules: Rules, tree: FileTree, limit: nat, order: seq<Path>, entries: Entries,
                          complete: bool) {
    Within(entries, FullIndex(rules, tree)) && |order| == |entries| <= limit &&
    (forall p :: p in order <==> p in entries) &&
    (entries == FullIndex(rules, tree) <==> |FullIndex(rules, tree)| <= limit) &&
    (complete <==> ReportedComplete(tree, order, limit))
  }

  /** `rebuildIndex`. */
  method Rebuild(rules: Rules, tree: FileTree, limit: nat) returns (order: seq<Path>, entries: Entries, complete: bool)
    requires WellFormed(tree) && limit > 0
    ensures Outcome(rules, tree, limit, order, entries, complete)
    ensures (complete ==> entries == FullIndex(rules, tree)) <==>
      |FullIndex(rules, tree)| <= limit || LeftUnlisted(tree, order, limit)
  {
    order, entries := [], map[];
    var pending: seq<Path> := [[]];
    ghost var listed: seq<Path>, cut := [], false;
    WalkStarts(rules, tree);
    while pending != [] && |entries| < limit
      invariant Rebuilding(rules, tree, limit, order, entries, listed, pending, cut)
      decreases !cut, tree.Keys + {[]} - Visited(listed)
    {
      ghost var was := listed;
      ReadyStep(rules, tree, Visited(listed), pending, entries);
      order, entries, pending, listed, cut := TakeNext(rules, tree, limit, order, entries, pending, listed);
      VisitedAppend(was, listed[|was|]);
    }
    complete := pending == [];
    RebuildEnds(rules, tree, limit, order, entries, listed, pending, cut);
    CompleteMeansExact(rules, tree, limit, order, entries, complete);
  }

  ghost function Visited(listed: seq<Path>): set<Path> {
    set d | d in listed
  }

  lemma VisitedAppend(listed: seq<Path>, d: Path)
    ensures Visited(listed + [d]) == Visited(listed) + {d}
  {
  }

  /** Between two directories, or at the end of the walk. */
  ghost predicate Rebuilding(rules: Rules, tree: FileTree, limit: nat, order: seq<Path>, entries: Entries,
                             listed: seq<Path>, pending: seq<Path>, cut: bool) {
    Within(entries, FullIndex(rules, tree)) && |entries| <= limit && (cut ==> |entries| == limit) &&
    (!cut ==> Walking(rules, tree, Visited(listed), pending, entries)) &&
    Arrayed(tree, order, entries, listed, pending) && (listed == [] ==> pending != [] && |entries| < limit) &&
    (|entries| == limit ==> order != [] && listed != [] && Parent(order[|order| - 1]) == listed[|listed| - 1])
  }

  lemma RebuildEnds(rules: Rules, tree: FileTree, limit: nat, order: seq<Path>, entries: Entries,
                    listed: seq<Path>, pending: seq<Path>, cut: bool)
    requires WellFormed(tree) && Rebuilding(rules, tree, limit, order, entries, listed, pending, cut)
    requires pending == [] || |entries| == limit
    ensures Outcome(rules, tree, limit, order, entries, pending == [])
  {
    RootIsNotIndexed(rules, tree, entries);
    PendingIsReported(tree, order, entries, listed, pending, limit);
    SmallerIndex(entries, FullIndex(rules, tree));
    if !cut && pending == [] { WalkIsDone(rules, tree, Visited(listed), entries); }
  }

  /** One round of the outer loop. */
  method TakeNext(rules: Rules, tree: FileTree, limit: nat, before: seq<Path>, found: Entries, queue: seq<Path>,
                  ghost done: seq<Path>)
    returns (order: seq<Path>, entries: Entries, pending: seq<Path>, ghost listed: seq<Path>, ghost cut: bool)
    requires WellFormed(tree) && queue != [] && |found| < limit
    requires Rebuilding(rules, tree, limit, before, found, done, queue, false)
    ensures Rebuilding(rules, tree, limit, order, entries, listed, pending, cut)
    ensures listed == done + [queue[0]]
  {
    ReadyStep(rules, tree, Visited(done), queue, found);
    listed := done + [queue[0]];
    ArrayedTakes(tree, before, found, done, queue);
    order, entries, pending, cut := ListDirectory(rules, tree, limit, queue[0], before, found, queue[1..], listed);
    if !cut { RoundEnds(rules, tree, done, queue, found, entries, pending); }
  }

  lemma ArrayedTakes(tree: FileTree, order: seq<Path>, entries: Entries, done: seq<Path>, queue: seq<Path>)
    requires queue != [] && Arrayed(tree, order, entries, done, queue)
    ensures Arrayed(tree, order, entries, done + [queue[0]], queue[1..])
  {
    assert (done + [queue[0]]) + queue[1..] == done + queue;
  }

  lemma RoundEnds(rules: Rules, tree: FileTree, done: seq<Path>, queue: seq<Path>, found: Entries, entries: Entries,
                  pending: seq<Path>)
    requires queue != [] && Walking(rules, tree, Visited(done), queue, found)
    requires Listing(rules, tree, queue[0], {}, found, queue[1..], entries, pending)
    ensures Walking(rules, tree, Visited(done + [queue[0]]), pending, entries)
  {
    ListedStep(rules, tree, Visited(done), queue, found, entries, pending);
    VisitedAppend(done, queue[0]);
  }

  /** A rebuild of a flat tree is reported complete wherever the limit cuts it. */
  lemma FlatIsReportedComplete(tree: FileTree, order: seq<Path>, limit: nat)
    requires WellFormed(tree) && Flat(tree) && 0 < limit && |order| <= limit && forall p :: p in order ==> p in tree
    ensures ReportedComplete(tree, order, limit)
  {
    NoDirectories(tree, order);
    if |order| == limit {
      var p := order[limit - 1];
      assert p in order && p in tree;
      FlatPathsAreNames(tree, p);
    }
  }

  lemma FlatPathsAreNames(tree: FileTree, p: Path)
    requires WellFormed(tree) && Flat(tree) && p in tree
    ensures |p| == 1 && Parent(p) == []
  {
    var q := if |p| > 1 then p[..1] else p[..0];
    assert p != [] ==> q in Above(p);
    assert |p| > 1 ==> q != [] && q in tree;
  }

  lemma {:induction false} NoDirectories(tree: FileTree, order: seq<Path>)
    requires Flat(tree)
    ensures Directories(tree, order) == []
  {
    if order != [] { NoDirectories(tree, order[..|order| - 1]); }
  }

  lemma RootIsNotIndexed(rules: Rules, tree: FileTree, entries: Entries)
    requires WellFormed(tree) && Within(entries, FullIndex(rules, tree))
    ensures [] !in entries
  {
    LookupFullIndex(rules, tree, []);
  }

  /** Reported complete means exact if and only if the full index fits, or a directory found is still queued. */
  lemma CompleteMeansExact(rules: Rules, tree: FileTree, limit: nat, order: seq<Path>, entries: Entries, complete: bool)
    requires Outcome(rules, tree, limit, order, entries, complete)
    ensures (complete ==> entries == FullIndex(rules, tree)) <==>
      |FullIndex(rules, tree)| <= limit || LeftUnlisted(tree, order, limit)
  {
  }

  lemma WalkStarts(rules: Rules, tree: FileTree)
    ensures Walking(rules, tree, {}, [[]], map[])
  {
  }

  lemma WalkIsDone(rules: Rules, tree: FileTree, visited: set<Path>, entries: Entries)
    requires WellFormed(tree) && Walking(rules, tree, visited, [], entries)
    ensures entries == FullIndex(rules, tree)
  {
    forall p
      ensures Lookup(entries, p) == Lookup(FullIndex(rules, tree), p)
    {
      WalkFindsAll(rules, tree, visited, entries, p);
      LookupFullIndex(rules, tree, p);
    }
    SameLookups(entries, FullIndex(rules, tree));
  }

  lemma SameLookups(x: Entries, y: Entries)
    requires forall p :: Lookup(x, p) == Lookup(y, p)
    ensures x == y
  {
    forall p
      ensures p in x <==> p in y
      ensures p in x ==> x[p] == y[p]
    {
      assert Lookup(x, p) == Lookup(y, p);
    }
  }

  /** `n` files side by side. */
  function Row(n: nat): (tree: FileTree)
    ensures WellFormed(tree) && Flat(tree) && |tree| == n
    ensures forall p :: p in tree ==> |p| == 1 && |p[0]| < n && tree[p].Regular?
  {
    if n == 0 then map[]
    else
      var rest := Row(n - 1);
      var name := seq(n - 1, _ => 'x');
      assert [name] !in rest;
      rest[[name] := Regular(0, "")]
  }

  /** Any limit is exceeded by a flat tree, whose rebuild is therefore reported complete without being exact. */
  lemma FlatTreesOverflow(limit: nat)
    ensures exists tree, rules :: WellFormed(tree) && Flat(tree) && |FullIndex(rules, tree)| > limit
  {
    var tree, rules := Row(limit + 1), Rules(_ => false, _ => false);
    assert FullIndex(rules, tree).Keys == tree.Keys;
    assert |FullIndex(rules, tree)| == |FullIndex(rules, tree).Keys| && |tree| == |tree.Keys|;
  }

  // ---------------------------------------------------------------- the incremental flush

  /** `removeIndexSubtree`: the path and everything below it. */
  function RemoveSubtree(entries: Entries, p: Path): Entries {
    map q | q in entries && !(p <= q) :: entries[q]
  }

  /** A directory that was not one in the index; only a rebuild can find what is in it. */
  predicate NewDirectory(entries: Entries, tree: FileTree, p: Path) {
    p in tree && tree[p].Directory? && !(p in entries && entries[p].DirEntry?)
  }

  /** What the flush does with one path. */
  function Refresh(entries: Entries, tree: FileTree, p: Path): Entries {
    if p !in tree || tree[p].Symlink? then RemoveSubtree(entries, p)
    else match tree[p]
      case Directory(modified) =>
        (if NewDirectory(entries, tree, p) then RemoveSubtree(entries, p) else entries)[p := DirEntry(modified)]
      case Regular(size, modified) => entries[p := FileEntry(size, modified)]
      case _ => entries
  }

  /** `p` or something above it was found gone. */
  ghost predicate Swept(tree: FileTree, done: set<Path>, p: Path) {
    exists r :: r in done && r <= p && (r !in tree || tree[r].Symlink?)
  }

  ghost predicate IsSpecial(tree: FileTree, p: Path) {
    p in tree && tree[p].Special?
  }

  /** What the flush has made of each path, as long as it has met no new directory. */
  ghost predicate Flushed(prior: Entries, tree: FileTree, done: set<Path>, entries: Entries) {
    forall p :: Lookup(entries, p) ==
      if p in done && !IsSpecial(tree, p) then Raw(tree, p)
      else if Swept(tree, done, p) then None
      else Lookup(prior, p)
  }

  lemma NothingBelowGone(tree: FileTree, r: Path, p: Path)
    requires WellFormed(tree) && r <= p && r != [] && (r !in tree || tree[r].Symlink?)
    ensures Raw(tree, p) == None && !IsSpecial(tree, p)
  {
    if r != p { assert r == p[..|r|] && r in Above(p); }
  }

  lemma RefreshStep(prior: Entries, tree: FileTree, done: set<Path>, entries: Entries, path: Path)
    requires WellFormed(tree) && Flushed(prior, tree, done, entries) && path != [] && [] !in done
    requires !NewDirectory(entries, tree, path)
    ensures Flushed(prior, tree, done + {path}, Refresh(entries, tree, path))
  {
    var after := Refresh(entries, tree, path);
    forall p
      ensures Lookup(after, p) ==
        if p in done + {path} && !IsSpecial(tree, p) then Raw(tree, p)
        else if Swept(tree, done + {path}, p) then None
        else Lookup(prior, p)
    {
      if path !in tree || tree[path].Symlink? {
        if path <= p {
          NothingBelowGone(tree, path, p);
          assert Swept(tree, done + {path}, p);
        } else {
          SweptOnlyBy(tree, done, path, p);
        }
      } else {
        SweptOnlyBy(tree, done, path, p);
      }
    }
  }

  lemma SweptOnlyBy(tree: FileTree, done: set<Path>, path: Path, p: Path)
    requires !(path <= p) || (path in tree && !tree[path].Symlink?)
    ensures Swept(tree, done + {path}, p) <==> Swept(tree, done, p)
  {
  }

  /** A flush asks for a rebuild exactly when one of its paths is a directory by now and was not listed as one. */
  lemma {:induction false} NewDirectoryReads(prior: Entries, tree: FileTree, paths: seq<Path>)
    requires WellFormed(tree) && [] !in paths
    ensures MeetsNewDirectory(prior, tree, paths) <==>
      exists p :: p in paths && p in tree && tree[p].Directory? && !(p in prior && prior[p].DirEntry?)
  {
    if paths != [] {
      var n := |paths| - 1;
      assert forall p :: p in paths <==> p in paths[..n] || p == paths[n] by {
        assert paths == paths[..n] + [paths[n]];
      }
      NewDirectoryReads(prior, tree, paths[..n]);
      if !MeetsNewDirectory(prior, tree, paths[..n]) {
        RefreshAllFlushes(prior, tree, paths[..n]);
        StillNewDirectory(prior, tree, paths[..n], paths[n]);
      }
    }
  }

  lemma StillNewDirectory(prior: Entries, tree: FileTree, done: seq<Path>, p: Path)
    requires WellFormed(tree) && [] !in done && p != []
    requires Flushed(prior, tree, PathSet(done), RefreshAll(prior, tree, done))
    requires forall q :: q in done ==> !NewDirectory(prior, tree, q)
    ensures NewDirectory(RefreshAll(prior, tree, done), tree, p) <==> NewDirectory(prior, tree, p)
  {
    if p in tree && tree[p].Directory? {
      if Swept(tree, PathSet(done), p) {
        var r :| r in PathSet(done) && r <= p && (r !in tree || tree[r].Symlink?);
        NothingBelowGone(tree, r, p);
      }
      assert Lookup(RefreshAll(prior, tree, done), p) == if p in PathSet(done) then Raw(tree, p) else Lookup(prior, p);
    }
  }

  ghost predicate VisibleIn(rules: Rules, tree: FileTree, p: Path) {
    p in tree && !Pruned(rules, tree, p)
  }

  /** The flushed paths are no excluded ones, and every visible path that changed is among them. */
  ghost predicate Covers(rules: Rules, before: FileTree, tree: FileTree, paths: set<Path>) {
    (forall p :: p in paths ==> p != [] && !Pruned(rules, tree, p)) &&
    (forall p :: p !in paths && (VisibleIn(rules, before, p) || VisibleIn(rules, tree, p)) ==>
       (p in before <==> p in tree) && (p in tree ==> before[p] == tree[p]))
  }

  /** An unchanged visible path is just as visible in the new tree. */
  lemma StaysVisible(rules: Rules, before: FileTree, tree: FileTree, p: Path)
    requires WellFormed(before) && WellFormed(tree) && p in before && p in tree && before[p] == tree[p]
    ensures Pruned(rules, before, p) <==> Pruned(rules, tree, p)
  {
    forall q | q in Above(p)
      ensures Barred(rules, before, q) <==> Barred(rules, tree, q)
    {
    }
  }

  lemma UncoveredUnchanged(rules: Rules, before: FileTree, tree: FileTree, paths: set<Path>, p: Path)
    requires WellFormed(before) && WellFormed(tree) && Covers(rules, before, tree, paths) && p !in paths
    ensures EntryAt(rules, before, p) == EntryAt(rules, tree, p)
  {
    if VisibleIn(rules, before, p) || VisibleIn(rules, tree, p) {
      if p in tree { StaysVisible(rules, before, tree, p); }
    }
  }

  /** After a flush that met no new directory, every path but a special file is as in a full rebuild. */
  lemma FlushedIsExact(rules: Rules, before: FileTree, tree: FileTree, paths: set<Path>, entries: Entries, p: Path)
    requires WellFormed(before) && WellFormed(tree) && Covers(rules, before, tree, paths)
    requires Flushed(FullIndex(rules, before), tree, paths, entries)
    ensures p in paths && IsSpecial(tree, p) ==>
              Lookup(entries, p) == Lookup(FullIndex(rules, before), p) && EntryAt(rules, tree, p) == None
    ensures !(p in paths && IsSpecial(tree, p)) ==> Lookup(entries, p) == EntryAt(rules, tree, p)
  {
    var prior := FullIndex(rules, before);
    if Swept(tree, paths, p) {
      var r :| r in paths && r <= p && (r !in tree || tree[r].Symlink?);
      NothingBelowGone(tree, r, p);
    } else if p !in paths {
      LookupFullIndex(rules, before, p);
      UncoveredUnchanged(rules, before, tree, paths, p);
    }
  }

  /** A path the index lists that has become neither a file, a directory nor a link. */
  ghost predicate StaleSpecial(prior: Entries, tree: FileTree, paths: set<Path>) {
    exists p :: p in paths && IsSpecial(tree, p) && p in prior
  }

  /** The paths refreshed in turn. */
  function RefreshAll(entries: Entries, tree: FileTree, paths: seq<Path>): Entries {
    if paths == [] then entries
    else Refresh(RefreshAll(entries, tree, paths[..|paths| - 1]), tree, paths[|paths| - 1])
  }

  predicate MeetsNewDirectory(entries: Entries, tree: FileTree, paths: seq<Path>) {
    paths != [] &&
    (MeetsNewDirectory(entries, tree, paths[..|paths| - 1]) ||
     NewDirectory(RefreshAll(entries, tree, paths[..|paths| - 1]), tree, paths[|paths| - 1]))
  }

  ghost function PathSet(paths: seq<Path>): set<Path> {
    set p | p in paths
  }

  lemma {:induction false} RefreshAllFlushes(prior: Entries, tree: FileTree, paths: seq<Path>)
    requires WellFormed(tree) && [] !in paths && !MeetsNewDirectory(prior, tree, paths)
    ensures Flushed(prior, tree, PathSet(paths), RefreshAll(prior, tree, paths))
  {
    if paths != [] {
      var n := |paths| - 1;
      RefreshAllFlushes(prior, tree, paths[..n]);
      assert paths == paths[..n] + [paths[n]];
      assert PathSet(paths) == PathSet(paths[..n]) + {paths[n]};
      RefreshStep(prior, tree, PathSet(paths[..n]), RefreshAll(prior, tree, paths[..n]), paths[n]);
    }
  }

  /** A flush that meets no new directory agrees with a full rebuild if and only if no listed path has
      become a special file. */
  lemma FlushIsRebuild(rules: Rules, before: FileTree, tree: FileTree, paths: seq<Path>)
    requires WellFormed(before) && WellFormed(tree) && Covers(rules, before, tree, PathSet(paths))
    requires !MeetsNewDirectory(FullIndex(rules, before), tree, paths)
    ensures RefreshAll(FullIndex(rules, before), tree, paths) == FullIndex(rules, tree) <==>
            !StaleSpecial(FullIndex(rules, before), tree, PathSet(paths))
  {
    var prior, entries := FullIndex(rules, before), RefreshAll(FullIndex(rules, before), tree, paths);
    assert forall p :: p in paths ==> p in PathSet(paths);
    RefreshAllFlushes(prior, tree, paths);
    if StaleSpecial(prior, tree, PathSet(paths)) {
      var p :| p in PathSet(paths) && IsSpecial(tree, p) && p in prior;
      FlushedIsExact(rules, before, tree, PathSet(paths), entries, p);
      LookupFullIndex(rules, tree, p);
      assert Lookup(entries, p) != Lookup(FullIndex(rules, tree), p);
    } else {
      forall p
        ensures Lookup(entries, p) == Lookup(FullIndex(rules, tree), p)
      {
        FlushedIsExact(rules, before, tree, PathSet(paths), entries, p);
        LookupFullIndex(rules, tree, p);
      }
      SameLookups(entries, FullIndex(rules, tree));
    }
  }

  /** The input on which they disagree: a listed file has become a special file. */
  lemma SpecialFileStays(rules: Rules, name: string, size: nat, modified: string)
    requires !rules.secret(name)
    ensures var before: FileTree, tree: FileTree := map[[name] := Regular(size, modified)], map[[name] := Special];
      WellFormed(before) && WellFormed(tree) && Covers(rules, before, tree, PathSet([[name]])) &&
      !MeetsNewDirectory(FullIndex(rules, before), tree, [[name]]) &&
      RefreshAll(FullIndex(rules, before), tree, [[name]]) != FullIndex(rules, tree)
  {
    var before: FileTree, tree: FileTree := map[[name] := Regular(size, modified)], map[[name] := Special];
    var paths := [[name]];
    assert paths[..0] == [] && paths[0] in PathSet(paths);
    LonePath(rules, before, name);
    LonePath(rules, tree, name);
    assert Covers(rules, before, tree, PathSet(paths)) by {
      assert forall p :: p in PathSet(paths) ==> p == [name];
    }
    LookupFullIndex(rules, before, [name]);
    assert StaleSpecial(FullIndex(rules, before), tree, PathSet(paths));
    FlushIsRebuild(rules, before, tree, paths);
  }

  lemma LonePath(rules: Rules, tree: FileTree, name: string)
    requires tree.Keys == {[name]} && !tree[[name]].Directory? && !rules.secret(name)
    ensures WellFormed(tree) && !Pruned(rules, tree, [name])
  {
    var p := [name];
    forall q | q in Above(p)
      ensures q == []
    {
    }
  }

  // ---------------------------------------------------------------- the watcher's filter

  /** `isIgnoredRevisionPath`: a segment with an excluded name, be it a directory or not, or a sensitive path. */
  predicate Ignored(rules: Rules, p: Path) {
    (exists i :: 0 <= i < |p| && rules.excluded(p[i])) || Sensitive(rules, p)
  }

  /** The events that get past the filter. */
  ghost function Heeded(rules: Rules, events: set<Path>): set<Path> {
    set p | p in events && !Ignored(rules, p)
  }

  ghost predicate VisiblyChanged(rules: Rules, before: FileTree, tree: FileTree, p: Path) {
    (VisibleIn(rules, before, p) || VisibleIn(rules, tree, p)) &&
    !((p in before <==> p in tree) && (p in tree ==> before[p] == tree[p]))
  }

  /** The watcher sees every visible change, and speaks of paths below the root only. */
  ghost predicate Reported(rules: Rules, before: FileTree, tree: FileTree, events: set<Path>) {
    [] !in events && forall p :: VisiblyChanged(rules, before, tree, p) ==> p in events
  }

  /** No visible path that has changed bears an excluded name itself. */
  ghost predicate NoneOverlooked(rules: Rules, before: FileTree, tree: FileTree) {
    forall p :: VisiblyChanged(rules, before, tree, p) && p != [] ==> !rules.excluded(p[|p| - 1])
  }

  /** A path that gets past the filter is not pruned in any tree. */
  lemma HeededIsNotPruned(rules: Rules, tree: FileTree, p: Path)
    requires !Ignored(rules, p)
    ensures !Pruned(rules, tree, p)
  {
    forall q | q in Above(p) || q == p
      ensures !Barred(rules, tree, q)
    {
      assert forall i :: 0 <= i < |q| ==> q[i] == p[i];
    }
  }

  /** A visible path is ignored only for its own name, which the walk minds in directories only. */
  lemma VisibleIsIgnoredForItsName(rules: Rules, tree: FileTree, p: Path)
    requires WellFormed(tree) && VisibleIn(rules, tree, p)
    ensures Ignored(rules, p) <==> rules.excluded(p[|p| - 1])
  {
    assert p != [] && !Barred(rules, tree, p);
    forall i | 0 <= i < |p| - 1
      ensures !rules.excluded(p[i])
    {
      var q := p[..i + 1];
      assert q in Above(p) && q != [] && q[|q| - 1] == p[i];
      assert !Barred(rules, tree, q);
    }
  }

  /** The filter loses no visible change if and only if none of the changed paths bears an excluded name itself. */
  lemma FilterKeepsCover(rules: Rules, before: FileTree, tree: FileTree, events: set<Path>)
    requires WellFormed(before) && WellFormed(tree) && Reported(rules, before, tree, events)
    ensures Covers(rules, before, tree, Heeded(rules, events)) <==> NoneOverlooked(rules, before, tree)
  {
    forall p | p in Heeded(rules, events)
      ensures p != [] && !Pruned(rules, tree, p)
    {
      HeededIsNotPruned(rules, tree, p);
    }
    forall p | VisiblyChanged(rules, before, tree, p)
      ensures p != [] && (Ignored(rules, p) <==> rules.excluded(p[|p| - 1]))
    {
      if VisibleIn(rules, before, p) {
        VisibleIsIgnoredForItsName(rules, before, p);
      } else {
        VisibleIsIgnoredForItsName(rules, tree, p);
      }
    }
    if Covers(rules, before, tree, Heeded(rules, events)) {
      forall p | VisiblyChanged(rules, before, tree, p)
        ensures !rules.excluded(p[|p| - 1])
      {
        assert p in Heeded(rules, events);
      }
    }
  }

  /** The input that the filter overlooks: a new file with the name of an excluded directory. */
  lemma OverlookedFile(rules: Rules, name: string, size: nat, modified: string)
    requires rules.excluded(name) && !rules.secret(name)
    ensures var before: FileTree, tree: FileTree := map[], map[[name] := Regular(size, modified)];
      WellFormed(before) && WellFormed(tree) && Reported(rules, before, tree, {[name]}) &&
      Heeded(rules, {[name]}) == {} && FullIndex(rules, before) != FullIndex(rules, tree)
  {
    var before: FileTree, tree: FileTree := map[], map[[name] := Regular(size, modified)];
    LonePath(rules, tree, name);
    LookupFullIndex(rules, before, [name]);
    LookupFullIndex(rules, tree, [name]);
    assert [name][0] == name;
    forall p | p in {[name]}
      ensures Ignored(rules, p)
    {
      assert p[0] == name;
    }
  }

  datatype Status = Building | Ready | Stale | Failed

  /** The index part of `LocalWorkspace`. */
  class WorkspaceIndex {
    var present: bool
    var entries: Entries
    var status: Status
    var generation: nat
    var complete: bool
    var lastStableComplete: bool
    var pending: seq<Path>
    var rebuildScheduled: bool

    constructor ()
      ensures !present && entries == map[] && generation == 0 && pending == []
    {
      present, entries, status, generation := false, map[], Building, 0;
      complete, lastStableComplete, pending, rebuildScheduled := false, false, [], false;
    }

    /** An index that takes part in incremental updates. */
    predicate Usable()
      reads this
    {
      present && generation != 0 && status != Building && status != Failed
    }

    /** A watcher event: unless the path is to be ignored, remember it, once, and mark the index out of date. */
    method Changed(rules: Rules, path: Path)
      modifies this`pending, this`status, this`complete
      ensures pending == if Ignored(rules, path) || path in old(pending) then old(pending) else old(pending) + [path]
      ensures present && !Ignored(rules, path) ==> status == Stale && !complete
      ensures !present || Ignored(rules, path) ==> status == old(status) && complete == old(complete)
    {
      if Ignored(rules, path) { return; }
      if path !in pending { pending := pending + [path]; }
      if present { status, complete := Stale, false; }
    }

    /** `rebuildIndex` as a whole, over a tree that is stable meanwhile and read without failures. */
    method RebuildIndex(rules: Rules, tree: FileTree, limit: nat) returns (order: seq<Path>)
      requires WellFormed(tree) && limit > 0
      modifies this
      ensures Outcome(rules, tree, limit, order, entries, complete)
      ensures (complete ==> entries == FullIndex(rules, tree)) <==>
        |FullIndex(rules, tree)| <= limit || LeftUnlisted(tree, order, limit)
      ensures present && status == Ready && generation == old(generation) + 1 && complete == lastStableComplete
      ensures pending == old(pending)
    {
      var found, fits;
      order, found, fits := Rebuild(rules, tree, limit);
      Publish(found, fits);
    }

    method Publish(found: Entries, fits: bool)
      modifies this
      ensures entries == found && complete == fits && lastStableComplete == fits
      ensures present && status == Ready && generation == old(generation) + 1 && !rebuildScheduled &&
        pending == old(pending)
    {
      entries, complete, lastStableComplete := found, fits, fits;
      present, status, generation, rebuildScheduled := true, Ready, generation + 1, false;
    }

    /** `applyIncrementalIndexUpdates` over a tree that is stable meanwhile; `moved` says that another
        event has advanced the revision before the flush could publish. */
    method Flush(tree: FileTree, moved: bool)
      modifies this
      ensures pending == [] && present == old(present) && lastStableComplete == old(lastStableComplete)
      // Not published: the index is as before, although the pending paths are gone.
      ensures old(pending) == [] || !old(Usable()) || moved ==>
        entries == old(entries) && status == old(status) && generation == old(generation) && complete == old(complete)
      ensures old(pending) != [] && !old(Usable()) ==> rebuildScheduled
      // Published.
      ensures old(pending) != [] && old(Usable()) && !moved ==>
        var again := MeetsNewDirectory(old(entries), tree, old(pending));
        entries == RefreshAll(old(entries), tree, old(pending)) && generation == old(generation) + 1 &&
        status == (if again then Stale else Ready) && complete == (lastStableComplete && !again) &&
          (again ==> rebuildScheduled)
    {
      var paths := pending;
      pending := [];
      if paths == [] { return; }
      if !Usable() {
        rebuildScheduled := true;
        return;
      }
      var byPath, requiresRebuild := entries, false;
      for k := 0 to |paths|
        modifies {}
        invariant byPath == RefreshAll(entries, tree, paths[..k])
        invariant requiresRebuild == MeetsNewDirectory(entries, tree, paths[..k])
      {
        assert paths[..k + 1][..k] == paths[..k];
        if NewDirectory(byPath, tree, paths[k]) { requiresRebuild := true; }
        byPath := Refresh(byPath, tree, paths[k]);
      }
      assert paths[..|paths|] == paths;
      if moved { return; }
      entries := byPath;
      generation := generation + 1;
      status := if requiresRebuild then Stale else Ready;
      complete := lastStableComplete && !requiresRebuild;
      if requiresRebuild { rebuildScheduled := true; }
    }
  }

  // ---------------------------------------------------------------- whole runs

  /** The paths the watcher has seen since the last flush, and the tree at the time of the next one. */
  datatype Batch = Batch(events: seq<Path>, tree: FileTree)

  /** Every batch reports what changed, overlooks none of it, leaves no special file in the place of a listed path, and
      fits the limit. */
  ghost predicate Followable(rules: Rules, before: FileTree, batches: seq<Batch>, limit: nat)
    decreases |batches|
  {
    batches == [] ||
    (WellFormed(batches[0].tree) && Reported(rules, before, batches[0].tree, PathSet(batches[0].events)) &&
     NoneOverlooked(rules, before, batches[0].tree) &&
     !StaleSpecial(FullIndex(rules, before), batches[0].tree, Heeded(rules, PathSet(batches[0].events))) &&
     |FullIndex(rules, batches[0].tree)| <= limit && Followable(rules, batches[0].tree, batches[1..], limit))
  }

  ghost function LastTree(before: FileTree, batches: seq<Batch>): FileTree {
    if batches == [] then before else batches[|batches| - 1].tree
  }

  /** The watcher's events of one batch. */
  method ReportAll(index: WorkspaceIndex, rules: Rules, events: seq<Path>)
    requires index.pending == [] && index.Usable()
    modifies index
    ensures index.Usable() && PathSet(index.pending) == Heeded(rules, PathSet(events))
    ensures index.entries == old(index.entries)
  {
    for k := 0 to |events|
      invariant index.Usable() && index.entries == old(index.entries)
      invariant forall p :: p in index.pending <==> p in events[..k] && !Ignored(rules, p)
    {
      index.Changed(rules, events[k]);
    }
  }

  /** One batch, with the rebuild that follows when the flush has met a new directory. */
  method FollowOne(index: WorkspaceIndex, rules: Rules, ghost before: FileTree, batch: Batch, limit: nat)
    requires WellFormed(before) && WellFormed(batch.tree) && limit > 0
    requires Reported(rules, before, batch.tree, PathSet(batch.events)) && NoneOverlooked(rules, before, batch.tree)
    requires !StaleSpecial(FullIndex(rules, before), batch.tree, Heeded(rules, PathSet(batch.events)))
    requires |FullIndex(rules, batch.tree)| <= limit
    requires index.pending == [] && index.Usable() && index.entries == FullIndex(rules, before)
    modifies index
    ensures index.pending == [] && index.Usable() && index.entries == FullIndex(rules, batch.tree)
  {
    ReportAll(index, rules, batch.events);
    ghost var paths := index.pending;
    FilterKeepsCover(rules, before, batch.tree, PathSet(batch.events));
    if !MeetsNewDirectory(FullIndex(rules, before), batch.tree, paths) {
      FlushIsRebuild(rules, before, batch.tree, paths);
    }
    index.Flush(batch.tree, false);
    if index.rebuildScheduled { var _ := index.RebuildIndex(rules, batch.tree, limit); }
  }

  /** Once exact, the index is exact after every batch, as long as every flush gets to publish. */
  method FollowChanges(index: WorkspaceIndex, rules: Rules, ghost before: FileTree, batches: seq<Batch>, limit: nat)
    requires WellFormed(before) && limit > 0 && Followable(rules, before, batches, limit)
    requires index.pending == [] && index.Usable() && index.entries == FullIndex(rules, before)
    modifies index
    ensures index.pending == [] && index.Usable() && index.entries == FullIndex(rules, LastTree(before, batches))
  {
    ghost var tree := before;
    for k := 0 to |batches|
      invariant WellFormed(tree) && Followable(rules, tree, batches[k..], limit) &&
        tree == LastTree(before, batches[..k])
      invariant index.pending == [] && index.Usable() && index.entries == FullIndex(rules, tree)
    {
      assert batches[k..][0] == batches[k] && batches[k..][1..] == batches[k + 1..];
      FollowOne(index, rules, tree, batches[k], limit);
      tree := batches[k].tree;
    }
    assert batches[..|batches|] == batches;
  }
}
