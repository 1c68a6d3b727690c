/**
  `buildChangeSet` and its inverse: applying the difference of two snapshots to a workspace in
  the first state gives the second.
 */
module RoundTrip {

  import opened Options
  import opened Disk
  import opened ChangeSet
  import opened LocalWorkspaces

  /** A snapshot lists the files of a tree in the order they were visited. */
  datatype File = File(path: Path, bytes: Bytes)

  ghost predicate Distinct(files: seq<File>) {
    forall i, j :: 0 <= i < j < |files| ==> files[i].path != files[j].path
  }

  function AsMap(files: seq<File>): map<Path, Bytes> {
    if files == [] then map[] else AsMap(files[..|files| - 1])[files[|files| - 1].path := files[|files| - 1].bytes]
  }

  /** A created or updated file as a change, or `None` when it is not text. */
  function WriteFor(env: Env, before: map<Path, Bytes>, file: File): Option<Change> {
    var text := env.decode(file.bytes);
    if text.None? then None
    else if file.path !in before then Some(Create(file.path, text.value))
    else Some(Update(file.path, text.value, env.hash(before[file.path]), env.decode(before[file.path])))
  }

  predicate Changed(env: Env, before: map<Path, Bytes>, file: File) {
    file.path !in before || env.hash(before[file.path]) != env.hash(file.bytes)
  }

  /** The creations and updates, in the order of `after`; `None` when one of them is not text. */
  function Writes(env: Env, before: map<Path, Bytes>, after: seq<File>): Option<seq<Change>> {
    if after == [] then Some([])
    else
      var file := after[|after| - 1];
      var earlier := Writes(env, before, after[..|after| - 1]);
      if earlier.None? || !Changed(env, before, file) then earlier
      else
        var write := WriteFor(env, before, file);
        if write.None? then None else Some(earlier.value + [write.value])
  }

  function DeleteFor(env: Env, file: File): Change {
    Delete(file.path, env.hash(file.bytes), env.decode(file.bytes))
  }

  /** The deletions, in the order of `before`. */
  function Deletes(env: Env, before: seq<File>, after: map<Path, Bytes>): seq<Change> {
    if before == [] then []
    else
      var file := before[|before| - 1];
      Deletes(env, before[..|before| - 1], after) + (if file.path in after then [] else [DeleteFor(env, file)])
  }

  /** The changes of `buildChangeSet`; an empty list stands for no change set. */
  function Build(env: Env, before: seq<File>, after: seq<File>): Option<seq<Change>> {
    var writes := Writes(env, AsMap(before), after);
    if writes.None? then None else Some(writes.value + Deletes(env, before, AsMap(after)))
  }

  /** `buildChangeSet`. */
  method BuildChangeSet(env: Env, before: seq<File>, after: seq<File>) returns (changes: Option<seq<Change>>)
    ensures changes == Build(env, before, after)
    ensures Collisionless(env) && Distinct(before) && Distinct(after) ==>
      TellsDifference(env, AsMap(before), AsMap(after), changes)
  {
    if Collisionless(env) && Distinct(before) && Distinct(after) { BuildTells(env, before, after); }
    var was, goal := AsMap(before), AsMap(after);
    var pushed: seq<Change> := [];
    for k := 0 to |after|
      invariant Writes(env, was, after[..k]) == Some(pushed)
    {
      assert after[..k + 1][..k] == after[..k];
      if Changed(env, was, after[k]) {
        var write := WriteFor(env, was, after[k]);
        if write.None? {
          WritesStayNone(env, was, after, k + 1);
          return None;
        }
        pushed := pushed + [write.value];
      }
    }
    assert after[..|after|] == after;
    ghost var writes := pushed;
    for k := 0 to |before|
      invariant pushed == writes + Deletes(env, before[..k], goal)
    {
      assert before[..k + 1][..k] == before[..k];
      if before[k].path !in goal {
        pushed := pushed + [DeleteFor(env, before[k])];
      }
    }
    assert before[..|before|] == before;
    changes := Some(pushed);
  }

  lemma {:induction false} WritesStayNone(env: Env, before: map<Path, Bytes>, after: seq<File>, k: nat)
    requires k <= |after| && Writes(env, before, after[..k]).None?
    ensures Writes(env, before, after).None?
    decreases |after|
  {
    if k == |after| {
      assert after[..k] == after;
    } else {
      assert after[..|after| - 1][..k] == after[..k];
      WritesStayNone(env, before, after[..|after| - 1], k);
    }
  }

  // ---------------------------------------------------------------- members

  lemma {:induction false} AsMapMembers(files: seq<File>)
    requires Distinct(files)
    ensures forall f :: f in files ==> f.path in AsMap(files) && AsMap(files)[f.path] == f.bytes
    ensures forall p :: p in AsMap(files) ==> File(p, AsMap(files)[p]) in files
  {
    if files != [] {
      var n := |files| - 1;
      AsMapMembers(files[..n]);
      assert files == files[..n] + [files[n]];
      forall f | f in files[..n]
        ensures f.path != files[n].path
      {
        var i :| 0 <= i < n && files[i] == f;
      }
    }
  }

  /** A change is written exactly for each changed file of `after`. */
  ghost predicate WritesFor(env: Env, before: map<Path, Bytes>, after: seq<File>, changes: seq<Change>) {
    (forall f :: f in after && Changed(env, before, f) ==>
     WriteFor(env, before, f).Some? && WriteFor(env, before, f).value in changes) &&
    (forall c :: c in changes ==>
     exists f :: f in after && Changed(env, before, f) && WriteFor(env, before, f) == Some(c))
  }

  lemma {:induction false} WritesMembers(env: Env, before: map<Path, Bytes>, after: seq<File>)
    requires Writes(env, before, after).Some?
    ensures WritesFor(env, before, after, Writes(env, before, after).value)
  {
    if after != [] {
      var n := |after| - 1;
      WritesMembers(env, before, after[..n]);
      assert after == after[..n] + [after[n]];
      var earlier, all := Writes(env, before, after[..n]).value, Writes(env, before, after).value;
      forall c | c in all
        ensures exists f :: f in after && Changed(env, before, f) && WriteFor(env, before, f) == Some(c)
      {
        if c in earlier {
          var f :| f in after[..n] && Changed(env, before, f) && WriteFor(env, before, f) == Some(c);
          assert f in after;
        } else {
          assert after[n] in after;
        }
      }
    }
  }

  lemma {:induction false} DeletesMembers(env: Env, before: seq<File>, after: map<Path, Bytes>)
    ensures forall f :: f in before && f.path !in after ==> DeleteFor(env, f) in Deletes(env, before, after)
    ensures forall c :: c in Deletes(env, before, after) ==>
      exists f :: f in before && f.path !in after && c == DeleteFor(env, f)
  {
    if before != [] {
      var n := |before| - 1;
      DeletesMembers(env, before[..n], after);
      assert before == before[..n] + [before[n]];
      forall c | c in Deletes(env, before, after)
        ensures exists f :: f in before && f.path !in after && c == DeleteFor(env, f)
      {
        if c in Deletes(env, before[..n], after) {
          var f :| f in before[..n] && f.path !in after && c == DeleteFor(env, f);
          assert f in before;
        } else {
          assert before[n] in before;
        }
      }
    }
  }

  ghost predicate Added(was: map<Path, Bytes>, goal: map<Path, Bytes>, p: Path) {
    p in goal && p !in was
  }

  ghost predicate Edited(was: map<Path, Bytes>, goal: map<Path, Bytes>, p: Path) {
    p in goal && p in was && goal[p] != was[p]
  }

  ghost predicate Dropped(was: map<Path, Bytes>, goal: map<Path, Bytes>, p: Path) {
    p in was && p !in goal
  }

  /** The change that says how a path differs: its new text, and for what was there its hash and, if it was text, its
      old text. */
  ghost predicate Wanted(env: Env, was: map<Path, Bytes>, goal: map<Path, Bytes>, change: Change) {
    match change
    case Create(p, text) => Added(was, goal, p) && env.decode(goal[p]) == Some(text)
    case Update(p, text, hash, base) =>
      Edited(was, goal, p) && env.decode(goal[p]) == Some(text) && hash == env.hash(was[p]) &&
      base == env.decode(was[p])
    case Delete(p, hash, base) => Dropped(was, goal, p) && hash == env.hash(was[p]) && base == env.decode(was[p])
    case Move(_, _, _) => false
  }

  /** A new or edited file that is not text. */
  ghost predicate Untextual(env: Env, was: map<Path, Bytes>, goal: map<Path, Bytes>, p: Path) {
    (Added(was, goal, p) || Edited(was, goal, p)) && env.decode(goal[p]).None?
  }

  /** One change for each path that differs, and none at all when a new or edited file is not text. */
  ghost predicate TellsDifference(env: Env, was: map<Path, Bytes>, goal: map<Path, Bytes>, changes: Option<seq<Change>>)
  {
    (changes.None? <==> exists p :: Untextual(env, was, goal, p)) &&
    (changes.Some? ==> DistinctSubjects(changes.value) && forall c :: c in changes.value <==> Wanted(env, was, goal, c))
  }

  lemma {:induction false} WritesNone(env: Env, before: map<Path, Bytes>, after: seq<File>)
    ensures Writes(env, before, after).None? <==>
      exists f :: f in after && Changed(env, before, f) && WriteFor(env, before, f).None?
  {
    if after != [] {
      var n := |after| - 1;
      WritesNone(env, before, after[..n]);
      assert forall f :: f in after <==> f in after[..n] || f == after[n] by {
        assert after == after[..n] + [after[n]];
      }
    }
  }

  lemma {:induction false} WritesAreDistinct(env: Env, before: map<Path, Bytes>, after: seq<File>)
    requires Distinct(after) && Writes(env, before, after).Some?
    ensures DistinctSubjects(Writes(env, before, after).value)
  {
    if after != [] {
      var n := |after| - 1;
      WritesAreDistinct(env, before, after[..n]);
      WritesMembers(env, before, after[..n]);
      DistinctBefore(after, n);
      forall c | c in Writes(env, before, after[..n]).value
        ensures Subject(c) != after[n].path
      {
        var f :| f in after[..n] && Changed(env, before, f) && WriteFor(env, before, f) == Some(c);
      }
    }
  }

  lemma {:induction false} DeletesAreDistinct(env: Env, before: seq<File>, after: map<Path, Bytes>)
    requires Distinct(before)
    ensures DistinctSubjects(Deletes(env, before, after))
  {
    if before != [] {
      var n := |before| - 1;
      DeletesAreDistinct(env, before[..n], after);
      DeletesMembers(env, before[..n], after);
      DistinctBefore(before, n);
      forall c | c in Deletes(env, before[..n], after)
        ensures Subject(c) != before[n].path
      {
        var f :| f in before[..n] && f.path !in after && c == DeleteFor(env, f);
      }
    }
  }

  lemma WritesAreWanted(env: Env, was: map<Path, Bytes>, after: seq<File>, change: Change)
    requires Collisionless(env) && Distinct(after) && Writes(env, was, after).Some?
    ensures change in Writes(env, was, after).value <==> Wanted(env, was, AsMap(after), change) && !change.Delete?
  {
    var goal := AsMap(after);
    WritesMembers(env, was, after);
    AsMapMembers(after);
    if Wanted(env, was, goal, change) && !change.Delete? {
      var f := File(change.path, goal[change.path]);
      assert f in after && Changed(env, was, f);
      assert WriteFor(env, was, f) == Some(change);
    }
    if change in Writes(env, was, after).value {
      var f :| f in after && Changed(env, was, f) && WriteFor(env, was, f) == Some(change);
      assert goal[f.path] == f.bytes;
    }
  }

  lemma DeletesAreWanted(env: Env, before: seq<File>, goal: map<Path, Bytes>, change: Change)
    requires Distinct(before)
    ensures change in Deletes(env, before, goal) <==> Wanted(env, AsMap(before), goal, change) && change.Delete?
  {
    var was := AsMap(before);
    DeletesMembers(env, before, goal);
    AsMapMembers(before);
    if Wanted(env, was, goal, change) && change.Delete? {
      var f := File(change.path, was[change.path]);
      assert f in before && f.path !in goal && change == DeleteFor(env, f);
    }
    if change in Deletes(env, before, goal) {
      var f :| f in before && f.path !in goal && change == DeleteFor(env, f);
      assert was[f.path] == f.bytes;
      assert Dropped(was, goal, f.path);
      assert change == Delete(f.path, env.hash(was[f.path]), env.decode(was[f.path]));
    }
  }

  lemma BuildTells(env: Env, before: seq<File>, after: seq<File>)
    requires Collisionless(env) && Distinct(before) && Distinct(after)
    ensures TellsDifference(env, AsMap(before), AsMap(after), Build(env, before, after))
  {
    var was, goal := AsMap(before), AsMap(after);
    NoneTells(env, was, after, goal);
    if Build(env, before, after).Some? {
      WritesAreDistinct(env, was, after);
      DeletesAreDistinct(env, before, goal);
      var writes, deletes := Writes(env, was, after).value, Deletes(env, before, goal);
      forall c
        ensures c in Build(env, before, after).value <==> Wanted(env, was, goal, c)
        ensures c in writes ==> Subject(c) in goal
        ensures c in deletes ==> Subject(c) !in goal
      {
        WritesAreWanted(env, was, after, c);
        DeletesAreWanted(env, before, goal, c);
      }
      DistinctTogether(writes, deletes, goal.Keys);
    }
  }

  lemma DistinctTogether(xs: seq<Change>, ys: seq<Change>, paths: set<Path>)
    requires DistinctSubjects(xs) && DistinctSubjects(ys)
    requires (forall c :: c in xs ==> Subject(c) in paths) && (forall c :: c in ys ==> Subject(c) !in paths)
    ensures DistinctSubjects(xs + ys)
  {
    forall i, j | 0 <= i < j < |xs + ys|
      ensures Subject((xs + ys)[i]) != Subject((xs + ys)[j])
    {
      assert (xs + ys)[i] == (if i < |xs| then xs[i] else ys[i - |xs|]);
      assert (xs + ys)[j] == (if j < |xs| then xs[j] else ys[j - |xs|]);
    }
  }

  lemma NoneTells(env: Env, was: map<Path, Bytes>, after: seq<File>, goal: map<Path, Bytes>)
    requires Collisionless(env) && Distinct(after) && goal == AsMap(after)
    ensures Writes(env, was, after).None? <==> exists p :: Untextual(env, was, goal, p)
  {
    WritesNone(env, was, after);
    AsMapMembers(after);
    if Writes(env, was, after).None? {
      var f :| f in after && Changed(env, was, f) && WriteFor(env, was, f).None?;
      assert goal[f.path] == f.bytes;
      assert Untextual(env, was, goal, f.path);
    }
    forall p | Untextual(env, was, goal, p)
      ensures Writes(env, was, after).None?
    {
      assert File(p, goal[p]) in after && Changed(env, was, File(p, goal[p]));
    }
  }

  /** The difference of two snapshots is empty exactly when they hold the same files. */
  lemma DiffIsNull(env: Env, before: seq<File>, after: seq<File>)
    requires Collisionless(env) && Distinct(before) && Distinct(after)
    ensures Build(env, before, after) == Some([]) <==> AsMap(before) == AsMap(after)
  {
    var was, goal := AsMap(before), AsMap(after);
    AsMapMembers(before);
    AsMapMembers(after);
    DeletesMembers(env, before, goal);
    if Build(env, before, after) == Some([]) {
      WritesMembers(env, was, after);
      forall p
        ensures p in was <==> p in goal
        ensures p in was ==> was[p] == goal[p]
      {
        if p in goal { assert File(p, goal[p]) in after && !Changed(env, was, File(p, goal[p])); }
        if p in was { assert File(p, was[p]) in before; }
      }
    }
    if was == goal {
      NothingChanged(env, was, after);
      NothingDeleted(env, before, goal);
      assert [] + [] == Deletes(env, before, goal);
    }
  }

  lemma {:induction false} NothingChanged(env: Env, before: map<Path, Bytes>, after: seq<File>)
    requires forall f :: f in after ==> !Changed(env, before, f)
    ensures Writes(env, before, after) == Some([])
  {
    if after != [] {
      NothingChanged(env, before, after[..|after| - 1]);
    }
  }

  lemma {:induction false} NothingDeleted(env: Env, before: seq<File>, after: map<Path, Bytes>)
    requires forall f :: f in before ==> f.path in after
    ensures Deletes(env, before, after) == []
  {
    if before != [] {
      assert before[|before| - 1] in before;
      NothingDeleted(env, before[..|before| - 1], after);
    }
  }

  // ---------------------------------------------------------------- when a patch lands

  /** No file of the second state lies where the workspace has a directory, or under one of its files. */
  ghost predicate NoClash(d: Disk, after: seq<File>) {
    forall f :: f in after && f.path !in d.files ==> f.path !in d.dirs && !Blocked(d, f.path)
  }

  /** The files of a tree: none lies below another. */
  ghost predicate PrefixFree(files: seq<File>) {
    forall f, g :: f in files && g in files ==> f.path !in Above(g.path)
  }

  /** Decoding and encoding the changed files gives their bytes back. */
  ghost predicate Faithful(env: Env, before: map<Path, Bytes>, after: seq<File>) {
    forall f :: f in after && Changed(env, before, f) ==>
      env.decode(f.bytes).Some? && env.encode(env.decode(f.bytes).value) == f.bytes
  }

  ghost predicate Visible(env: Env, files: seq<File>) {
    forall f :: f in files ==> !env.sensitive(f.path)
  }

  ghost predicate Accepts(env: Env, d: Disk, c: Change) {
    Judge(env, d, c, true) == Accept(c)
  }

  lemma {:induction false} PlanAcceptsAll(env: Env, d: Disk, changes: seq<Change>)
    requires forall c :: c in changes ==> Accepts(env, d, c)
    ensures PlanFor(env, d, changes, true) == Planned(changes, [])
  {
    if changes != [] {
      var n := |changes| - 1;
      PlanAcceptsAll(env, d, changes[..n]);
      assert changes == changes[..n] + [changes[n]];
      assert Accepts(env, d, changes[n]);
    }
  }

  lemma {:induction false} PlanRefuses(env: Env, d: Disk, changes: seq<Change>, c: Change)
    requires c in changes && (Judge(env, d, c, true).Refuse? || Judge(env, d, c, true).Fail?)
    ensures var plan := PlanFor(env, d, changes, true); plan.Failed? || plan.conflicts != []
  {
    var n := |changes| - 1;
    if changes[n] != c {
      assert changes == changes[..n] + [changes[n]];
      PlanRefuses(env, d, changes[..n], c);
    }
  }

  /** The state the changes are applied to, and what is known of the two snapshots. */
  ghost predicate Setting(env: Env, d: Disk, before: seq<File>, after: seq<File>) {
    Tree(d) && Collisionless(env) && Distinct(before) && Distinct(after) && PrefixFree(after) &&
    d.files == AsMap(before) && Visible(env, before) && Visible(env, after)
  }

  /** Without a clash every change is accepted as it stands. */
  lemma AllAccepted(env: Env, d: Disk, before: seq<File>, after: seq<File>, c: Change)
    requires Setting(env, d, before, after) && NoClash(d, after) && Build(env, before, after).Some?
    requires c in Build(env, before, after).value
    ensures Accepts(env, d, c)
  {
    var was, goal := AsMap(before), AsMap(after);
    AsMapMembers(before);
    WritesMembers(env, was, after);
    DeletesMembers(env, before, goal);
    if c in Writes(env, was, after).value {
      var f :| f in after && Changed(env, was, f) && WriteFor(env, was, f) == Some(c);
      WriteAccepted(env, d, f);
    } else {
      var f :| f in before && f.path !in goal && c == DeleteFor(env, f);
      DeleteAccepted(env, d, f);
    }
  }

  lemma WriteAccepted(env: Env, d: Disk, f: File)
    requires Tree(d) && !env.sensitive(f.path) && WriteFor(env, d.files, f).Some?
    requires f.path !in d.files ==> f.path !in d.dirs && !Blocked(d, f.path)
    ensures Accepts(env, d, WriteFor(env, d.files, f).value)
  {
    if f.path in d.files { TreeDoesNotBlock(d, f.path); }
  }

  lemma DeleteAccepted(env: Env, d: Disk, f: File)
    requires Tree(d) && !env.sensitive(f.path) && f.path in d.files && d.files[f.path] == f.bytes
    ensures Accepts(env, d, DeleteFor(env, f))
  {
    TreeDoesNotBlock(d, f.path);
  }

  /** What the disk holds once the files of `done` have been written. */
  ghost predicate WrittenSoFar(env: Env, d: Disk, after: seq<File>, done: seq<File>, e: Disk) {
    Tree(e) &&
    (forall p :: Content(e, p) != Content(d, p) ==> exists f :: f in done && f.path == p && Changed(env, d.files, f)) &&
    (forall f :: f in done && Changed(env, d.files, f) && env.decode(f.bytes).Some? ==>
                 Content(e, f.path) == Some(env.encode(env.decode(f.bytes).value))) &&
    (forall p :: p in e.files ==> p in d.files || Listed(after, p)) &&
    (forall f :: f in after && f.path !in d.files ==> f.path !in e.dirs)
  }

  lemma DistinctBefore(files: seq<File>, k: nat)
    requires Distinct(files) && k < |files|
    ensures forall g :: g in files[..k] ==> g.path != files[k].path
  {
    forall g | g in files[..k]
      ensures g.path != files[k].path
    {
      var i :| 0 <= i < k && files[i] == g;
    }
  }

  lemma WriteValidates(env: Env, d: Disk, before: seq<File>, after: seq<File>, k: nat, e: Disk)
    requires Setting(env, d, before, after) && NoClash(d, after) && k < |after|
    requires WrittenSoFar(env, d, after, after[..k], e)
    requires Changed(env, d.files, after[k]) && WriteFor(env, d.files, after[k]).Some?
    ensures Validate(env, e, WriteFor(env, d.files, after[k]).value).Fine?
  {
    var f := after[k];
    assert f in after;
    DistinctBefore(after, k);
    assert Content(e, f.path) == Content(d, f.path);
    if f.path in d.files {
      TreeDoesNotBlock(e, f.path);
    } else {
      forall q | q in Above(f.path)
        ensures q !in e.files
      {
        NothingBelow(after, f, q);
      }
    }
  }

  ghost predicate Listed(files: seq<File>, p: Path) {
    exists f :: f in files && f.path == p
  }

  lemma NothingBelow(files: seq<File>, f: File, q: Path)
    requires PrefixFree(files) && f in files && q in Above(f.path)
    ensures !Listed(files, q)
  {
  }

  lemma {:induction false} WritesExecute(env: Env, d: Disk, before: seq<File>, after: seq<File>, k: nat)
    requires Setting(env, d, before, after) && NoClash(d, after) && k <= |after|
    requires Writes(env, d.files, after[..k]).Some?
    ensures var e := Execute(env, d, Writes(env, d.files, after[..k]).value);
      e.Some? && WrittenSoFar(env, d, after, after[..k], e.value)
  {
    if k > 0 {
      var f := after[k - 1];
      assert after[..k][..k - 1] == after[..k - 1] && after[..k] == after[..k - 1] + [f];
      WritesExecute(env, d, before, after, k - 1);
      if Changed(env, d.files, f) {
        var write := WriteFor(env, d.files, f).value;
        var earlier := Writes(env, d.files, after[..k - 1]).value;
        var e := Execute(env, d, earlier).value;
        WriteValidates(env, d, before, after, k - 1, e);
        EffectKeepsTree(env, e, write);
        ExecuteAppend(env, d, earlier, [write]);
        assert Execute(env, e, [write]) == Some(Effect(env, e, write));
        OneMoreWritten(env, d, before, after, k - 1, e);
      }
    }
  }

  lemma OneMoreWritten(env: Env, d: Disk, before: seq<File>, after: seq<File>, k: nat, e: Disk)
    requires Setting(env, d, before, after) && k < |after| && WrittenSoFar(env, d, after, after[..k], e)
    requires Changed(env, d.files, after[k]) && env.decode(after[k].bytes).Some?
    requires Tree(Write(e, after[k].path, env.encode(env.decode(after[k].bytes).value)))
    ensures WrittenSoFar(env, d, after, after[..k + 1],
                         Write(e, after[k].path, env.encode(env.decode(after[k].bytes).value)))
  {
    var f := after[k];
    var w := Write(e, f.path, env.encode(env.decode(f.bytes).value));
    assert f in after && after[..k + 1] == after[..k] + [f];
    assert forall p :: p != f.path ==> Content(w, p) == Content(e, p);
    DistinctBefore(after, k);
    forall p | Content(w, p) != Content(d, p)
      ensures exists g :: g in after[..k + 1] && g.path == p && Changed(env, d.files, g)
    {
      if p == f.path { assert f in after[..k + 1]; }
      else {
        var g :| g in after[..k] && g.path == p && Changed(env, d.files, g);
        assert g in after[..k + 1];
      }
    }
  }

  /** What the disk holds once the files of `done` that are gone from the second state are deleted. */
  ghost predicate DeletedSoFar(w: Disk, done: seq<File>, goal: map<Path, Bytes>, e: Disk) {
    Tree(e) && forall p :: Content(e, p) == if Listed(done, p) && p !in goal then None else Content(w, p)
  }

  lemma {:induction false} DeletesExecute(env: Env, w: Disk, before: seq<File>, goal: map<Path, Bytes>, k: nat)
    requires Tree(w) && Distinct(before) && Visible(env, before) && k <= |before|
    requires forall f :: f in before && f.path !in goal ==> Content(w, f.path) == Some(f.bytes)
    ensures var e := Execute(env, w, Deletes(env, before[..k], goal));
      e.Some? && DeletedSoFar(w, before[..k], goal, e.value)
  {
    if k > 0 {
      var f := before[k - 1];
      assert before[..k][..k - 1] == before[..k - 1] && before[..k] == before[..k - 1] + [f];
      DeletesExecute(env, w, before, goal, k - 1);
      var earlier := Deletes(env, before[..k - 1], goal);
      var e := Execute(env, w, earlier).value;
      DeletedOneMore(w, before, goal, k - 1, e);
      if f.path !in goal {
        assert f in before;
        StillThere(w, before, goal, k - 1, e);
        ExecuteAppend(env, w, earlier, [DeleteFor(env, f)]);
        DeleteValidates(env, e, f);
      } else {
        assert earlier + [] == earlier;
      }
    }
  }

  lemma StillThere(w: Disk, before: seq<File>, goal: map<Path, Bytes>, k: nat, e: Disk)
    requires Distinct(before) && k < |before| && DeletedSoFar(w, before[..k], goal, e)
    ensures Content(e, before[k].path) == Content(w, before[k].path)
  {
    DistinctBefore(before, k);
  }

  lemma DeletedOneMore(w: Disk, before: seq<File>, goal: map<Path, Bytes>, k: nat, e: Disk)
    requires k < |before| && DeletedSoFar(w, before[..k], goal, e)
    ensures DeletedSoFar(w, before[..k + 1], goal, if before[k].path in goal then e else Remove(e, before[k].path))
  {
    ListedOneMore(before, k);
    RemoveKeepsTree(e, before[k].path);
  }

  lemma DeleteValidates(env: Env, e: Disk, f: File)
    requires Tree(e) && !env.sensitive(f.path) && Content(e, f.path) == Some(f.bytes)
    ensures Execute(env, e, [DeleteFor(env, f)]) == Some(Remove(e, f.path)) && Tree(Remove(e, f.path))
  {
    TreeDoesNotBlock(e, f.path);
    RemoveKeepsTree(e, f.path);
  }

  lemma ListedOneMore(files: seq<File>, k: nat)
    requires k < |files|
    ensures forall p :: Listed(files[..k + 1], p) <==> Listed(files[..k], p) || p == files[k].path
  {
    assert files[..k + 1] == files[..k] + [files[k]];
    forall p
      ensures Listed(files[..k + 1], p) <==> Listed(files[..k], p) || p == files[k].path
    {
      if Listed(files[..k], p) {
        var f :| f in files[..k] && f.path == p;
        assert f in files[..k + 1];
      }
      if p == files[k].path { assert files[k] in files[..k + 1]; }
    }
  }

  /** What a file of the second state comes out as. */
  function Result(env: Env, before: map<Path, Bytes>, f: File): Bytes {
    if Changed(env, before, f) && env.decode(f.bytes).Some? then env.encode(env.decode(f.bytes).value) else f.bytes
  }

  lemma OnePerPath(files: seq<File>, f: File, g: File)
    requires Distinct(files) && f in files && g in files && f.path == g.path
    ensures f == g
  {
    var i :| 0 <= i < |files| && files[i] == f;
    var j :| 0 <= j < |files| && files[j] == g;
    assert i == j;
  }

  /** Once everything is written, a file of the second state holds what it comes out as. */
  lemma WrittenOutcome(env: Env, d: Disk, after: seq<File>, w: Disk, f: File)
    requires Collisionless(env) && Distinct(after) && WrittenSoFar(env, d, after, after, w)
    requires f in after && (Changed(env, d.files, f) ==> env.decode(f.bytes).Some?)
    ensures Content(w, f.path) == Some(Result(env, d.files, f))
  {
    if !Changed(env, d.files, f) {
      forall g | g in after && g.path == f.path
        ensures g == f
      {
        OnePerPath(after, f, g);
      }
      assert Content(w, f.path) == Content(d, f.path);
    }
  }

  /** Once everything is written, what is to be deleted still holds its old content. */
  lemma WrittenLeavesOthers(env: Env, d: Disk, before: seq<File>, after: seq<File>, w: Disk)
    requires Setting(env, d, before, after) && WrittenSoFar(env, d, after, after, w)
    ensures forall f :: f in before && f.path !in AsMap(after) ==> Content(w, f.path) == Some(f.bytes)
    ensures forall p :: p !in AsMap(after) && p !in d.files ==> Content(w, p) == None
  {
    AsMapMembers(before);
    AsMapMembers(after);
    forall p | p !in AsMap(after)
      ensures Content(w, p) == Content(d, p)
    {
      assert forall f :: f in after ==> f.path != p;
    }
  }

  ghost predicate ComesOut(env: Env, before: map<Path, Bytes>, after: seq<File>, e: Disk) {
    (forall p :: p !in AsMap(after) ==> Content(e, p) == None) &&
    (forall f :: f in after ==> Content(e, f.path) == Some(Result(env, before, f)))
  }

  lemma DeletedComesOut(env: Env, d: Disk, before: seq<File>, after: seq<File>, w: Disk, e: Disk)
    requires Setting(env, d, before, after) && WrittenSoFar(env, d, after, after, w)
    requires Writes(env, d.files, after).Some? && DeletedSoFar(w, before, AsMap(after), e)
    ensures ComesOut(env, d.files, after, e)
  {
    AsMapMembers(before);
    AsMapMembers(after);
    WrittenLeavesOthers(env, d, before, after, w);
    WritesMembers(env, d.files, after);
    forall p | p !in AsMap(after)
      ensures Content(e, p) == None
    {
      if p in d.files { assert File(p, d.files[p]) in before; }
    }
    forall f | f in after
      ensures Content(e, f.path) == Some(Result(env, d.files, f))
    {
      WrittenOutcome(env, d, after, w, f);
    }
  }

  /** Without a clash the whole difference goes through, and the outcome is known file by file. */
  lemma PatchGoesThrough(env: Env, d: Disk, before: seq<File>, after: seq<File>)
    requires Setting(env, d, before, after) && NoClash(d, after) && Build(env, before, after).Some?
    ensures var changes := Build(env, before, after).value;
      PlanFor(env, d, changes, true) == Planned(changes, []) &&
      Execute(env, d, changes).Some? && ComesOut(env, d.files, after, Execute(env, d, changes).value)
  {
    var changes := Build(env, before, after).value;
    forall c | c in changes
      ensures Accepts(env, d, c)
    {
      AllAccepted(env, d, before, after, c);
    }
    PlanAcceptsAll(env, d, changes);
    ExecutesInTwo(env, d, before, after);
  }

  lemma ExecutesInTwo(env: Env, d: Disk, before: seq<File>, after: seq<File>)
    requires Setting(env, d, before, after) && NoClash(d, after) && Build(env, before, after).Some?
    ensures var e := Execute(env, d, Build(env, before, after).value);
      e.Some? && ComesOut(env, d.files, after, e.value)
  {
    assert after[..|after|] == after && before[..|before|] == before;
    WritesExecute(env, d, before, after, |after|);
    var writes, deletes := Writes(env, d.files, after).value, Deletes(env, before, AsMap(after));
    var w := Execute(env, d, writes).value;
    WrittenLeavesOthers(env, d, before, after, w);
    DeletesExecute(env, w, before, AsMap(after), |before|);
    ExecuteAppend(env, d, writes, deletes);
    DeletedComesOut(env, d, before, after, w, Execute(env, w, deletes).value);
  }

  lemma OutcomeIsGoal(env: Env, before: map<Path, Bytes>, after: seq<File>, e: Disk)
    requires Distinct(after) && ComesOut(env, before, after, e)
    requires forall f :: f in after && Changed(env, before, f) ==> env.decode(f.bytes).Some?
    ensures e.files == AsMap(after) <==> Faithful(env, before, after)
  {
    var goal := AsMap(after);
    AsMapMembers(after);
    if Faithful(env, before, after) {
      forall p
        ensures p in e.files <==> p in goal
        ensures p in goal ==> e.files[p] == goal[p]
      {
        if p in goal { assert File(p, goal[p]) in after; }
        else { assert Content(e, p) == None; }
      }
    }
    if e.files == goal {
      forall f | f in after && Changed(env, before, f)
        ensures env.encode(env.decode(f.bytes).value) == f.bytes
      {
        assert Content(e, f.path) == Some(goal[f.path]);
      }
    }
  }

  lemma ClashIsRefused(env: Env, d: Disk, before: seq<File>, after: seq<File>)
    requires Setting(env, d, before, after) && !NoClash(d, after) && Build(env, before, after).Some?
    ensures var plan := PlanFor(env, d, Build(env, before, after).value, true); plan.Failed? || plan.conflicts != []
  {
    var f :| f in after && f.path !in d.files && !(f.path !in d.dirs && !Blocked(d, f.path));
    NewFileIsCreated(env, d, before, after, f);
    CreationIsRefused(env, d, f.path, env.decode(f.bytes).value);
    PlanRefuses(env, d, Build(env, before, after).value, Create(f.path, env.decode(f.bytes).value));
  }

  lemma NewFileIsCreated(env: Env, d: Disk, before: seq<File>, after: seq<File>, f: File)
    requires Setting(env, d, before, after) && Build(env, before, after).Some? && f in after && f.path !in d.files
    ensures env.decode(f.bytes).Some? && Create(f.path, env.decode(f.bytes).value) in Build(env, before, after).value
  {
    WritesMembers(env, d.files, after);
    assert Changed(env, d.files, f);
  }

  lemma CreationIsRefused(env: Env, d: Disk, p: Path, text: string)
    requires p !in d.files && (p in d.dirs || Blocked(d, p))
    ensures Judge(env, d, Create(p, text), true).Refuse? || Judge(env, d, Create(p, text), true).Fail?
  {
  }

  /**
    Diff then patch: applying the difference of two snapshots to a workspace in the first state is
    accepted without conflict and gives exactly the second state, if and only if no new file clashes
    with the tree and every changed file survives decoding and encoding.
   */
  lemma DiffThenPatch(env: Env, d: Disk, before: seq<File>, after: seq<File>)
    requires Setting(env, d, before, after) && Build(env, before, after).Some?
    ensures var changes := Build(env, before, after).value;
      (PlanFor(env, d, changes, true) == Planned(changes, []) &&
       Execute(env, d, changes).Some? && Execute(env, d, changes).value.files == AsMap(after))
      <==> NoClash(d, after) && Faithful(env, d.files, after)
  {
    if NoClash(d, after) {
      PatchGoesThrough(env, d, before, after);
      WritesMembers(env, d.files, after);
      OutcomeIsGoal(env, d.files, after, Execute(env, d, Build(env, before, after).value).value);
    } else {
      ClashIsRefused(env, d, before, after);
    }
  }

  // ---------------------------------------------------------------- where it fails

  /** A file becomes a directory with a file in it: the new file is refused while the old one is still there. */
  lemma FileBecomesDirectory(env: Env, a: string, b: string, x: Bytes, y: Bytes)
    requires Collisionless(env) && !env.sensitive([a]) && !env.sensitive([a, b]) && env.decode(y).Some?
    ensures var d, before, after := Disk(map[[a] := x], {[]}), [File([a], x)], [File([a, b], y)];
      Setting(env, d, before, after) && Build(env, before, after).Some? && !NoClash(d, after)
  {
    var d, before, after := Disk(map[[a] := x], {[]}), [File([a], x)], [File([a, b], y)];
    LoneFile(env, d, before[0]);
    LoneFileIsAsMap(before[0]);
    assert [a, b][..1] == [a] && [a] in Above([a, b]);
    assert [a] in d.files && Blocked(d, [a, b]);
    LoneWrite(env, d.files, before, after[0]);
    NotAboveItself([a, b]);
    assert after[0] in after;
  }

  /** A text that decoding and encoding does not give back, such as one with a leading byte-order mark, comes out
      changed. */
  lemma TextComesOutChanged(env: Env, a: string, y: Bytes)
    requires Collisionless(env) && !env.sensitive([a]) && env.decode(y).Some? && env.encode(env.decode(y).value) != y
    ensures var d, after := Disk(map[], {[]}), [File([a], y)];
      Setting(env, d, [], after) && Build(env, [], after).Some? && NoClash(d, after) && !Faithful(env, d.files, after)
  {
    var d, after := Disk(map[], {[]}), [File([a], y)];
    assert [a][..0] == [];
    assert forall q :: q in Above([a]) ==> q == [];
    LoneWrite(env, d.files, [], after[0]);
    NotAboveItself([a]);
    assert after[0] in after && Changed(env, d.files, after[0]);
  }

  lemma LoneFile(env: Env, d: Disk, f: File)
    requires d == Disk(map[f.path := f.bytes], {[]}) && |f.path| == 1
    ensures Tree(d)
  {
    assert forall q :: q in Above(f.path) ==> q == [];
    assert forall q :: q in Above([]) ==> false;
  }

  lemma LoneFileIsAsMap(f: File)
    ensures AsMap([f]) == map[f.path := f.bytes]
  {
    AsMapMembers([f]);
    assert f in [f];
  }

  /** A single new file that is text gives a change set. */
  lemma LoneWrite(env: Env, disk: map<Path, Bytes>, before: seq<File>, f: File)
    requires disk == AsMap(before) && f.path !in disk && env.decode(f.bytes).Some?
    ensures Build(env, before, [f]).Some?
  {
    assert [f][..0] == [] && [f][..|[f]| - 1] == [];
    assert Writes(env, disk, []) == Some([]);
    assert WriteFor(env, disk, f).Some?;
  }

  // ---------------------------------------------------------------- through both programs

  /**
    The whole way: build the change set, apply it to a workspace in the first state. It is applied if and only if no
    new file clashes with the tree, and then gives the second state if and only if every changed file is faithful.
   */
  method PatchWorkspace(workspace: LocalWorkspace, before: seq<File>, after: seq<File>) returns (r: Option<Outcome>)
    requires workspace.Valid() && Setting(workspace.env, workspace.disk, before, after)
    requires workspace.Alone() && workspace.WritesSucceed()
    modifies workspace
    ensures workspace.Valid()
    ensures r.None? <==> Build(workspace.env, before, after).None?
    ensures r.None? ==> workspace.disk == old(workspace.disk)
    ensures r.Some? ==> (r.value.Applied? <==> NoClash(old(workspace.disk), after))
    ensures r.Some? && !r.value.Applied? ==> workspace.disk == old(workspace.disk)
    ensures r.Some? && r.value.Applied? ==>
      (workspace.disk.files == AsMap(after) <==> Faithful(workspace.env, old(workspace.disk).files, after))
  {
    var changes := BuildChangeSet(workspace.env, before, after);
    if changes.None? { return None; }
    ghost var d := workspace.disk;
    DiffThenPatch(workspace.env, d, before, after);
    if NoClash(d, after) {
      PatchGoesThrough(workspace.env, d, before, after);
    } else {
      ClashIsRefused(workspace.env, d, before, after);
    }
    var outcome := workspace.ApplyChangeSet(changes.value, Permissions(Allow, Allow));
    r := Some(outcome);
  }
}
