/**
  What a change set asks for and how the workspace decides on it: merging a change onto what is
  on disk now, validating it, and the effect of carrying it out.
 */
module ChangeSet {

  import opened Options
  import opened Disk
  import Merge

  /** The functions of the platform the workspace relies on. */
  datatype Env = Env(
    hash: Bytes -> string,
    encode: string -> Bytes,
    decode: Bytes -> Option<string>,
    readText: Bytes -> string,
    sensitive: Path -> bool)

  /** Different bytes have different hashes. */
  ghost predicate Collisionless(env: Env) {
    forall x, y :: env.hash(x) == env.hash(y) ==> x == y
  }

  datatype Change =
    | Create(path: Path, content: string)
    | Update(path: Path, content: string, expectedHash: string, baseContent: Option<string>)
    | Delete(path: Path, expectedHash: string, baseContent: Option<string>)
    | Move(fromPath: Path, toPath: Path, expectedHash: string)

  datatype ConflictKind = TargetExists | TargetMissing | HashChanged | DestinationExists | OverlappingEdits
  datatype Conflict = Conflict(path: Path, kind: ConflictKind)
  datatype Error =
    | WriteDenied
    | WriteUnconfirmed
    | DeleteUnconfirmed
    | PathDenied(path: Path)
    | NotAFile(path: Path)
    | ConflictDuringApply(conflict: Conflict)
    | OperationFailed(path: Path)

  datatype Check = Fine | Clash(conflict: Conflict) | Broken(error: Error)

  predicate Denied(env: Env, d: Disk, p: Path) {
    env.sensitive(p) || Blocked(d, p)
  }

  predicate ResolvesExisting(env: Env, d: Disk, p: Path) {
    !Denied(env, d, p) && Exists(d, p)
  }

  function Subject(change: Change): Path {
    if change.Move? then change.fromPath else change.path
  }

  /** `validateChange`. */
  function Validate(env: Env, d: Disk, change: Change): Check {
    var path := Subject(change);
    if change.Create? then
      if Denied(env, d, path) then Broken(PathDenied(path))
      else if Exists(d, path) then Clash(Conflict(path, TargetExists))
      else Fine
    else if !ResolvesExisting(env, d, path) then Clash(Conflict(path, TargetMissing))
    else if path !in d.files then Broken(NotAFile(path))
    else if env.hash(d.files[path]) != change.expectedHash then Clash(Conflict(path, HashChanged))
    else if change.Move? then
      if Denied(env, d, change.toPath) then Broken(PathDenied(change.toPath))
      else if Exists(d, change.toPath) then Clash(Conflict(change.toPath, DestinationExists))
      else Fine
    else Fine
  }

  /** The verdict on one change of the set: carried out as given, left out, refused, or an error for all. */
  datatype Verdict = Accept(change: Change) | Skip | Refuse(conflict: Conflict) | Fail(error: Error)

  predicate NeedsMerge(env: Env, d: Disk, change: Change) {
    change.Update? && change.baseContent.Some? && ResolvesExisting(env, d, change.path) &&
    (change.path in d.files ==> env.hash(d.files[change.path]) != change.expectedHash)
  }

  /** `mergeChange`: an update whose file has moved on is merged with what is there now. */
  ghost function MergeChange(env: Env, d: Disk, change: Change): Verdict {
    if !NeedsMerge(env, d, change) then Accept(change)
    else if change.path !in d.files then Fail(NotAFile(change.path))
    else
      var current := env.readText(d.files[change.path]);
      var merged := Merge.MergeText(change.baseContent.value, current, change.content);
      if merged.Refused? then Refuse(Conflict(change.path, OverlappingEdits))
      else if merged.content == current then Skip
      else Accept(change.(content := merged.content, expectedHash := env.hash(d.files[change.path])))
  }

  ghost function Judge(env: Env, d: Disk, change: Change, mayDelete: bool): Verdict {
    if (change.Delete? || change.Move?) && !mayDelete then Fail(DeleteUnconfirmed)
    else
      var merged := MergeChange(env, d, change);
      if !merged.Accept? then merged
      else
        match Validate(env, d, merged.change)
        case Fine => merged
        case Clash(conflict) => Refuse(conflict)
        case Broken(error) => Fail(error)
  }

  datatype Plan = Planned(accepted: seq<Change>, conflicts: seq<Conflict>) | Failed(error: Error)

  /** All changes judged in order against the same disk. */
  ghost function PlanFor(env: Env, d: Disk, changes: seq<Change>, mayDelete: bool): Plan {
    if changes == [] then Planned([], [])
    else
      var n := |changes| - 1;
      var plan := PlanFor(env, d, changes[..n], mayDelete);
      if plan.Failed? then plan else Extended(plan, Judge(env, d, changes[n], mayDelete))
  }

  /** The plan one change further on. */
  function Extended(plan: Plan, verdict: Verdict): Plan
    requires plan.Planned?
  {
    match verdict
    case Accept(change) => Planned(plan.accepted + [change], plan.conflicts)
    case Skip => plan
    case Refuse(conflict) => Planned(plan.accepted, plan.conflicts + [conflict])
    case Fail(error) => Failed(error)
  }

  /** What a change does when it goes through. */
  function Effect(env: Env, d: Disk, change: Change): Disk {
    match change
    case Create(path, content) => Write(d, path, env.encode(content))
    case Update(path, content, _, _) => Write(d, path, env.encode(content))
    case Delete(path, _, _) => Remove(d, path)
    case Move(fromPath, toPath, _) =>
      if fromPath in d.files then Write(Remove(d, fromPath), toPath, d.files[fromPath]) else d
  }

  /** Each change re-validated and carried out in turn, or `None` when one no longer validates. */
  ghost function Execute(env: Env, d: Disk, changes: seq<Change>): Option<Disk>
    decreases changes
  {
    if changes == [] then Some(d)
    else if Validate(env, d, changes[0]).Fine? then Execute(env, Effect(env, d, changes[0]), changes[1..])
    else None
  }

  function Paths(change: Change): seq<Path> {
    if change.Move? then [change.fromPath, change.toPath] else [change.path]
  }

  /** `changePaths`: every path once, in order of first mention. */
  function ChangePaths(changes: seq<Change>): (paths: seq<Path>)
    ensures forall p :: p in paths <==> exists c :: c in changes && p in Paths(c)
    ensures forall i, j :: 0 <= i < j < |paths| ==> paths[i] != paths[j]
  {
    if changes == [] then []
    else
      var n := |changes| - 1;
      assert changes == changes[..n] + [changes[n]];
      AddNew(ChangePaths(changes[..n]), Paths(changes[n]))
  }

  function AddNew(paths: seq<Path>, more: seq<Path>): (r: seq<Path>)
    requires forall i, j :: 0 <= i < j < |paths| ==> paths[i] != paths[j]
    ensures forall p :: p in r <==> p in paths || p in more
    ensures forall i, j :: 0 <= i < j < |r| ==> r[i] != r[j]
    decreases more
  {
    if more == [] then paths
    else AddNew(if more[0] in paths then paths else paths + [more[0]], more[1..])
  }

  lemma PlanStep(env: Env, d: Disk, changes: seq<Change>, k: nat, mayDelete: bool)
    requires k < |changes| && PlanFor(env, d, changes[..k], mayDelete).Planned?
    ensures PlanFor(env, d, changes[..k + 1], mayDelete) ==
            Extended(PlanFor(env, d, changes[..k], mayDelete), Judge(env, d, changes[k], mayDelete))
  {
    assert changes[..k + 1][..k] == changes[..k];
  }

  lemma {:induction false} PlanFailsForGood(env: Env, d: Disk, changes: seq<Change>, k: nat, mayDelete: bool)
    requires k <= |changes| && PlanFor(env, d, changes[..k], mayDelete).Failed?
    ensures PlanFor(env, d, changes, mayDelete) == PlanFor(env, d, changes[..k], mayDelete)
    decreases |changes|
  {
    if k == |changes| {
      assert changes[..k] == changes;
    } else {
      var n := |changes| - 1;
      assert changes[..n][..k] == changes[..k];
      PlanFailsForGood(env, d, changes[..n], k, mayDelete);
    }
  }

  /** Every accepted change validates against the disk it was judged on. */
  lemma {:induction false} AcceptedValidate(env: Env, d: Disk, changes: seq<Change>, mayDelete: bool)
    requires PlanFor(env, d, changes, mayDelete).Planned?
    ensures forall c :: c in PlanFor(env, d, changes, mayDelete).accepted ==> Validate(env, d, c).Fine?
  {
    if changes != [] {
      AcceptedValidate(env, d, changes[..|changes| - 1], mayDelete);
    }
  }

  /** The change meets exactly what its author saw: nothing at the path of a creation, else the expected content. */
  ghost predicate Expected(env: Env, d: Disk, change: Change) {
    if change.Create? then !Exists(d, change.path)
    else
      Subject(change) in d.files && env.hash(d.files[Subject(change)]) == change.expectedHash &&
      (change.Move? ==> !Exists(d, change.toPath))
  }

  /** What is on disk is not what the author of the update saw, and `content` is the merge of both. */
  ghost predicate MergesTo(env: Env, d: Disk, change: Change, content: string) {
    change.Update? && change.baseContent.Some? && change.path in d.files &&
    env.hash(d.files[change.path]) != change.expectedHash &&
    exists merged :: Merge.MergeText(change.baseContent.value, env.readText(d.files[change.path]), change.content) ==
      Merge.Merged(content, merged)
  }

  /** `kept` is what became of `change`: itself, or its merge with an edit its author had not seen. */
  ghost predicate Keeps(env: Env, d: Disk, change: Change, kept: Change) {
    kept == change ||
    (kept.Update? && MergesTo(env, d, change, kept.content) &&
     kept == change.(content := kept.content, expectedHash := env.hash(d.files[change.path])))
  }

  lemma JudgedFairly(env: Env, d: Disk, change: Change, mayDelete: bool)
    ensures Judge(env, d, change, mayDelete).Accept? ==>
      Keeps(env, d, change, Judge(env, d, change, mayDelete).change) &&
      Expected(env, d, Judge(env, d, change, mayDelete).change)
    ensures Judge(env, d, change, mayDelete).Skip? ==>
      change.Update? && change.path in d.files && MergesTo(env, d, change, env.readText(d.files[change.path]))
  {
  }

  /**
    No edit is overwritten unseen and no change gets lost: an accepted change meets what it expects, as it stands
    or merged with what is on disk, and every change is accepted so, is in what is on disk already, or conflicts.
   */
  lemma {:induction false} AcceptedAreInformed(env: Env, d: Disk, changes: seq<Change>, mayDelete: bool)
    requires PlanFor(env, d, changes, mayDelete).Planned?
    ensures var plan := PlanFor(env, d, changes, mayDelete);
      (forall kept :: kept in plan.accepted ==>
       Expected(env, d, kept) && exists change :: change in changes && Keeps(env, d, change, kept)) &&
      (plan.conflicts == [] ==> forall change :: change in changes ==>
        (exists kept :: kept in plan.accepted && Keeps(env, d, change, kept)) ||
        (change.Update? && change.path in d.files && MergesTo(env, d, change, env.readText(d.files[change.path]))))
  {
    if changes != [] {
      var n := |changes| - 1;
      AcceptedAreInformed(env, d, changes[..n], mayDelete);
      JudgedFairly(env, d, changes[n], mayDelete);
      assert changes == changes[..n] + [changes[n]];
      var before, plan, verdict := PlanFor(env, d, changes[..n], mayDelete), PlanFor(env, d, changes, mayDelete),
        Judge(env, d, changes[n], mayDelete);
      forall kept | kept in plan.accepted
        ensures Expected(env, d, kept) && exists change :: change in changes && Keeps(env, d, change, kept)
      {
        if kept in before.accepted {
          var change :| change in changes[..n] && Keeps(env, d, change, kept);
          assert change in changes;
        } else {
          assert kept == verdict.change && changes[n] in changes;
        }
      }
      if plan.conflicts == [] {
        forall change | change in changes &&
          !(change.Update? && change.path in d.files && MergesTo(env, d, change, env.readText(d.files[change.path])))
          ensures exists kept :: kept in plan.accepted && Keeps(env, d, change, kept)
        {
          if change in changes[..n] {
            var kept :| kept in before.accepted && Keeps(env, d, change, kept);
            assert kept in plan.accepted;
          } else {
            assert verdict.change in plan.accepted;
          }
        }
      }
    }
  }

  lemma {:induction false} ExecuteAppend(env: Env, d: Disk, xs: seq<Change>, ys: seq<Change>)
    ensures Execute(env, d, xs + ys) == if Execute(env, d, xs).Some? then Execute(env, Execute(env, d, xs).value, ys)
      else None
    decreases xs
  {
    if xs == [] {
      assert xs + ys == ys;
    } else {
      assert (xs + ys)[1..] == xs[1..] + ys;
      ExecuteAppend(env, Effect(env, d, xs[0]), xs[1..], ys);
    }
  }

  /** A carried change changes its own paths only, and each of them held its original content. */
  lemma CarriedReplacesOriginals(env: Env, start: Disk, before: Disk, change: Change, p: Path)
    requires Collisionless(env) && Validate(env, start, change).Fine? && Validate(env, before, change).Fine?
    ensures p in Paths(change) ==> Content(before, p) == Content(start, p)
    ensures p !in Paths(change) ==> Content(Effect(env, before, change), p) == Content(before, p)
  {
  }

  // ---------------------------------------------------------------- what the plan says of each change

  /** The plan from the verdicts: it fails if one fails, and otherwise lists what they accept and refuse. */
  lemma {:induction false} PlanTells(env: Env, d: Disk, changes: seq<Change>, mayDelete: bool)
    ensures var plan := PlanFor(env, d, changes, mayDelete);
      (plan.Failed? <==> exists c :: c in changes && Judge(env, d, c, mayDelete).Fail?) &&
      (plan.Planned? ==>
        (forall kept :: kept in plan.accepted <==>
         exists c :: c in changes && Judge(env, d, c, mayDelete) == Accept(kept)) &&
        (forall x :: x in plan.conflicts <==> exists c :: c in changes && Judge(env, d, c, mayDelete) == Refuse(x)))
  {
    if changes != [] {
      var n := |changes| - 1;
      var plan := PlanFor(env, d, changes, mayDelete);
      PlanTells(env, d, changes[..n], mayDelete);
      MembersAppend(changes);
      if plan.Planned? {
        var before := PlanFor(env, d, changes[..n], mayDelete);
        assert forall kept :: kept in plan.accepted <==>
          kept in before.accepted || Judge(env, d, changes[n], mayDelete) == Accept(kept);
        assert forall x :: x in plan.conflicts <==>
          x in before.conflicts || Judge(env, d, changes[n], mayDelete) == Refuse(x);
      }
    }
  }

  lemma MembersAppend(changes: seq<Change>)
    requires changes != []
    ensures forall c :: c in changes <==> c in changes[..|changes| - 1] || c == changes[|changes| - 1]
  {
    assert changes == changes[..|changes| - 1] + [changes[|changes| - 1]];
  }

  /** The first verdict that fails decides how the plan fails. */
  lemma {:induction false} FirstFailureCounts(env: Env, d: Disk, changes: seq<Change>, mayDelete: bool, k: nat)
    requires k < |changes| && Judge(env, d, changes[k], mayDelete).Fail?
    requires forall j :: 0 <= j < k ==> !Judge(env, d, changes[j], mayDelete).Fail?
    ensures PlanFor(env, d, changes, mayDelete) == Failed(Judge(env, d, changes[k], mayDelete).error)
    decreases |changes|
  {
    var n := |changes| - 1;
    if k < n {
      FirstFailureCounts(env, d, changes[..n], mayDelete, k);
    } else {
      PlanTells(env, d, changes[..n], mayDelete);
    }
  }

  ghost predicate DistinctSubjects(changes: seq<Change>) {
    forall i, j :: 0 <= i < j < |changes| ==> Subject(changes[i]) != Subject(changes[j])
  }

  /** Changes of different paths stay changes of different paths. */
  lemma {:induction false} AcceptedAreDistinct(env: Env, d: Disk, changes: seq<Change>, mayDelete: bool)
    requires DistinctSubjects(changes) && PlanFor(env, d, changes, mayDelete).Planned?
    ensures DistinctSubjects(PlanFor(env, d, changes, mayDelete).accepted)
  {
    if changes != [] {
      var n := |changes| - 1;
      var before := PlanFor(env, d, changes[..n], mayDelete).accepted;
      AcceptedAreDistinct(env, d, changes[..n], mayDelete);
      PlanTells(env, d, changes[..n], mayDelete);
      forall kept | kept in before && Judge(env, d, changes[n], mayDelete).Accept?
        ensures Subject(kept) != Subject(Judge(env, d, changes[n], mayDelete).change)
      {
        var c :| c in changes[..n] && Judge(env, d, c, mayDelete) == Accept(kept);
        var i :| 0 <= i < n && changes[i] == c;
        JudgedFairly(env, d, c, mayDelete);
        JudgedFairly(env, d, changes[n], mayDelete);
      }
    }
  }

  /** Nothing bars the way to the paths of the change. */
  ghost predicate Reachable(env: Env, d: Disk, change: Change) {
    !env.sensitive(Subject(change)) && (change.Create? ==> !Blocked(d, change.path)) &&
    (change.Move? ==> !env.sensitive(change.toPath) && !Blocked(d, change.toPath))
  }

  /** A change is accepted as it stands if and only if the disk is what its author saw, and it is allowed. */
  lemma AcceptedAsItStandsIff(env: Env, d: Disk, change: Change, mayDelete: bool)
    requires Tree(d) && Collisionless(env)
    ensures Judge(env, d, change, mayDelete) == Accept(change) <==>
      Expected(env, d, change) && Reachable(env, d, change) && (TakesAway(change) ==> mayDelete)
  {
    if Subject(change) in d.files { TreeDoesNotBlock(d, Subject(change)); }
    if Judge(env, d, change, mayDelete) == Accept(change) { JudgedFairly(env, d, change, mayDelete); }
  }

  /** What becomes of an allowed move: the first thing in its way, looked for at its source and then its target. */
  lemma MoveIsJudged(env: Env, d: Disk, change: Change)
    requires Tree(d) && change.Move?
    ensures Judge(env, d, change, true) ==
      var source, target := change.fromPath, change.toPath;
      if env.sensitive(source) || !(source in d.files || source in d.dirs) then Refuse(Conflict(source, TargetMissing))
      else if source in d.dirs then Fail(NotAFile(source))
      else if env.hash(d.files[source]) != change.expectedHash then Refuse(Conflict(source, HashChanged))
      else if env.sensitive(target) || exists q :: q in Above(target) && q in d.files then Fail(PathDenied(target))
      else if target in d.files || target in d.dirs then Refuse(Conflict(target, DestinationExists))
      else Accept(change)
  {
    if Exists(d, change.fromPath) { TreeDoesNotBlock(d, change.fromPath); }
  }

  // ---------------------------------------------------------------- deletions

  /** The change makes a file disappear from its path. */
  predicate TakesAway(change: Change) {
    change.Delete? || change.Move?
  }

  /** Whatever it is, a deletion or move without the permission to delete is not confirmed. */
  lemma DeletionIsUnconfirmed(env: Env, d: Disk, change: Change)
    requires TakesAway(change)
    ensures Judge(env, d, change, false) == Fail(DeleteUnconfirmed)
  {
  }

  /** Without the permission to delete, no plan lets a deletion or a move through, and one of them fails it. */
  lemma {:induction false} NoDeleteWithoutPermission(env: Env, d: Disk, changes: seq<Change>)
    ensures var plan := PlanFor(env, d, changes, false);
      plan.Planned? ==> forall c :: c in changes || c in plan.accepted ==> !TakesAway(c)
  {
    if changes != [] {
      var n := |changes| - 1;
      NoDeleteWithoutPermission(env, d, changes[..n]);
      JudgedFairly(env, d, changes[n], false);
      assert changes == changes[..n] + [changes[n]];
    }
  }

  // ---------------------------------------------------------------- what a change leaves

  /** What `p` holds on `after`, once a change of it has gone through, in terms of the disk `start` before all. */
  ghost predicate Leaves(env: Env, start: Disk, after: Disk, change: Change, p: Path) {
    match change
    case Create(path, content) => p == path ==> Content(after, p) == Some(env.encode(content))
    case Update(path, content, _, _) => p == path ==> Content(after, p) == Some(env.encode(content))
    case Delete(path, _, _) => p == path ==> Content(after, p) == None
    case Move(fromPath, toPath, _) =>
      (p == fromPath ==> Content(after, p) == None) &&
      (p == toPath ==> fromPath in start.files && Content(after, p) == Some(start.files[fromPath]))
  }

  lemma EffectLeaves(env: Env, start: Disk, before: Disk, change: Change, p: Path)
    requires Collisionless(env) && Validate(env, start, change).Fine? && Validate(env, before, change).Fine?
    requires p in Paths(change)
    ensures Leaves(env, start, Effect(env, before, change), change, p)
    ensures Content(before, p) == Content(start, p) && !env.sensitive(p)
  {
    CarriedReplacesOriginals(env, start, before, change, Subject(change));
    CarriedReplacesOriginals(env, start, before, change, p);
  }

  /** After `i`, no change of the list mentions `p`. */
  ghost predicate LastMention(changes: seq<Change>, i: nat, p: Path) {
    i < |changes| && p in Paths(changes[i]) && forall j :: i < j < |changes| ==> p !in Paths(changes[j])
  }

  /** Each path holds what the last change that mentions it leaves there, and what it held if none does. */
  ghost predicate AllLeave(env: Env, start: Disk, after: Disk, changes: seq<Change>) {
    (forall i: nat, p :: LastMention(changes, i, p) ==> Leaves(env, start, after, changes[i], p)) &&
    forall p :: (forall c :: c in changes ==> p !in Paths(c)) ==> Content(after, p) == Content(start, p)
  }

  lemma {:induction false} ExecuteLeaves(env: Env, d: Disk, changes: seq<Change>)
    requires Collisionless(env) && forall c :: c in changes ==> Validate(env, d, c).Fine?
    requires Execute(env, d, changes).Some?
    ensures AllLeave(env, d, Execute(env, d, changes).value, changes)
  {
    if changes != [] {
      var first, c := changes[..|changes| - 1], changes[|changes| - 1];
      assert changes == first + [c];
      ExecuteAppend(env, d, first, [c]);
      ExecuteLeaves(env, d, first);
      var e := Execute(env, d, first).value;
      assert Execute(env, e, [c]) == if Validate(env, e, c).Fine? then Some(Effect(env, e, c)) else None;
      OneMoreLeaves(env, d, e, first, c);
    }
  }

  lemma OneMoreLeaves(env: Env, start: Disk, e: Disk, first: seq<Change>, c: Change)
    requires Collisionless(env) && AllLeave(env, start, e, first)
    requires Validate(env, start, c).Fine? && Validate(env, e, c).Fine?
    ensures AllLeave(env, start, Effect(env, e, c), first + [c])
  {
    var changes, after := first + [c], Effect(env, e, c);
    forall i: nat, p | LastMention(changes, i, p)
      ensures Leaves(env, start, after, changes[i], p)
    {
      if i == |first| {
        EffectLeaves(env, start, e, c, p);
      } else {
        assert changes[|first|] == c && p !in Paths(c);
        CarriedReplacesOriginals(env, start, e, c, p);
        assert forall j :: 0 <= j < |first| ==> changes[j] == first[j];
        assert LastMention(first, i, p);
      }
    }
    forall p | forall x :: x in changes ==> p !in Paths(x)
      ensures Content(after, p) == Content(start, p)
    {
      assert c in changes && forall x :: x in first ==> x in changes;
      CarriedReplacesOriginals(env, start, e, c, p);
    }
  }

  lemma EffectKeepsTree(env: Env, d: Disk, change: Change)
    requires Tree(d) && Validate(env, d, change).Fine?
    ensures Tree(Effect(env, d, change))
  {
    match change
    case Create(path, content) => WriteKeepsTree(d, path, env.encode(content));
    case Update(path, content, _, _) => WriteKeepsTree(d, path, env.encode(content));
    case Delete(path, _, _) => RemoveKeepsTree(d, path);
    case Move(fromPath, toPath, _) =>
      RemoveKeepsTree(d, fromPath);
      WriteKeepsTree(Remove(d, fromPath), toPath, d.files[fromPath]);
  }
}
