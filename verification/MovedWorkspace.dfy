/**
  Applying the difference of two snapshots to a workspace that has moved on since the first: path by path, what one of
  the two sides has not touched takes the other's version, and what both have edited is merged.
 */
module MovedWorkspace {

  import opened Options
  import opened Disk
  import opened ChangeSet
  import opened LocalWorkspaces
  import opened RoundTrip
  import Merge

  /** The old snapshot, the new snapshot, and the workspace. */
  datatype Sides = Sides(env: Env, was: map<Path, Bytes>, goal: map<Path, Bytes>, disk: Disk)

  ghost predicate Plain(s: Sides) {
    Tree(s.disk) && Collisionless(s.env) && forall p :: p in s.was || p in s.goal ==> !s.env.sensitive(p)
  }

  /** The session and others have both edited the file, and its old version is text. */
  ghost predicate BothEdited(s: Sides, p: Path) {
    Edited(s.was, s.goal, p) && p in s.disk.files && s.disk.files[p] != s.was[p] &&
    s.env.decode(s.was[p]).Some? && s.env.decode(s.goal[p]).Some?
  }

  /** The merge of the text on disk and the session's, from the old one. */
  ghost function Merging(s: Sides, p: Path): Merge.MergeResult
    requires BothEdited(s, p)
  {
    Merge.MergeText(s.env.decode(s.was[p]).value, s.env.readText(s.disk.files[p]), s.env.decode(s.goal[p]).value)
  }

  /** Why the path stands in the way of the whole, if it does. */
  ghost function ConflictAt(s: Sides, p: Path): Option<ConflictKind> {
    if Added(s.was, s.goal, p) then if Exists(s.disk, p) then Some(TargetExists) else None
    else if !Edited(s.was, s.goal, p) && !Dropped(s.was, s.goal, p) then None
    else if !Exists(s.disk, p) then Some(TargetMissing)
    else if p !in s.disk.files || s.disk.files[p] == s.was[p] then None
    else if BothEdited(s, p) then if Merging(s, p).Refused? then Some(OverlappingEdits) else None
    else Some(HashChanged)
  }

  /** The path cannot be looked up, or is a directory by now. */
  ghost predicate FailsAt(s: Sides, p: Path) {
    (Added(s.was, s.goal, p) && Blocked(s.disk, p)) ||
    ((Edited(s.was, s.goal, p) || Dropped(s.was, s.goal, p)) && p in s.disk.dirs)
  }

  /** What the path holds in the end. */
  ghost function ResultAt(s: Sides, p: Path): Option<Bytes> {
    if Dropped(s.was, s.goal, p) then None
    else if BothEdited(s, p) && Merging(s, p).Merged? then
      if Merging(s, p).content == s.env.readText(s.disk.files[p]) then Some(s.disk.files[p])
      else Some(s.env.encode(Merging(s, p).content))
    else if (Added(s.was, s.goal, p) || Edited(s.was, s.goal, p)) && s.env.decode(s.goal[p]).Some? then
      Some(s.env.encode(s.env.decode(s.goal[p]).value))
    else Content(s.disk, p)
  }

  // ---------------------------------------------------------------- one change

  /** The verdict on the change of a path is the one its three versions call for. */
  ghost predicate VerdictFits(s: Sides, p: Path, verdict: Verdict) {
    match verdict
    case Fail(_) => FailsAt(s, p)
    case Refuse(conflict) => !FailsAt(s, p) && conflict.path == p && ConflictAt(s, p) == Some(conflict.kind)
    case Skip => !FailsAt(s, p) && ConflictAt(s, p) == None && ResultAt(s, p) == Content(s.disk, p)
    case Accept(kept) =>
      !FailsAt(s, p) && ConflictAt(s, p) == None && !kept.Move? && kept.path == p && (kept.Delete? <==> p !in s.goal) &&
      ResultAt(s, p) == if kept.Delete? then None else Some(s.env.encode(kept.content))
  }

  lemma WantedIsJudged(s: Sides, c: Change)
    requires Plain(s) && Wanted(s.env, s.was, s.goal, c)
    ensures VerdictFits(s, Subject(c), Judge(s.env, s.disk, c, true))
  {
    match c
    case Create(p, _) => CreateIsJudged(s, c);
    case Update(p, _, _, _) => UpdateIsJudged(s, c);
    case Delete(p, _, _) => DeleteIsJudged(s, c);
  }

  lemma CreateIsJudged(s: Sides, c: Change)
    requires Plain(s) && Wanted(s.env, s.was, s.goal, c) && c.Create?
    ensures VerdictFits(s, c.path, Judge(s.env, s.disk, c, true))
  {
    assert !BothEdited(s, c.path) && !Dropped(s.was, s.goal, c.path);
  }

  lemma DeleteIsJudged(s: Sides, c: Change)
    requires Plain(s) && Wanted(s.env, s.was, s.goal, c) && c.Delete?
    ensures VerdictFits(s, c.path, Judge(s.env, s.disk, c, true))
  {
    if Exists(s.disk, c.path) { TreeDoesNotBlock(s.disk, c.path); }
    assert !BothEdited(s, c.path) && !Added(s.was, s.goal, c.path);
  }

  lemma UpdateIsJudged(s: Sides, c: Change)
    requires Plain(s) && Wanted(s.env, s.was, s.goal, c) && c.Update?
    ensures VerdictFits(s, c.path, Judge(s.env, s.disk, c, true))
  {
    var p := c.path;
    assert !Added(s.was, s.goal, p) && !Dropped(s.was, s.goal, p);
    if Exists(s.disk, p) { TreeDoesNotBlock(s.disk, p); }
    if NeedsMerge(s.env, s.disk, c) && p in s.disk.files {
      assert BothEdited(s, p);
      assert MergeChange(s.env, s.disk, c) == match Merging(s, p)
        case Refused(_) => Refuse(Conflict(p, OverlappingEdits))
        case Merged(content, _) =>
          if content == s.env.readText(s.disk.files[p]) then Skip
          else Accept(c.(content := content, expectedHash := s.env.hash(s.disk.files[p])));
    } else {
      assert MergeChange(s.env, s.disk, c) == Accept(c) || p !in s.disk.files;
    }
  }

  // ---------------------------------------------------------------- the whole plan

  ghost predicate Differs(s: Sides, p: Path) {
    Added(s.was, s.goal, p) || Edited(s.was, s.goal, p) || Dropped(s.was, s.goal, p)
  }

  /** The change that says how a path differs. */
  lemma WantedAt(s: Sides, p: Path) returns (c: Change)
    requires Differs(s, p) && !Untextual(s.env, s.was, s.goal, p)
    ensures Wanted(s.env, s.was, s.goal, c) && Subject(c) == p
  {
    if Dropped(s.was, s.goal, p) {
      c := Delete(p, s.env.hash(s.was[p]), s.env.decode(s.was[p]));
    } else if Added(s.was, s.goal, p) {
      c := Create(p, s.env.decode(s.goal[p]).value);
    } else {
      c := Update(p, s.env.decode(s.goal[p]).value, s.env.hash(s.was[p]), s.env.decode(s.was[p]));
    }
  }

  /** What the plan says of each path. */
  ghost predicate PlanFits(s: Sides, plan: Plan) {
    (plan.Failed? <==> exists p :: FailsAt(s, p)) &&
    (plan.Planned? ==>
      (forall x: Conflict :: x in plan.conflicts <==> ConflictAt(s, x.path) == Some(x.kind)) &&
      DistinctSubjects(plan.accepted) &&
      (forall c :: c in plan.accepted ==> VerdictFits(s, Subject(c), Accept(c)) && Differs(s, Subject(c))) &&
      (forall p :: ConflictAt(s, p) == None ==>
        (exists c :: c in plan.accepted && Subject(c) == p) || ResultAt(s, p) == Content(s.disk, p)))
  }

  lemma ChangesFit(s: Sides, changes: seq<Change>)
    requires Plain(s) && TellsDifference(s.env, s.was, s.goal, Some(changes))
    ensures PlanFits(s, PlanFor(s.env, s.disk, changes, true))
  {
    var plan := PlanFor(s.env, s.disk, changes, true);
    PlanTells(s.env, s.disk, changes, true);
    forall c | c in changes
      ensures VerdictFits(s, Subject(c), Judge(s.env, s.disk, c, true)) && Differs(s, Subject(c))
    {
      WantedIsJudged(s, c);
    }
    FailuresFit(s, changes);
    if plan.Planned? {
      AcceptedAreDistinct(s.env, s.disk, changes, true);
      forall x: Conflict
        ensures x in plan.conflicts <==> ConflictAt(s, x.path) == Some(x.kind)
      {
        ConflictsFit(s, changes, x);
      }
      forall p | ConflictAt(s, p) == None
        ensures (exists c :: c in plan.accepted && Subject(c) == p) || ResultAt(s, p) == Content(s.disk, p)
      {
        OthersFit(s, changes, p);
      }
      forall c | c in plan.accepted
        ensures VerdictFits(s, Subject(c), Accept(c)) && Differs(s, Subject(c))
      {
        var x :| x in changes && Judge(s.env, s.disk, x, true) == Accept(c);
      }
    }
  }

  lemma FailuresFit(s: Sides, changes: seq<Change>)
    requires Plain(s) && TellsDifference(s.env, s.was, s.goal, Some(changes))
    ensures PlanFor(s.env, s.disk, changes, true).Failed? <==> exists p :: FailsAt(s, p)
  {
    PlanTells(s.env, s.disk, changes, true);
    if PlanFor(s.env, s.disk, changes, true).Failed? {
      var c :| c in changes && Judge(s.env, s.disk, c, true).Fail?;
      WantedIsJudged(s, c);
      assert FailsAt(s, Subject(c));
    }
    forall p | FailsAt(s, p)
      ensures PlanFor(s.env, s.disk, changes, true).Failed?
    {
      assert !Untextual(s.env, s.was, s.goal, p);
      var c := WantedAt(s, p);
      WantedIsJudged(s, c);
      assert c in changes && Judge(s.env, s.disk, c, true).Fail?;
    }
  }

  lemma ConflictsFit(s: Sides, changes: seq<Change>, x: Conflict)
    requires Plain(s) && TellsDifference(s.env, s.was, s.goal, Some(changes))
    requires PlanFor(s.env, s.disk, changes, true).Planned?
    ensures x in PlanFor(s.env, s.disk, changes, true).conflicts <==> ConflictAt(s, x.path) == Some(x.kind)
  {
    PlanTells(s.env, s.disk, changes, true);
    FailuresFit(s, changes);
    if x in PlanFor(s.env, s.disk, changes, true).conflicts {
      var c :| c in changes && Judge(s.env, s.disk, c, true) == Refuse(x);
      WantedIsJudged(s, c);
    }
    if ConflictAt(s, x.path) == Some(x.kind) {
      assert Differs(s, x.path) && !Untextual(s.env, s.was, s.goal, x.path);
      var c := WantedAt(s, x.path);
      WantedIsJudged(s, c);
      assert c in changes && Judge(s.env, s.disk, c, true) == Refuse(x);
    }
  }

  lemma OthersFit(s: Sides, changes: seq<Change>, p: Path)
    requires Plain(s) && TellsDifference(s.env, s.was, s.goal, Some(changes))
    requires PlanFor(s.env, s.disk, changes, true).Planned? && ConflictAt(s, p) == None
    ensures (exists c :: c in PlanFor(s.env, s.disk, changes, true).accepted && Subject(c) == p) ||
      ResultAt(s, p) == Content(s.disk, p)
  {
    PlanTells(s.env, s.disk, changes, true);
    FailuresFit(s, changes);
    if Differs(s, p) {
      assert !Untextual(s.env, s.was, s.goal, p);
      var c := WantedAt(s, p);
      WantedIsJudged(s, c);
      var verdict := Judge(s.env, s.disk, c, true);
      if verdict.Accept? {
        assert c in changes && verdict.change in PlanFor(s.env, s.disk, changes, true).accepted;
      }
    }
  }

  // ---------------------------------------------------------------- carrying it out

  /** Nothing in the list is in the way of anything else in it. */
  ghost predicate Untangled(changes: seq<Change>) {
    DistinctSubjects(changes) && (forall c :: c in changes ==> !c.Move?) &&
    forall c, x :: c in changes && x in changes && !c.Delete? && !x.Delete? ==> Subject(c) !in Above(Subject(x))
  }

  /** What the disk `e` has to do with `d` while the changes still to come are untouched by those before. */
  ghost predicate Between(d: Disk, e: Disk, done: seq<Change>) {
    Tree(e) && d.dirs <= e.dirs &&
    (forall p :: (forall c :: c in done ==> Subject(c) != p) ==> Content(e, p) == Content(d, p)) &&
    (forall p :: p in e.files ==> p in d.files || exists c :: c in done && !c.Delete? && Subject(c) == p) &&
    (forall p :: p in e.dirs ==> p in d.dirs || exists c :: c in done && !c.Delete? && p in Above(Subject(c)))
  }

  lemma StillValidates(env: Env, d: Disk, e: Disk, changes: seq<Change>, k: nat)
    requires Untangled(changes) && k < |changes| && Between(d, e, changes[..k]) && Validate(env, d, changes[k]).Fine?
    ensures Validate(env, e, changes[k]).Fine?
  {
    var c := changes[k];
    assert c in changes;
    forall x | x in changes[..k]
      ensures Subject(x) != c.path && x in changes
    {
      var i :| 0 <= i < k && changes[i] == x;
      assert Subject(changes[i]) != Subject(changes[k]);
    }
    assert Content(e, c.path) == Content(d, c.path);
    if c.Create? {
      forall q | q in Above(c.path)
        ensures q !in e.files
      {
      }
    } else {
      TreeDoesNotBlock(e, c.path);
    }
  }

  lemma OneMoreBetween(env: Env, d: Disk, e: Disk, done: seq<Change>, c: Change)
    requires Between(d, e, done) && !c.Move? && Validate(env, e, c).Fine? && forall x :: x in done ==> !x.Move?
    ensures Between(d, Effect(env, e, c), done + [c])
  {
    var after := Effect(env, e, c);
    EffectKeepsTree(env, e, c);
    assert c in done + [c] && forall x :: x in done ==> x in done + [c];
    forall p | forall x :: x in done + [c] ==> Subject(x) != p
      ensures Content(after, p) == Content(d, p)
    {
      assert Content(after, p) == Content(e, p);
    }
    forall p | p in after.dirs && p !in d.dirs
      ensures exists x :: x in done + [c] && !x.Delete? && p in Above(Subject(x))
    {
      if p in e.dirs {
        var x :| x in done && !x.Delete? && p in Above(Subject(x));
        assert x in done + [c];
      }
    }
  }

  lemma {:induction false} UntangledExecute(env: Env, d: Disk, changes: seq<Change>, k: nat)
    requires Tree(d) && Untangled(changes) && k <= |changes| && forall c :: c in changes ==> Validate(env, d, c).Fine?
    ensures var e := Execute(env, d, changes[..k]); e.Some? && Between(d, e.value, changes[..k])
  {
    if k > 0 {
      UntangledExecute(env, d, changes, k - 1);
      var first, c := changes[..k - 1], changes[k - 1];
      assert changes[..k] == first + [c];
      var e := Execute(env, d, first).value;
      StillValidates(env, d, e, changes, k - 1);
      NoneMoves(changes, k - 1);
      OneMoreBetween(env, d, e, first, c);
      ExecuteOneMore(env, d, first, c);
    }
  }

  lemma NoneMoves(changes: seq<Change>, k: nat)
    requires k < |changes| && forall c :: c in changes ==> !c.Move?
    ensures !changes[k].Move? && forall x :: x in changes[..k] ==> !x.Move?
  {
    assert changes[k] in changes;
  }

  lemma ExecuteOneMore(env: Env, d: Disk, first: seq<Change>, c: Change)
    requires Execute(env, d, first).Some? && Validate(env, Execute(env, d, first).value, c).Fine?
    ensures Execute(env, d, first + [c]) == Some(Effect(env, Execute(env, d, first).value, c))
  {
    var e := Execute(env, d, first).value;
    ExecuteAppend(env, d, first, [c]);
    assert Execute(env, Effect(env, e, c), [c][1..]) == Some(Effect(env, e, c));
  }

  ghost predicate NoneBelowAnother(goal: map<Path, Bytes>) {
    forall p, q :: p in goal && q in goal ==> p !in Above(q)
  }

  lemma PlanExecutes(s: Sides, plan: Plan)
    requires Plain(s) && NoneBelowAnother(s.goal) && plan.Planned? && PlanFits(s, plan)
    requires forall c :: c in plan.accepted ==> Validate(s.env, s.disk, c).Fine?
    ensures Execute(s.env, s.disk, plan.accepted).Some?
  {
    assert plan.accepted[..|plan.accepted|] == plan.accepted;
    forall c | c in plan.accepted
      ensures !c.Move? && (c.Delete? || c.path in s.goal)
    {
      assert VerdictFits(s, Subject(c), Accept(c));
    }
    UntangledExecute(s.env, s.disk, plan.accepted, |plan.accepted|);
  }

  lemma ResultFits(s: Sides, plan: Plan, after: Disk, p: Path)
    requires plan.Planned? && PlanFits(s, plan) && ConflictAt(s, p) == None
    requires AllLeave(s.env, s.disk, after, plan.accepted)
    ensures Content(after, p) == ResultAt(s, p)
  {
    var accepted := plan.accepted;
    forall c | c in accepted
      ensures Paths(c) == [Subject(c)]
    {
      assert VerdictFits(s, Subject(c), Accept(c));
    }
    if exists c :: c in accepted && Subject(c) == p {
      var c :| c in accepted && Subject(c) == p;
      var i: nat :| i < |accepted| && accepted[i] == c;
      forall j | i < j < |accepted|
        ensures p !in Paths(accepted[j])
      {
        assert Subject(accepted[j]) != Subject(accepted[i]);
      }
      assert LastMention(accepted, i, p);
      assert VerdictFits(s, p, Accept(c));
    }
  }

  // ---------------------------------------------------------------- through both programs

  ghost predicate EndsAs(s: Sides, after: Disk, r: Option<Outcome>) {
    (r.None? <==> exists p :: Untextual(s.env, s.was, s.goal, p)) &&
    if r.None? then after == s.disk
    else
      match r.value
      case Applied(_) => forall p :: !FailsAt(s, p) && ConflictAt(s, p) == None && Content(after, p) == ResultAt(s, p)
      case Conflicted(conflicts) =>
        after == s.disk && conflicts != [] && (forall p :: !FailsAt(s, p)) &&
        forall x: Conflict :: x in conflicts <==> ConflictAt(s, x.path) == Some(x.kind)
      case Thrown(_, _) => after == s.disk && exists p :: FailsAt(s, p)
  }

  /**
    Build the difference of two snapshots and apply it to whatever the workspace has become, without other processes
    meanwhile. It is refused with exactly the conflicts the paths call for, or fails on a path that cannot be written
    or is a directory by now; otherwise every path ends up as its three versions say.
   */
  method PatchMovedWorkspace(workspace: LocalWorkspace, before: seq<File>, after: seq<File>)
    returns (r: Option<Outcome>)
    requires workspace.Valid() && workspace.Alone() && workspace.WritesSucceed()
    requires Distinct(before) && Distinct(after) && NoneBelowAnother(AsMap(after))
    requires Plain(Sides(workspace.env, AsMap(before), AsMap(after), workspace.disk))
    modifies workspace
    ensures workspace.Valid()
    ensures EndsAs(Sides(workspace.env, AsMap(before), AsMap(after), old(workspace.disk)), workspace.disk, r)
  {
    ghost var s := Sides(workspace.env, AsMap(before), AsMap(after), workspace.disk);
    var changes := BuildChangeSet(workspace.env, before, after);
    if changes.None? { return None; }
    ChangesFit(s, changes.value);
    ghost var plan := PlanFor(s.env, s.disk, changes.value, true);
    if plan.Planned? {
      AcceptedValidate(s.env, s.disk, changes.value, true);
      PlanExecutes(s, plan);
    }
    var outcome := workspace.ApplyChangeSet(changes.value, Permissions(Allow, Allow));
    r := Some(outcome);
    if outcome.Applied? { AppliedFits(s, plan, workspace.disk); }
  }

  lemma AppliedFits(s: Sides, plan: Plan, after: Disk)
    requires plan.Planned? && plan.conflicts == [] && PlanFits(s, plan)
    requires AllLeave(s.env, s.disk, after, plan.accepted)
    ensures forall p :: ConflictAt(s, p) == None && Content(after, p) == ResultAt(s, p)
  {
    forall p
      ensures ConflictAt(s, p) == None && Content(after, p) == ResultAt(s, p)
    {
      assert forall kind :: Conflict(p, kind) in plan.conflicts <==> ConflictAt(s, p) == Some(kind);
      ResultFits(s, plan, after, p);
    }
  }
}
