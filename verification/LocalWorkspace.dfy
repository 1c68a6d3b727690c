/**
  `LocalWorkspace.applyChangeSet`: plan on the disk as it is, snapshot every path, carry the
  accepted changes out one by one, and roll back on the first failure.

  Other processes act at each pause through an arbitrary function of the step number and the
  disk; any file operation may fail, with no effect on file contents.
 */
module LocalWorkspaces {

  import opened Options
  import opened Disk
  import opened ChangeSet
  import opened BatchLog
  import Merge

  datatype Permission = Allow | Confirm | Deny
  datatype Permissions = Permissions(write: Permission, delete: Permission)

  datatype Snapshot = Snapshot(path: Path, content: Option<Bytes>)

  datatype Outcome =
    | Applied(appliedCount: nat)
    | Conflicted(conflicts: seq<Conflict>)
    | Thrown(cause: Error, attention: seq<Attention>)

  /** `appliedStates`: what the batch left at each path it wrote. */
  type Marks = map<Path, Option<Bytes>>

  /** The marks say what the log says, and are all there is to say. */
  ghost predicate Accounted(log: seq<Step>, start: Disk, applied: Marks) {
    forall p ::
      if p in applied then FateOf(log, p) == InPlace && Mine(log, start, p) == applied[p]
      else FateOf(log, p) == Untouched
  }

  /** What `appliedStates` records for a change that went through. */
  function Recorded(env: Env, applied: Marks, originals: Marks, change: Change): Marks
    requires change.Move? ==> change.fromPath in originals
  {
    match change
    case Create(path, content) => applied[path := Some(env.encode(content))]
    case Update(path, content, _, _) => applied[path := Some(env.encode(content))]
    case Delete(path, _, _) => applied[path := None]
    case Move(fromPath, toPath, _) => applied[fromPath := None][toPath := originals[fromPath]]
  }

  /** Why a change does not go through on the disk `seen`. */
  ghost predicate Blames(env: Env, seen: Disk, change: Change, error: Error) {
    match Validate(env, seen, change)
    case Fine => error == OperationFailed(Subject(change))
    case Clash(conflict) => error == ConflictDuringApply(conflict)
    case Broken(cause) => error == cause
  }

  /** The error is that of the first change not carried out, on what other processes had left when its turn came. */
  ghost predicate Explained(env: Env, log: seq<Step>, accepted: seq<Change>, error: Error) {
    |CarriedOut(log)| < |accepted| &&
    exists i :: 0 <= i < |log| && log[i].actor.Others? &&
                Blames(env, log[i].after, accepted[|CarriedOut(log)|], error)
  }

  ghost predicate Originals(start: Disk, originals: Marks, change: Change) {
    forall p :: p in Paths(change) ==> p in originals && originals[p] == Content(start, p)
  }

  ghost function PathSet(change: Change): set<Path> {
    set p | p in Paths(change)
  }

  /** What is recorded for a change is what its paths hold afterwards. */
  lemma RecordedIsLeft(env: Env, disk: Disk, start: Disk, applied: Marks, originals: Marks, change: Change, p: Path)
    requires Collisionless(env) && Originals(start, originals, change)
    requires Validate(env, disk, change).Fine? && Validate(env, start, change).Fine?
    requires change.Move? ==> change.fromPath in originals
    ensures var recorded := Recorded(env, applied, originals, change);
      if p in Paths(change) then p in recorded && Content(Effect(env, disk, change), p) == recorded[p]
      else (p in recorded <==> p in applied) && (p in recorded ==> recorded[p] == applied[p])
  {
    if change.Move? {
      assert change.fromPath in Paths(change);
      assert env.hash(disk.files[change.fromPath]) == env.hash(start.files[change.fromPath]);
      assert change.fromPath != change.toPath;
    }
  }

  lemma EffectAccounted(env: Env, disk: Disk, log: seq<Step>, start: Disk, applied: Marks, originals: Marks,
                        change: Change)
    requires Collisionless(env) && Accounted(log, start, applied) && Originals(start, originals, change)
    requires Validate(env, disk, change).Fine? && Validate(env, start, change).Fine?
    requires change.Move? ==> change.fromPath in originals
    ensures Accounted(log + [Step(Carried(change), disk, Effect(env, disk, change))], start,
                      Recorded(env, applied, originals, change))
  {
    var s, recorded := Step(Carried(change), disk, Effect(env, disk, change)),
      Recorded(env, applied, originals, change);
    forall p
      ensures if p in recorded then FateOf(log + [s], p) == InPlace && Mine(log + [s], start, p) == recorded[p]
              else FateOf(log + [s], p) == Untouched
    {
      RecordedIsLeft(env, disk, start, applied, originals, change, p);
      FateAppend(log, s, p);
      MineAppend(log, s, start, p);
    }
  }

  // ---------------------------------------------------------------- what can be put back

  /** A path the batch wrote that can still be looked at and put back. */
  ghost predicate Recoverable(env: Env, disk: Disk, start: Disk, p: Path) {
    !env.sensitive(p) && Above(p) <= disk.dirs && p !in disk.dirs && (p !in disk.files ==> p in start.files)
  }

  ghost predicate AllRecoverable(env: Env, disk: Disk, start: Disk, log: seq<Step>) {
    forall p :: FateOf(log, p) == InPlace ==> Recoverable(env, disk, start, p)
  }

  lemma MakeParentsRecoverable(env: Env, disk: Disk, start: Disk, log: seq<Step>, target: Path)
    requires AllRecoverable(env, disk, start, log)
    requires !Blocked(disk, target) && !Blocked(start, target)
    ensures AllRecoverable(env, MakeParents(disk, target), start, log)
  {
  }

  lemma EffectRecoverable(env: Env, disk: Disk, start: Disk, log: seq<Step>, change: Change)
    requires Tree(disk) && Tree(start) && AllRecoverable(env, disk, start, log)
    requires Validate(env, disk, change).Fine? && Validate(env, start, change).Fine?
    ensures AllRecoverable(env, Effect(env, disk, change), start,
                           log + [Step(Carried(change), disk, Effect(env, disk, change))])
  {
    var target, s := Target(change), Step(Carried(change), disk, Effect(env, disk, change));
    if !change.Delete? {
      if change.Update? { TreeDoesNotBlock(disk, target); TreeDoesNotBlock(start, target); }
      MakeParentsRecoverable(env, disk, start, log, target);
      NotAboveItself(target);
    }
    if change.Move? {
      assert change.fromPath in disk.files;
      assert change.fromPath !in Above(target);
    }
    forall p | FateOf(log + [s], p) == InPlace
      ensures Recoverable(env, s.after, start, p)
    {
      FateAppend(log, s, p);
    }
  }

  lemma RestoreRecoverable(env: Env, disk: Disk, start: Disk, log: seq<Step>, p: Path)
    requires AllRecoverable(env, disk, start, log) && FateOf(log, p) == InPlace
    ensures var after := Restore(disk, p, Content(start, p));
      AllRecoverable(env, after, start, log + [Step(PutBack(p), disk, after)])
  {
    var after := Restore(disk, p, Content(start, p));
    assert disk.dirs + Above(p) == disk.dirs;
    forall q | FateOf(log + [Step(PutBack(p), disk, after)], q) == InPlace
      ensures Recoverable(env, after, start, q)
    {
      FateAppend(log, Step(PutBack(p), disk, after), q);
    }
  }

  // ---------------------------------------------------------------- the workspace

  class LocalWorkspace {
    const env: Env
    const rival: (nat, Disk) -> Disk
    const writeFault: nat -> bool
    const restoreFault: nat -> bool
    var disk: Disk
    var clock: nat
    // The disk when the current batch began, and all that has happened to it since.
    ghost var start: Disk
    ghost var log: seq<Step>

    constructor (env: Env, rival: (nat, Disk) -> Disk, writeFault: nat -> bool, restoreFault: nat -> bool, disk: Disk)
      requires Tree(disk) && Collisionless(env)
      requires forall n, d :: Tree(d) ==> Tree(rival(n, d))
      ensures Valid() && this.disk == disk && log == []
      ensures this.env == env && this.rival == rival && this.writeFault == writeFault &&
        this.restoreFault == restoreFault
    {
      this.env, this.rival, this.writeFault, this.restoreFault := env, rival, writeFault, restoreFault;
      this.disk, this.clock, this.start, this.log := disk, 0, disk, [];
    }

    ghost predicate Valid()
      reads this
    {
      Tree(disk) && Tree(start) && Collisionless(env) && (forall n, d :: Tree(d) ==> Tree(rival(n, d))) &&
      Honest(World(env, rival, start), log, disk)
    }

    /** No other process changes the workspace. */
    ghost predicate Alone() {
      Idle(rival)
    }

    ghost predicate WritesSucceed() {
      forall n :: !writeFault(n)
    }

    ghost predicate RestoresSucceed() {
      forall n :: !restoreFault(n)
    }

    /** An `await`: other processes may act. */
    method Pause()
      requires Valid()
      modifies this`disk, this`clock, this`log
      ensures Valid() && disk == rival(old(clock), old(disk))
      ensures log == old(log) + [Step(Others(old(clock)), old(disk), disk)]
    {
      var after := rival(clock, disk);
      HonestAppend(World(env, rival, start), log, Step(Others(clock), disk, after));
      log := log + [Step(Others(clock), disk, after)];
      disk := after;
      clock := clock + 1;
    }

    // -------------------------------------------------------------- planning

    method MergeOne(change: Change) returns (verdict: Verdict)
      ensures verdict == MergeChange(env, disk, change)
    {
      if !NeedsMerge(env, disk, change) { return Accept(change); }
      if change.path !in disk.files { return Fail(NotAFile(change.path)); }
      var current := env.readText(disk.files[change.path]);
      var merged := Merge.MergeWorkspaceText(change.baseContent.value, current, change.content);
      if merged.Refused? { return Refuse(Conflict(change.path, OverlappingEdits)); }
      if merged.content == current { return Skip; }
      verdict := Accept(change.(content := merged.content, expectedHash := env.hash(disk.files[change.path])));
    }

    /** The body of the first loop. */
    method JudgeOne(change: Change, mayDelete: bool) returns (verdict: Verdict)
      ensures verdict == Judge(env, disk, change, mayDelete)
    {
      if (change.Delete? || change.Move?) && !mayDelete { return Fail(DeleteUnconfirmed); }
      verdict := MergeOne(change);
      if verdict.Accept? {
        match Validate(env, disk, verdict.change) {
          case Fine =>
          case Clash(conflict) => verdict := Refuse(conflict);
          case Broken(error) => verdict := Fail(error);
        }
      }
    }

    /** The first loop of `applyChangeSetLocked`. */
    method PlanChanges(changes: seq<Change>, mayDelete: bool) returns (plan: Plan)
      ensures plan == PlanFor(env, disk, changes, mayDelete)
      ensures !mayDelete && (exists c :: c in changes && TakesAway(c)) ==> plan.Failed?
    {
      if !mayDelete { NoDeleteWithoutPermission(env, disk, changes); }
      var accepted: seq<Change>, conflicts: seq<Conflict> := [], [];
      for k := 0 to |changes|
        invariant PlanFor(env, disk, changes[..k], mayDelete) == Planned(accepted, conflicts)
      {
        var verdict := JudgeOne(changes[k], mayDelete);
        PlanStep(env, disk, changes, k, mayDelete);
        match verdict
        case Fail(error) =>
          PlanFailsForGood(env, disk, changes, k + 1, mayDelete);
          return Failed(error);
        case Refuse(conflict) => conflicts := conflicts + [conflict];
        case Skip =>
        case Accept(kept) => accepted := accepted + [kept];
      }
      assert changes[..|changes|] == changes;
      plan := Planned(accepted, conflicts);
    }

    method TakeSnapshots(paths: seq<Path>) returns (snapshots: seq<Snapshot>)
      ensures SnapshotsOf(snapshots, paths, disk)
    {
      snapshots := [];
      for k := 0 to |paths|
        invariant SnapshotsOf(snapshots, paths[..k], disk)
      {
        snapshots := snapshots + [Snapshot(paths[k], Content(disk, paths[k]))];
      }
    }

    // -------------------------------------------------------------- carrying out

    /** One round of the second loop: re-validate, write, and remember what was written. */
    method CarryOut(change: Change, originals: Marks, applied: Marks) returns (after: Marks, failure: Option<Error>)
      requires Valid() && Accounted(log, start, applied)
      requires Validate(env, start, change).Fine? && Originals(start, originals, change)
      requires Alone() ==> AllRecoverable(env, disk, start, log)
      modifies this`disk, this`clock, this`log
      ensures Valid() && Accounted(log, start, after)
      // The only write is that of the change, on the disk that other processes have left by then.
      ensures failure.None? ==>
        var seen := rival(old(clock), old(disk));
        Validate(env, seen, change).Fine? && disk == Effect(env, seen, change) &&
        log == old(log) + [Step(Others(old(clock)), old(disk), seen)] + [Step(Carried(change), seen, disk)]
      // Without it, the cause is what was found at that moment, and no file has changed.
      ensures failure.Some? ==>
        after == applied && old(log) <= log && disk.files == rival(old(clock), old(disk)).files &&
        Blames(env, rival(old(clock), old(disk)), change, failure.value) && |old(log)| < |log| &&
        log[|old(log)|] == Step(Others(old(clock)), old(disk), rival(old(clock), old(disk)))
      ensures CarriedOut(log) == CarriedOut(old(log)) + (if failure.None? then [change] else [])
      ensures after.Keys <= applied.Keys + PathSet(change)
      ensures Alone() ==> AllRecoverable(env, disk, start, log)
      ensures Alone() && WritesSucceed() && failure.Some? ==> !Validate(env, old(disk), change).Fine?
    {
      Pause();
      IdleAppend(old(log), Step(Others(old(clock)), old(disk), disk), start);
      match Validate(env, disk, change) {
        case Clash(conflict) => return applied, Some(ConflictDuringApply(conflict));
        case Broken(error) => return applied, Some(error);
        case Fine =>
      }
      clock := clock + 1;
      assert Subject(change) in Paths(change);
      if writeFault(clock) {
        FailWrite(change);
        return applied, Some(OperationFailed(Subject(change)));
      }
      ghost var paused, seen := log, disk;
      after := CarryOutNow(change, originals, applied);
      CarriedOutAppend(paused, Step(Carried(change), seen, disk));
      failure := None;
    }

    /** The change goes through. */
    method CarryOutNow(change: Change, originals: Marks, applied: Marks) returns (after: Marks)
      requires Valid() && Accounted(log, start, applied)
      requires Validate(env, start, change).Fine? && Originals(start, originals, change)
      requires Validate(env, disk, change).Fine?
      requires Alone() ==> AllRecoverable(env, disk, start, log)
      modifies this`disk, this`log
      ensures Valid() && Accounted(log, start, after)
      ensures disk == Effect(env, old(disk), change) && log == old(log) + [Step(Carried(change), old(disk), disk)]
      ensures after.Keys <= applied.Keys + PathSet(change)
      ensures Alone() ==> AllRecoverable(env, disk, start, log)
    {
      assert change.Move? ==> change.fromPath in Paths(change);
      ghost var s := Step(Carried(change), disk, Effect(env, disk, change));
      EffectKeepsTree(env, disk, change);
      EffectAccounted(env, disk, log, start, applied, originals, change);
      HonestAppend(World(env, rival, start), log, s);
      if Alone() { EffectRecoverable(env, disk, start, log, change); }
      disk := Effect(env, disk, change);
      log := log + [s];
      // For a move this is where the program insists on the source's snapshot, which is always there.
      assert change.Move? ==> originals[change.fromPath].Some?;
      after := Recorded(env, applied, originals, change);
    }

    /** A failed operation changes no file, but the parent directories may have been made. */
    method FailWrite(change: Change)
      requires Valid() && Validate(env, disk, change).Fine? && Validate(env, start, change).Fine?
      requires Alone() ==> AllRecoverable(env, disk, start, log)
      modifies this`disk, this`log
      ensures Valid() && disk.files == old(disk).files
      ensures log == old(log) + [Step(Attempted(change), old(disk), disk)]
      ensures CarriedOut(log) == CarriedOut(old(log))
      ensures forall p :: FateOf(log, p) == FateOf(old(log), p) && Mine(log, start, p) == Mine(old(log), start, p)
      ensures Alone() ==> AllRecoverable(env, disk, start, log)
    {
      var after := if change.Delete? then disk else MakeParents(disk, Target(change));
      if !change.Delete? {
        if change.Update? {
          TreeDoesNotBlock(disk, Target(change));
          TreeDoesNotBlock(start, Target(change));
        }
        if Alone() { MakeParentsRecoverable(env, disk, start, log, Target(change)); }
        MakeParentsKeepsTree(disk, Target(change));
      }
      HonestAppend(World(env, rival, start), log, Step(Attempted(change), disk, after));
      IdleAppend(log, Step(Attempted(change), disk, after), start);
      log := log + [Step(Attempted(change), disk, after)];
      disk := after;
    }

    method CarryOutAll(accepted: seq<Change>, originals: Marks) returns (applied: Marks, failure: Option<Error>)
      requires Valid() && log == []
      requires forall c :: c in accepted ==> Validate(env, start, c).Fine? && Originals(start, originals, c)
      modifies this`disk, this`clock, this`log
      ensures Valid() && Accounted(log, start, applied)
      ensures CarriedOut(log) <= accepted && (failure.None? <==> CarriedOut(log) == accepted)
      ensures failure.Some? ==> Explained(env, log, accepted, failure.value)
      ensures forall p :: p in applied ==> p in ChangePaths(accepted)
      ensures Alone() ==> AllRecoverable(env, disk, start, log)
      ensures Alone() && failure.None? ==> Execute(env, start, accepted) == Some(disk)
      ensures Alone() && WritesSucceed() && failure.Some? ==> Execute(env, start, accepted) == None
    {
      applied, failure := map[], None;
      assert accepted[0..] == accepted;
      for k := 0 to |accepted|
        invariant Valid() && Accounted(log, start, applied) && CarriedOut(log) == accepted[..k] && failure.None?
        invariant Alone() ==> AllRecoverable(env, disk, start, log)
        invariant forall p :: p in applied ==> p in ChangePaths(accepted)
        invariant Alone() ==> Execute(env, disk, accepted[k..]) == Execute(env, start, accepted)
      {
        ExecuteStep(env, disk, accepted, k);
        WrittenAreMentioned(accepted, k);
        applied, failure := CarryOut(accepted[k], originals, applied);
        PrefixGrows(accepted, k);
        if failure.Some? { return; }
      }
      assert accepted[..|accepted|] == accepted;
    }

    // -------------------------------------------------------------- rolling back

    /** `snapshotChangePath` during the rollback. */
    method Inspect(p: Path) returns (current: Option<Option<Bytes>>)
      ensures current == if Unreadable(env, disk, p) then None else Some(Content(disk, p))
    {
      if Denied(env, disk, p) || p in disk.dirs { return None; }
      current := Some(Content(disk, p));
    }

    /**
      One round of the rollback: a path that still holds what the batch left is put back; one that holds anything else,
      or cannot be looked at, is left as it is found.
     */
    method RollBackOne(original: Snapshot, applied: Marks) returns (reason: Option<Reason>)
      requires Valid() && original.path in applied && original.content == Content(start, original.path)
      requires FateOf(log, original.path) == InPlace && Mine(log, start, original.path) == applied[original.path]
      requires Alone() ==> AllRecoverable(env, disk, start, log)
      modifies this`disk, this`clock, this`log
      ensures Valid()
      ensures var p, seen := original.path, rival(old(clock), old(disk));
        var readable := !Unreadable(env, seen, p);
        (reason == Some(CannotInspect) <==> !readable) &&
        (reason == Some(ChangedAfterWrite) <==> readable && Content(seen, p) != applied[p]) &&
        (reason == Some(RestoreFailed) <==> readable && Content(seen, p) == applied[p] && restoreFault(clock)) &&
        disk == (if reason.None? then Restore(seen, p, original.content) else seen) &&
        log == old(log) + [Step(Others(old(clock)), old(disk), seen)] +
               [Step(if reason.None? then PutBack(p) else LeftAlone(Attention(p, reason.value)), seen, disk)]
      ensures Alone() ==> AllRecoverable(env, disk, start, log)
      ensures Alone() && RestoresSucceed() ==> reason == None
    {
      var p := original.path;
      Pause();
      ghost var seen := disk;
      IdleAppend(old(log), Step(Others(old(clock)), old(disk), seen), start);
      if Alone() { AloneIsMine(World(env, rival, start), log, disk, p); }
      var current := Inspect(p);
      clock := clock + 1;
      if current.None? {
        reason := Some(CannotInspect);
      } else if current.value != applied[p] {
        reason := Some(ChangedAfterWrite);
      } else if restoreFault(clock) {
        reason := Some(RestoreFailed);
      } else {
        reason := None;
        if original.content.Some? { WriteKeepsTree(disk, p, original.content.value); }
        if Alone() { RestoreRecoverable(env, disk, start, log, p); }
        disk := Restore(disk, p, original.content);
      }
      ghost var s := Step(if reason.None? then PutBack(p) else LeftAlone(Attention(p, reason.value)), seen, disk);
      HonestAppend(World(env, rival, start), log, s);
      if reason.Some? { LeftRecoverable(env, disk, start, log, s); }
      log := log + [s];
    }

    /** The rollback deals with every path that the batch wrote, once, and with no other. */
    method RollBack(snapshots: seq<Snapshot>, applied: Marks) returns (attention: seq<Attention>)
      requires Valid() && Accounted(log, start, applied)
      requires forall i, j :: 0 <= i < j < |snapshots| ==> snapshots[i].path != snapshots[j].path
      requires forall s :: s in snapshots ==> s.content == Content(start, s.path)
      requires applied.Keys <= PathsFrom(snapshots, 0)
      requires Alone() ==> AllRecoverable(env, disk, start, log)
      modifies this`disk, this`clock, this`log
      ensures Valid() && RolledBack(log, attention)
      ensures old(log) <= log && CarriedOut(log) == CarriedOut(old(log))
      ensures forall p :: FateOf(log, p) == Untouched <==> p !in applied
      ensures Alone() && RestoresSucceed() ==> attention == []
    {
      attention := [];
      NothingReported(log, start, applied);
      for k := 0 to |snapshots|
        invariant Valid() && old(log) <= log && CarriedOut(log) == CarriedOut(old(log))
        invariant Underway(log, start, applied, PathsFrom(snapshots, k)) && Reported(log, attention)
        invariant Alone() ==> AllRecoverable(env, disk, start, log)
        invariant Alone() && RestoresSucceed() ==> attention == []
      {
        PathsFromStep(snapshots, k);
        assert snapshots[k] in snapshots;
        if snapshots[k].path in applied {
          attention := RollBackNext(snapshots[k], applied, attention, PathsFrom(snapshots, k + 1));
        }
      }
    }

    method RollBackNext(original: Snapshot, applied: Marks, attention: seq<Attention>, ghost todo: set<Path>)
      returns (named: seq<Attention>)
      requires Valid() && original.path in applied && original.content == Content(start, original.path)
      requires Underway(log, start, applied, {original.path} + todo) && original.path !in todo &&
        Reported(log, attention)
      requires Alone() ==> AllRecoverable(env, disk, start, log)
      modifies this`disk, this`clock, this`log
      ensures Valid() && Underway(log, start, applied, todo) && Reported(log, named)
      ensures old(log) <= log && CarriedOut(log) == CarriedOut(old(log))
      ensures Alone() ==> AllRecoverable(env, disk, start, log)
      ensures Alone() && RestoresSucceed() ==> named == attention
    {
      var reason := RollBackOne(original, applied);
      named := if reason.Some? then attention + [Attention(original.path, reason.value)] else attention;
      ghost var seen := rival(old(clock), old(disk));
      RoundDone(old(log), start, applied, Step(Others(old(clock)), old(disk), seen), seen, disk, original.path, reason,
                todo, named);
    }

    // -------------------------------------------------------------- the whole batch

    /** Snapshot, carry out, and roll back on failure, for changes that all validate now. */
    method RunBatch(accepted: seq<Change>) returns (r: Outcome)
      requires Valid() && log == []
      requires forall c :: c in accepted ==> Validate(env, disk, c).Fine?
      modifies this`disk, this`clock, this`log
      ensures Valid()
      ensures r == Applied(|accepted|) || r.Thrown?
      ensures CarriedOut(log) <= accepted && (r.Applied? <==> CarriedOut(log) == accepted)
      ensures r.Applied? ==> forall p :: FateOf(log, p) == Untouched || FateOf(log, p) == InPlace
      ensures r.Thrown? ==> RolledBack(log, r.attention) && Explained(env, log, accepted, r.cause)
      ensures forall p :: FateOf(log, p) != Untouched ==> p in ChangePaths(accepted)
      ensures Alone() && RestoresSucceed() && r.Thrown? ==> r.attention == [] && disk.files == old(disk).files
      ensures Alone() && r.Applied? ==>
        Execute(env, old(disk), accepted) == Some(disk) && AllLeave(env, old(disk), disk, accepted)
      ensures Alone() && WritesSucceed() ==> (r.Applied? <==> Execute(env, old(disk), accepted).Some?)
      ensures (forall c :: c in accepted ==> !TakesAway(c)) ==>
        KeepsOriginals() && (Alone() ==> forall p :: p in old(disk).files ==> p in disk.files)
    {
      r := TryBatch(accepted);
      if Alone() && r.Applied? { ExecuteLeaves(env, old(disk), accepted); }
      if forall c :: c in accepted ==> !TakesAway(c) { OriginalsKept(); }
    }

    lemma OriginalsKept()
      requires Valid()
      requires forall c :: c in CarriedOut(log) ==> !TakesAway(c)
      ensures KeepsOriginals()
      ensures Alone() ==> forall p :: p in start.files ==> p in disk.files
    {
      var w := World(env, rival, start);
      forall i, p | 0 <= i < |log| && !log[i].actor.Others? && p in start.files && p in log[i].before.files
        ensures p in log[i].after.files
      {
        NothingTakenAway(w, log, disk, i, p);
      }
      if Alone() {
        forall p | p in start.files
          ensures p in disk.files
        {
          AloneKeepsFiles(w, log, disk, p);
        }
      }
    }

    method TryBatch(accepted: seq<Change>) returns (r: Outcome)
      requires Valid() && log == []
      requires forall c :: c in accepted ==> Validate(env, disk, c).Fine?
      modifies this`disk, this`clock, this`log
      ensures Valid()
      ensures r == Applied(|accepted|) || r.Thrown?
      ensures CarriedOut(log) <= accepted && (r.Applied? <==> CarriedOut(log) == accepted)
      ensures r.Applied? ==> forall p :: FateOf(log, p) == Untouched || FateOf(log, p) == InPlace
      ensures r.Thrown? ==> RolledBack(log, r.attention) && Explained(env, log, accepted, r.cause)
      ensures forall p :: FateOf(log, p) != Untouched ==> p in ChangePaths(accepted)
      ensures Alone() && RestoresSucceed() && r.Thrown? ==> r.attention == [] && disk.files == old(disk).files
      ensures Alone() && r.Applied? ==> Execute(env, old(disk), accepted) == Some(disk)
      ensures Alone() && WritesSucceed() ==> (r.Applied? <==> Execute(env, old(disk), accepted).Some?)
    {
      var snapshots := TakeSnapshots(ChangePaths(accepted));
      var originals := map s | s in snapshots :: s.path := s.content;
      SnapshotsCover(snapshots, originals, accepted, start);
      var applied, failure := CarryOutAll(accepted, originals);
      if failure.None? { return Applied(|accepted|); }
      var attention := RollBack(snapshots, applied);
      if Alone() && RestoresSucceed() { AloneIsUndone(World(env, rival, start), log, disk); }
      r := Thrown(failure.value, attention);
    }

    /** `applyChangeSetLocked`. */
    method ApplyChangeSet(changes: seq<Change>, permissions: Permissions) returns (r: Outcome)
      requires Valid()
      modifies this`disk, this`clock, this`start, this`log
      // Whatever happens to a file meanwhile is in the log, from the disk before to the disk after.
      ensures Valid() && start == old(disk)
      // Nothing is touched unless the whole set is accepted.
      ensures permissions.write == Confirm ==> r == Thrown(WriteUnconfirmed, []) && disk == old(disk)
      ensures permissions.write == Deny ==> r == Thrown(WriteDenied, []) && disk == old(disk)
      ensures permissions.write == Allow ==>
        match PlanFor(env, old(disk), changes, permissions.delete == Allow)
        case Failed(error) => r == Thrown(error, []) && disk == old(disk)
        case Planned(accepted, conflicts) =>
          if conflicts != [] then r == Conflicted(conflicts) && disk == old(disk)
          else
            // The accepted changes go through in order: all of them, or some before the first failure.
            !r.Conflicted? && (r.Applied? ==> r.appliedCount == |accepted|) &&
            CarriedOut(log) <= accepted && (r.Applied? <==> CarriedOut(log) == accepted) &&
            (r.Thrown? ==> Explained(env, log, accepted, r.cause)) &&
            forall p :: FateOf(log, p) != Untouched ==> p in ChangePaths(accepted)
      ensures r.Applied? ==> forall p :: FateOf(log, p) == Untouched || FateOf(log, p) == InPlace
      // Without the permission to delete, a deletion or move in the list stops everything, and no original file ever
      // disappears by the batch's doing.
      ensures permissions.delete != Allow && (exists c :: c in changes && TakesAway(c)) ==>
        r.Thrown? && disk == old(disk)
      ensures permissions.write == Allow && permissions.delete != Allow && changes != [] && TakesAway(changes[0]) ==>
        r == Thrown(DeleteUnconfirmed, [])
      ensures permissions.delete != Allow ==> KeepsOriginals()
      ensures permissions.delete != Allow && Alone() ==> forall p :: p in old(disk).files ==> p in disk.files
      // After a failure every written path has been put back, or left as it was found and named.
      ensures r.Thrown? ==> RolledBack(log, r.attention)
      // Without other processes the batch is all or nothing.
      ensures Alone() && RestoresSucceed() && r.Thrown? ==> r.attention == [] && disk.files == old(disk).files
      ensures Alone() && r.Applied? ==>
        var accepted := PlanFor(env, old(disk), changes, permissions.delete == Allow).accepted;
        Execute(env, old(disk), accepted) == Some(disk) && AllLeave(env, old(disk), disk, accepted)
      ensures Alone() && WritesSucceed() && permissions.write == Allow ==>
        var plan := PlanFor(env, old(disk), changes, permissions.delete == Allow);
        r.Applied? <==> plan.Planned? && plan.conflicts == [] && Execute(env, old(disk), plan.accepted).Some?
    {
      start, log := disk, [];
      NothingDone();
      if permissions.write == Confirm { return Thrown(WriteUnconfirmed, []); }
      if permissions.write == Deny { return Thrown(WriteDenied, []); }
      if permissions.delete != Allow && changes != [] && TakesAway(changes[0]) {
        DeletionIsUnconfirmed(env, disk, changes[0]);
        FirstFailureCounts(env, disk, changes, false, 0);
      }
      var plan := PlanChanges(changes, permissions.delete == Allow);
      if permissions.delete != Allow { NoDeleteWithoutPermission(env, disk, changes); }
      if plan.Failed? { return Thrown(plan.error, []); }
      if plan.conflicts != [] { return Conflicted(plan.conflicts); }
      AcceptedValidate(env, disk, changes, permissions.delete == Allow);
      r := RunBatch(plan.accepted);
    }

    /** No step of the batch makes a file disappear that was there at the start. */
    ghost predicate KeepsOriginals()
      reads this
    {
      forall i, p :: 0 <= i < |log| && !log[i].actor.Others? && p in start.files && p in log[i].before.files ==>
        p in log[i].after.files
    }
  }

  lemma NothingDone()
    ensures RolledBack([], [])
  {
  }

  lemma WrittenAreMentioned(accepted: seq<Change>, k: nat)
    requires k < |accepted|
    ensures accepted[k] in accepted
    ensures forall p :: p in PathSet(accepted[k]) ==> p in ChangePaths(accepted)
  {
    assert accepted[k] in accepted;
  }

  lemma ExecuteStep(env: Env, d: Disk, accepted: seq<Change>, k: nat)
    requires k < |accepted|
    ensures Execute(env, d, accepted[k..]) ==
            if Validate(env, d, accepted[k]).Fine? then Execute(env, Effect(env, d, accepted[k]), accepted[k + 1..])
              else None
  {
    assert accepted[k..][0] == accepted[k] && accepted[k..][1..] == accepted[k + 1..];
  }

  lemma PrefixGrows(accepted: seq<Change>, k: nat)
    requires k < |accepted|
    ensures accepted[..k] <= accepted && accepted[..k] != accepted && accepted[..k] + [accepted[k]] == accepted[..k + 1]
  {
  }

  // ---------------------------------------------------------------- the rounds of the rollback

  lemma LeftRecoverable(env: Env, disk: Disk, start: Disk, log: seq<Step>, s: Step)
    requires s.actor.LeftAlone?
    ensures AllRecoverable(env, disk, start, log) ==> AllRecoverable(env, disk, start, log + [s])
  {
    forall p
      ensures FateOf(log + [s], p) == InPlace ==> FateOf(log, p) == InPlace
    {
      FateAppend(log, s, p);
    }
  }

  /** The written paths still to be looked at are as the batch left them; all others have been dealt with. */
  ghost predicate Underway(log: seq<Step>, start: Disk, applied: Marks, todo: set<Path>) {
    forall p ::
      if p !in applied then FateOf(log, p) == Untouched
      else if p in todo then FateOf(log, p) == InPlace && Mine(log, start, p) == applied[p]
      else FateOf(log, p) == Restored || FateOf(log, p).Kept?
  }

  lemma NothingReported(log: seq<Step>, start: Disk, applied: Marks)
    requires Accounted(log, start, applied)
    ensures Reported(log, [])
  {
  }

  lemma RoundDone(log: seq<Step>, start: Disk, applied: Marks, pause: Step, seen: Disk, after: Disk, p: Path,
                  reason: Option<Reason>, todo: set<Path>, attention: seq<Attention>)
    requires pause.actor.Others? && p in applied && p !in todo && Underway(log, start, applied, {p} + todo)
    requires reason.Some? ==> attention != [] && attention[|attention| - 1] == Attention(p, reason.value)
    requires Reported(log, if reason.Some? then attention[..|attention| - 1] else attention)
    ensures var actor := if reason.None? then PutBack(p) else LeftAlone(Attention(p, reason.value));
      var more := log + [pause] + [Step(actor, seen, after)];
      Underway(more, start, applied, todo) && Reported(more, attention) && CarriedOut(more) == CarriedOut(log)
  {
    var actor := if reason.None? then PutBack(p) else LeftAlone(Attention(p, reason.value));
    var s := Step(actor, seen, after);
    IdleAppend(log, pause, start);
    CarriedOutAppend(log + [pause], s);
    forall q
      ensures q != p ==> FateOf(log + [pause] + [s], q) == FateOf(log, q)
      ensures q != p ==> Mine(log + [pause] + [s], start, q) == Mine(log, start, q)
      ensures q == p ==> FateOf(log + [pause] + [s], q) == if reason.None? then Restored else Kept(reason.value)
    {
      FateAppend(log + [pause], s, q);
      MineAppend(log + [pause], s, start, q);
    }
    if reason.Some? { assert attention == attention[..|attention| - 1] + [Attention(p, reason.value)]; }
  }

  ghost function PathsFrom(snapshots: seq<Snapshot>, k: nat): set<Path> {
    set i | k <= i < |snapshots| :: snapshots[i].path
  }

  lemma PathsFromStep(snapshots: seq<Snapshot>, k: nat)
    requires k < |snapshots|
    requires forall i, j :: 0 <= i < j < |snapshots| ==> snapshots[i].path != snapshots[j].path
    ensures PathsFrom(snapshots, k) == {snapshots[k].path} + PathsFrom(snapshots, k + 1)
    ensures snapshots[k].path !in PathsFrom(snapshots, k + 1)
  {
  }

  ghost predicate SnapshotsOf(snapshots: seq<Snapshot>, paths: seq<Path>, disk: Disk) {
    |snapshots| == |paths| &&
    forall i :: 0 <= i < |paths| ==> snapshots[i] == Snapshot(paths[i], Content(disk, paths[i]))
  }

  lemma SnapshotsCover(snapshots: seq<Snapshot>, originals: Marks, accepted: seq<Change>, start: Disk)
    requires SnapshotsOf(snapshots, ChangePaths(accepted), start)
    requires originals == map s | s in snapshots :: s.path := s.content
    ensures forall i, j :: 0 <= i < j < |snapshots| ==> snapshots[i].path != snapshots[j].path
    ensures forall s :: s in snapshots ==> s.content == Content(start, s.path)
    ensures forall c :: c in accepted ==> Originals(start, originals, c)
    ensures forall p :: p in ChangePaths(accepted) ==> p in PathsFrom(snapshots, 0)
  {
    var paths := ChangePaths(accepted);
    forall p | p in paths
      ensures p in PathsFrom(snapshots, 0)
      ensures p in originals && originals[p] == Content(start, p)
    {
      var i :| 0 <= i < |paths| && paths[i] == p;
      assert snapshots[i] in snapshots && snapshots[i].path == p;
    }
    forall c, p | c in accepted && p in Paths(c)
      ensures p in originals && originals[p] == Content(start, p)
    {
      assert p in paths;
    }
  }
}
