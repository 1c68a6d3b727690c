/**
  Everything that happens to the files of a workspace during one batch: the writes of the batch, its rollback,
  and whatever other processes do in between. The log runs from the disk at the start of the batch to the disk
  now, each step beginning where the one before ended, so that nothing can happen to a file outside it.
 */
module BatchLog {

  import opened Options
  import opened Disk
  import opened ChangeSet

  /** Why the rollback left a path as it found it. */
  datatype Reason = CannotInspect | ChangedAfterWrite | RestoreFailed
  datatype Attention = Attention(path: Path, reason: Reason)

  datatype Actor =
    | Others(tick: nat)
    | Carried(change: Change)
    | Attempted(change: Change)
    | PutBack(path: Path)
    | LeftAlone(attention: Attention)

  datatype Step = Step(actor: Actor, before: Disk, after: Disk)

  /** Where a batch takes place: the platform, the other processes, and the disk it starts on. */
  datatype World = World(env: Env, rival: (nat, Disk) -> Disk, start: Disk)

  /** What the batch has made of a path. */
  datatype Fate = Untouched | InPlace | Restored | Kept(reason: Reason)

  /** What one step makes of a path, if it is about that path at all. */
  function Makes(actor: Actor, p: Path): Option<Fate> {
    if actor.Carried? && p in Paths(actor.change) then Some(InPlace)
    else if actor == PutBack(p) then Some(Restored)
    else if actor.LeftAlone? && actor.attention.path == p then Some(Kept(actor.attention.reason))
    else None
  }

  function FateOf(log: seq<Step>, p: Path): Fate {
    if log == [] then Untouched
    else
      var made := Makes(log[|log| - 1].actor, p);
      if made.Some? then made.value else FateOf(log[..|log| - 1], p)
  }

  /** A step by which the batch writes the path. */
  predicate Owns(actor: Actor, p: Path) {
    Makes(actor, p) == Some(InPlace) || Makes(actor, p) == Some(Restored)
  }

  /** What the batch itself last left at a path, or what was there at the start. */
  function Mine(log: seq<Step>, start: Disk, p: Path): Option<Bytes> {
    if log == [] then Content(start, p)
    else
      var s := log[|log| - 1];
      if Owns(s.actor, p) then Content(s.after, p) else Mine(log[..|log| - 1], start, p)
  }

  /** The changes that went through, in order. */
  function CarriedOut(log: seq<Step>): seq<Change> {
    if log == [] then []
    else
      var n := |log| - 1;
      CarriedOut(log[..n]) + (if log[n].actor.Carried? then [log[n].actor.change] else [])
  }

  predicate Unreadable(env: Env, d: Disk, p: Path) {
    Denied(env, d, p) || p in d.dirs
  }

  function Target(change: Change): Path {
    if change.Move? then change.toPath else change.path
  }

  /**
    What each may do. A change is carried out only where it validates on the disk of that very moment. A path is put
    back only while it holds exactly what the batch left there, and is otherwise not touched.
   */
  ghost predicate Legal(w: World, log: seq<Step>, s: Step) {
    match s.actor
    case Others(tick) => s.after == w.rival(tick, s.before)
    case Carried(change) =>
      Validate(w.env, w.start, change).Fine? && Validate(w.env, s.before, change).Fine? &&
      s.after == Effect(w.env, s.before, change)
    case Attempted(change) =>
      Validate(w.env, s.before, change).Fine? &&
      (s.after == s.before || s.after == MakeParents(s.before, Target(change)))
    case PutBack(p) =>
      FateOf(log, p) == InPlace && !Unreadable(w.env, s.before, p) && Content(s.before, p) == Mine(log, w.start, p) &&
      s.after == Restore(s.before, p, Content(w.start, p))
    case LeftAlone(attention) =>
      var p := attention.path;
      FateOf(log, p) == InPlace && s.after == s.before &&
      match attention.reason
      case CannotInspect => Unreadable(w.env, s.before, p)
      case ChangedAfterWrite => !Unreadable(w.env, s.before, p) && Content(s.before, p) != Mine(log, w.start, p)
      case RestoreFailed => !Unreadable(w.env, s.before, p) && Content(s.before, p) == Mine(log, w.start, p)
  }

  /** The log accounts for all that lies between the start and `disk`, each step legal in its place. */
  ghost predicate Honest(w: World, log: seq<Step>, disk: Disk)
    decreases |log|
  {
    if log == [] then disk == w.start
    else
      var n := |log| - 1;
      log[n].after == disk && Legal(w, log[..n], log[n]) && Honest(w, log[..n], log[n].before)
  }

  predicate Changes(s: Step, p: Path) {
    Content(s.before, p) != Content(s.after, p)
  }

  // ---------------------------------------------------------------- one more step

  lemma HonestAppend(w: World, log: seq<Step>, s: Step)
    requires Honest(w, log, s.before) && Legal(w, log, s)
    ensures Honest(w, log + [s], s.after)
  {
    assert (log + [s])[..|log|] == log;
  }

  lemma FateAppend(log: seq<Step>, s: Step, p: Path)
    ensures FateOf(log + [s], p) == var made := Makes(s.actor, p); if made.Some? then made.value else FateOf(log, p)
  {
    assert (log + [s])[..|log|] == log;
  }

  lemma MineAppend(log: seq<Step>, s: Step, start: Disk, p: Path)
    ensures Mine(log + [s], start, p) == if Owns(s.actor, p) then Content(s.after, p) else Mine(log, start, p)
  {
    assert (log + [s])[..|log|] == log;
  }

  lemma CarriedOutAppend(log: seq<Step>, s: Step)
    ensures CarriedOut(log + [s]) == CarriedOut(log) + (if s.actor.Carried? then [s.actor.change] else [])
  {
    assert (log + [s])[..|log|] == log;
  }

  lemma IdleAppend(log: seq<Step>, s: Step, start: Disk)
    requires s.actor.Others? || s.actor.Attempted?
    ensures CarriedOut(log + [s]) == CarriedOut(log)
    ensures forall p :: FateOf(log + [s], p) == FateOf(log, p) && Mine(log + [s], start, p) == Mine(log, start, p)
  {
    CarriedOutAppend(log, s);
    forall p
      ensures FateOf(log + [s], p) == FateOf(log, p) && Mine(log + [s], start, p) == Mine(log, start, p)
    {
      FateAppend(log, s, p);
      MineAppend(log, s, start, p);
    }
  }

  // ---------------------------------------------------------------- what an honest log shows

  lemma {:induction false} LegalAt(w: World, log: seq<Step>, disk: Disk, i: nat)
    requires Honest(w, log, disk) && i < |log|
    ensures Legal(w, log[..i], log[i]) && Honest(w, log[..i], log[i].before)
    decreases |log|
  {
    var n := |log| - 1;
    if i < n {
      LegalAt(w, log[..n], log[n].before, i);
      assert log[..n][..i] == log[..i];
    }
  }

  /**
    The batch replaces only content it knows: a change replaces the original content of its paths, and the rollback
    replaces what the batch itself left, by the original.
   */
  lemma OnlyKnownContentIsReplaced(w: World, log: seq<Step>, disk: Disk, i: nat, p: Path)
    requires Honest(w, log, disk) && Collisionless(w.env) && i < |log| && Changes(log[i], p) && !log[i].actor.Others?
    ensures
      (log[i].actor.Carried? && p in Paths(log[i].actor.change) &&
       Validate(w.env, log[i].before, log[i].actor.change).Fine? &&
       Content(log[i].before, p) == Content(w.start, p)) ||
      (log[i].actor == PutBack(p) && FateOf(log[..i], p) == InPlace &&
       Content(log[i].before, p) == Mine(log[..i], w.start, p) && Content(log[i].after, p) == Content(w.start, p))
  {
    LegalAt(w, log, disk, i);
    if log[i].actor.Carried? { CarriedReplacesOriginals(w.env, w.start, log[i].before, log[i].actor.change, p); }
  }

  lemma {:induction false} UntouchedFromTheStart(log: seq<Step>, i: nat, p: Path)
    requires FateOf(log, p) == Untouched && i <= |log|
    ensures FateOf(log[..i], p) == Untouched
    decreases |log|
  {
    if i == |log| {
      assert log[..i] == log;
    } else {
      UntouchedFromTheStart(log[..|log| - 1], i, p);
      assert log[..|log| - 1][..i] == log[..i];
    }
  }

  /** A path the batch has not written is changed by other processes only. */
  lemma UnwrittenIsLeftToOthers(w: World, log: seq<Step>, disk: Disk, i: nat, p: Path)
    requires Honest(w, log, disk) && Collisionless(w.env) && FateOf(log, p) == Untouched
    requires i < |log| && Changes(log[i], p)
    ensures log[i].actor.Others?
  {
    UntouchedFromTheStart(log, i + 1, p);
    assert log[..i + 1] == log[..i] + [log[i]];
    FateAppend(log[..i], log[i], p);
    if !log[i].actor.Others? { OnlyKnownContentIsReplaced(w, log, disk, i, p); }
  }

  /** A change that goes through finds the originals, leaves what it says, and touches no sensitive path. */
  lemma CarriedLeaves(w: World, log: seq<Step>, disk: Disk, i: nat, p: Path)
    requires Honest(w, log, disk) && Collisionless(w.env) && i < |log| && log[i].actor.Carried?
    requires p in Paths(log[i].actor.change)
    ensures Content(log[i].before, p) == Content(w.start, p) && !w.env.sensitive(p)
    ensures Leaves(w.env, w.start, log[i].after, log[i].actor.change, p)
  {
    LegalAt(w, log, disk, i);
    EffectLeaves(w.env, w.start, log[i].before, log[i].actor.change, p);
  }

  lemma {:induction false} CarriedIsListed(log: seq<Step>, i: nat)
    requires i < |log| && log[i].actor.Carried?
    ensures log[i].actor.change in CarriedOut(log)
  {
    if i < |log| - 1 { CarriedIsListed(log[..|log| - 1], i); }
  }

  /** While nothing is deleted or moved, the batch itself never makes an original file disappear. */
  lemma NothingTakenAway(w: World, log: seq<Step>, disk: Disk, i: nat, p: Path)
    requires Honest(w, log, disk) && Collisionless(w.env) && i < |log| && !log[i].actor.Others?
    requires forall change :: change in CarriedOut(log) ==> !TakesAway(change)
    requires p in w.start.files && p in log[i].before.files
    ensures p in log[i].after.files
  {
    LegalAt(w, log, disk, i);
    if log[i].actor.Carried? { CarriedIsListed(log, i); }
  }

  lemma {:induction false} AloneKeepsFiles(w: World, log: seq<Step>, disk: Disk, p: Path)
    requires Honest(w, log, disk) && Collisionless(w.env) && Idle(w.rival) && p in w.start.files
    requires forall change :: change in CarriedOut(log) ==> !TakesAway(change)
    ensures p in disk.files
    decreases |log|
  {
    if log != [] {
      var n := |log| - 1;
      AloneKeepsFiles(w, log[..n], log[n].before, p);
      if !log[n].actor.Others? { NothingTakenAway(w, log, disk, n, p); }
    }
  }

  /** A path not written, or put back, is for the batch as it was at the start. */
  lemma {:induction false} SettledIsOriginal(w: World, log: seq<Step>, disk: Disk, p: Path)
    requires Honest(w, log, disk) && (FateOf(log, p) == Untouched || FateOf(log, p) == Restored)
    ensures Mine(log, w.start, p) == Content(w.start, p)
    decreases |log|
  {
    if log != [] {
      var n := |log| - 1;
      if log[n].actor != PutBack(p) { SettledIsOriginal(w, log[..n], log[n].before, p); }
    }
  }

  /** Other processes were the last to change what the path holds, and left `content`. */
  ghost predicate LastLeftByOthers(log: seq<Step>, p: Path, content: Option<Bytes>) {
    exists i :: 0 <= i < |log| && log[i].actor.Others? && Changes(log[i], p) && Content(log[i].after, p) == content &&
      forall j :: i < j < |log| ==> !Changes(log[j], p)
  }

  /** A path holds what the batch last left there, or else what other processes left there since. */
  lemma {:induction false} MineOrTheirs(w: World, log: seq<Step>, disk: Disk, p: Path)
    requires Honest(w, log, disk) && Collisionless(w.env)
    ensures Content(disk, p) == Mine(log, w.start, p) || LastLeftByOthers(log, p, Content(disk, p))
    decreases |log|
  {
    if log != [] {
      var n := |log| - 1;
      var s := log[n];
      MineOrTheirs(w, log[..n], s.before, p);
      if s.actor.Others? && Changes(s, p) {
        assert LastLeftByOthers(log, p, Content(disk, p));
      } else if !Changes(s, p) {
        LastLeftStays(log, p);
      } else if s.actor.Carried? {
        CarriedReplacesOriginals(w.env, w.start, s.before, s.actor.change, p);
      }
    }
  }

  lemma LastLeftStays(log: seq<Step>, p: Path)
    requires log != [] && !Changes(log[|log| - 1], p)
    ensures LastLeftByOthers(log[..|log| - 1], p, Content(log[|log| - 1].before, p)) ==>
      LastLeftByOthers(log, p, Content(log[|log| - 1].before, p))
  {
    var n := |log| - 1;
    var content := Content(log[n].before, p);
    if LastLeftByOthers(log[..n], p, content) {
      var i :| 0 <= i < n && log[..n][i].actor.Others? && Changes(log[..n][i], p) &&
        Content(log[..n][i].after, p) == content &&
        forall j :: i < j < n ==> !Changes(log[..n][j], p);
      assert forall j :: i < j < n ==> log[..n][j] == log[j];
    }
  }

  /** Content that is neither the original nor the batch's own stays, until other processes change it again. */
  lemma {:induction false} EditsSurvive(w: World, log: seq<Step>, disk: Disk, i: nat, p: Path)
    requires Honest(w, log, disk) && Collisionless(w.env) && i <= |log|
    requires var found := if i == |log| then disk else log[i].before;
      Content(found, p) != Content(w.start, p) && Content(found, p) != Mine(log[..i], w.start, p)
    requires forall j :: i <= j < |log| && log[j].actor.Others? ==> !Changes(log[j], p)
    ensures var found := if i == |log| then disk else log[i].before;
      Content(disk, p) == Content(found, p) && Mine(log, w.start, p) == Mine(log[..i], w.start, p)
    decreases |log|
  {
    if i == |log| {
      assert log[..i] == log;
    } else {
      var n := |log| - 1;
      assert log[..n][..i] == log[..i];
      assert forall j :: i <= j < n ==> log[..n][j] == log[j];
      EditsSurvive(w, log[..n], log[n].before, i, p);
      if log[n].actor.Carried? {
        CarriedReplacesOriginals(w.env, w.start, log[n].before, log[n].actor.change, p);
      }
    }
  }

  ghost predicate Idle(rival: (nat, Disk) -> Disk) {
    forall n, d :: rival(n, d) == d
  }

  /** Without other processes every path holds what the batch last left there. */
  lemma AloneIsMine(w: World, log: seq<Step>, disk: Disk, p: Path)
    requires Honest(w, log, disk) && Collisionless(w.env) && Idle(w.rival)
    ensures Content(disk, p) == Mine(log, w.start, p)
  {
    MineOrTheirs(w, log, disk, p);
    if LastLeftByOthers(log, p, Content(disk, p)) {
      var i :| 0 <= i < |log| && log[i].actor.Others? && Changes(log[i], p);
      LegalAt(w, log, disk, i);
      assert false;
    }
  }

  // ---------------------------------------------------------------- the end of a failed batch

  /** Every written path has been dealt with, and exactly those left alone are named, each with its reason. */
  ghost predicate RolledBack(log: seq<Step>, attention: seq<Attention>) {
    (forall p :: FateOf(log, p) != InPlace) && Reported(log, attention)
  }

  ghost predicate Reported(log: seq<Step>, attention: seq<Attention>) {
    forall a: Attention :: a in attention <==> FateOf(log, a.path) == Kept(a.reason)
  }

  ghost predicate Names(attention: seq<Attention>, p: Path) {
    exists a :: a in attention && a.path == p
  }

  lemma UnnamedIsSettled(log: seq<Step>, attention: seq<Attention>, p: Path)
    requires RolledBack(log, attention) && !Names(attention, p)
    ensures FateOf(log, p) == Untouched || FateOf(log, p) == Restored
  {
    forall reason
      ensures FateOf(log, p) != Kept(reason)
    {
      assert Attention(p, reason) in attention <==> FateOf(log, p) == Kept(reason);
    }
  }

  /**
    After a failed batch a path that is not named holds its original content, or else what other processes left there
    after all that the batch did to it.
   */
  lemma UnnamedIsOriginalOrTheirs(w: World, log: seq<Step>, disk: Disk, attention: seq<Attention>, p: Path)
    requires Honest(w, log, disk) && Collisionless(w.env) && RolledBack(log, attention) && !Names(attention, p)
    ensures Content(disk, p) == Content(w.start, p) || LastLeftByOthers(log, p, Content(disk, p))
  {
    UnnamedIsSettled(log, attention, p);
    SettledIsOriginal(w, log, disk, p);
    MineOrTheirs(w, log, disk, p);
  }

  /** The moment at which the rollback found a path and left it. */
  lemma {:induction false} KeptWasLeftAsFound(w: World, log: seq<Step>, disk: Disk, p: Path) returns (i: nat)
    requires Honest(w, log, disk) && Collisionless(w.env) && FateOf(log, p).Kept?
    ensures i < |log| && log[i].actor == LeftAlone(Attention(p, FateOf(log, p).reason)) && log[i].after == log[i].before
    ensures Legal(w, log[..i], log[i])
    ensures forall j :: i < j < |log| && Changes(log[j], p) ==> log[j].actor.Others?
    decreases |log|
  {
    var n := |log| - 1;
    var s := log[n];
    if s.actor == LeftAlone(Attention(p, FateOf(log, p).reason)) {
      i := n;
    } else {
      i := KeptWasLeftAsFound(w, log[..n], s.before, p);
      assert log[..n][..i] == log[..i];
      assert forall j :: i < j < n ==> log[..n][j] == log[j];
      if !s.actor.Others? && Changes(s, p) { OnlyKnownContentIsReplaced(w, log, disk, n, p); }
    }
  }

  /** Without other processes and without names, everything is as it was at the start. */
  lemma AloneIsUndone(w: World, log: seq<Step>, disk: Disk)
    requires Honest(w, log, disk) && Collisionless(w.env) && Idle(w.rival) && RolledBack(log, [])
    ensures disk.files == w.start.files
  {
    forall p
      ensures Content(disk, p) == Content(w.start, p)
    {
      AloneIsMine(w, log, disk, p);
      UnnamedIsSettled(log, [], p);
      SettledIsOriginal(w, log, disk, p);
    }
    SameContentSameFiles(disk, w.start);
  }

  lemma SameContentSameFiles(x: Disk, y: Disk)
    requires forall p :: Content(x, p) == Content(y, p)
    ensures x.files == y.files
  {
    forall p
      ensures p in x.files <==> p in y.files
      ensures p in x.files ==> x.files[p] == y.files[p]
    {
      assert Content(x, p) == Content(y, p);
    }
  }
}
