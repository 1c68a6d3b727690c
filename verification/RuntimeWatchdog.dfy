/**
  What a tick, a wait, an observation and the budget check come to on whole runs: the watchdog goes by the time of the
  last progress in the history of the run, and each kind of input leads where it is meant to.
 */
module RuntimeWatchdog {

  import opened Options
  import opened ScriptValues
  import opened RuntimeHealth

  predicate Ongoing(s: Snapshot) {
    s.stage != Stopping && s.stage != Terminal
  }

  /** The input is news of this invocation, not heard before. */
  predicate News(state: State, input: Input) {
    input.Observe? && input.o.identity == state.snapshot.identity &&
    SafeInteger(input.o.sequence) && input.o.sequence > state.lastSequence &&
    (input.o.eventId == "" || input.o.source + ":" + input.o.eventId !in state.seen)
  }

  /** One of the seven signs of progress, with a positive count if it counts anything. */
  predicate ShowsProgress(o: Observation) {
    (o.kind == ReasoningProgress || o.kind == TextProgress || o.kind == ToolInputProgress || o.kind == ToolStarted ||
     o.kind == ToolProgress || o.kind == ToolCompleted || o.kind == SubmissionAccepted) &&
    match o.count
    case None => true
    case Some(NotFinite) => false
    case Some(Finite(value)) => value > 0.0
  }

  predicate Progresses(state: State, input: Input) {
    Ongoing(state.snapshot) && News(state, input) && ShowsProgress(input.o)
  }

  /** The time at which the run last showed progress, or began. */
  function LastHeard(start: State, events: seq<Event>): int {
    if events == [] then start.startedMono
    else
      var n := |events| - 1;
      if Progresses(Run(start, events[..n]), events[n].input) then events[n].now else LastHeard(start, events[..n])
  }

  lemma StepKeepsClock(state: State, e: Event)
    ensures Reduce(state, e.input, e.now, e.silenceMs).lastProgressMono ==
      if Progresses(state, e.input) then e.now else state.lastProgressMono
  {
  }

  lemma {:induction false} ClockIsHistory(start: State, events: seq<Event>)
    requires Created(start)
    ensures Run(start, events).lastProgressMono == LastHeard(start, events)
  {
    if events != [] {
      var n := |events| - 1;
      ClockIsHistory(start, events[..n]);
      StepKeepsClock(Run(start, events[..n]), events[n]);
    }
  }

  // ---------------------------------------------------------------- silence

  /** Nothing dates a silence unless it is being waited out or a fault stands. */
  ghost predicate Undated(s: Snapshot) {
    Ongoing(s) && s.health != Abnormal && s.stage != UnknownWait ==> s.unknownSince == None
  }

  lemma KindKeepsUndated(current: Snapshot, o: Observation)
    requires Undated(current) && Coherent(current) && current.stage != Terminal &&
      (current.stage == Stopping ==> EndsStop(o.kind))
    ensures Undated(OnKind(current, o))
  {
    var s := TakeStatus(current, o);
    StatusTaken(current, o);
    if IsProgress(o.kind) { ProgressKeepsUndated(current, s, o); }
    else if o.kind.RequestStarted? || o.kind.RequestAcknowledged? { RequestKeepsUndated(current, s); }
    else if o.kind.ProbeResult? { ProbeKeepsUndated(current, s, o); }
    else if IsFault(o.kind) { FaultKeepsUndated(current, s, o); }
  }

  lemma FaultKeepsUndated(current: Snapshot, s: Snapshot, o: Observation)
    requires s.stage == current.stage && s.health == current.health && s.unknownSince == current.unknownSince
    requires Undated(current)
    ensures Undated(OnFault(current, s, o))
  {
  }

  lemma ProgressKeepsUndated(current: Snapshot, s: Snapshot, o: Observation)
    requires s.stage == current.stage && s.health == current.health && s.unknownSince == current.unknownSince
    requires Undated(current)
    ensures Undated(OnProgress(current, s, o))
  {
  }

  lemma RequestKeepsUndated(current: Snapshot, s: Snapshot)
    requires s.stage == current.stage && s.health == current.health && s.unknownSince == current.unknownSince
    requires Undated(current) && current.stage != Stopping && current.stage != Terminal
    ensures Undated(OnRequest(current, s))
  {
  }

  lemma ProbeKeepsUndated(current: Snapshot, s: Snapshot, o: Observation)
    requires s.stage == current.stage && s.health == current.health && s.unknownSince == current.unknownSince
    requires Undated(current)
    ensures Undated(OnProbe(current, s, o))
  {
  }

  lemma {:induction false} RunIsUndated(start: State, events: seq<Event>)
    requires Created(start)
    ensures Undated(Run(start, events).snapshot)
  {
    if events != [] {
      var n := |events| - 1;
      RunIsUndated(start, events[..n]);
      RunIsCoherent(start, events[..n]);
      StepKeepsUndated(Run(start, events[..n]), events[n]);
    }
  }

  lemma StepKeepsUndated(state: State, e: Event)
    requires Undated(state.snapshot) && Coherent(state.snapshot)
    ensures Undated(Reduce(state, e.input, e.now, e.silenceMs).snapshot)
  {
    var current := state.snapshot;
    if e.input.Observe? && current.stage != Terminal && (current.stage == Stopping ==> EndsStop(e.input.o.kind)) {
      KindKeepsUndated(current, e.input.o);
    }
  }

  /**
    The watchdog, on every run: a tick finds an ongoing invocation silent, unless a fault stands or the silence is
    known already, if and only if it comes at least the allowed time after the last progress in the history, or after
    the start. It then says so, dates the silence from the tick, and changes nothing else; otherwise nothing changes.
   */
  lemma TickDecides(start: State, events: seq<Event>, at: string, now: int, silenceMs: int)
    requires Created(start)
    ensures var before := Run(start, events); var s, next := before.snapshot, Reduce(before, Tick(at), now, silenceMs);
      if Ongoing(s) && s.health != Abnormal && s.stage != UnknownWait &&
        now - LastHeard(start, events) >= silenceMs then
        next == before.(snapshot := s.(stage := UnknownWait, health := Unclear, reasonCode := NoObservableProgress,
                                       unknownSince := Some(at), observationDue := true, canWait := true,
                                       version := s.version + 1, updatedAt := at))
      else next == before
  {
    ClockIsHistory(start, events);
    RunIsUndated(start, events);
  }

  /** A wait is acknowledged exactly while a silence is being waited out. */
  lemma WaitDecides(start: State, events: seq<Event>, at: string, now: int, silenceMs: int)
    requires Created(start)
    ensures var before := Run(start, events); var s, next := before.snapshot, Reduce(before, Wait(at), now, silenceMs);
      if s.stage == UnknownWait then
        next == before.(snapshot := s.(lastWaitAcknowledgedAt := Some(at), version := s.version + 1, updatedAt := at))
      else next == before
  {
    RunIsCoherent(start, events);
  }

  /** What begins a silence: a tick that comes late enough, or a probe without an answer. */
  ghost predicate Begins(start: State, events: seq<Event>, i: nat) {
    i < |events| &&
    match events[i].input
    case Tick(_) => events[i].now - LastHeard(start, events[..i]) >= events[i].silenceMs
    case Wait(_) => false
    case Observe(o) => o.kind == ProbeResult && o.probeStatus != Some(ProbeOk)
  }

  /** From `i` on, nothing shows progress. */
  ghost predicate SilentFrom(start: State, events: seq<Event>, i: nat) {
    forall j :: i <= j < |events| ==> !Progresses(Run(start, events[..j]), events[j].input)
  }

  /** No false alarm: on every run, a reported silence began with such a tick or probe, without progress since. */
  lemma {:induction false} SilenceIsReal(start: State, events: seq<Event>) returns (i: nat)
    requires Created(start) && Run(start, events).snapshot.stage == UnknownWait
    ensures Begins(start, events, i) && SilentFrom(start, events, i)
  {
    var n := |events| - 1;
    LastStepIsSilent(start, events);
    if Run(start, events[..n]).snapshot.stage == UnknownWait {
      i := SilenceIsReal(start, events[..n]);
      SilentOnceMore(start, events, i);
    } else {
      i := n;
    }
  }

  lemma LastStepIsSilent(start: State, events: seq<Event>)
    requires Created(start) && events != [] && Run(start, events).snapshot.stage == UnknownWait
    ensures var n := |events| - 1;
      !Progresses(Run(start, events[..n]), events[n].input) &&
      (Run(start, events[..n]).snapshot.stage != UnknownWait ==> Begins(start, events, n))
  {
    var n := |events| - 1;
    RunIsCoherent(start, events[..n]);
    ClockIsHistory(start, events[..n]);
    WaitingStays(Run(start, events[..n]), events[n]);
  }

  lemma SilentOnceMore(start: State, events: seq<Event>, i: nat)
    requires events != [] && SilentFrom(start, events[..|events| - 1], i) && Begins(start, events[..|events| - 1], i)
    requires !Progresses(Run(start, events[..|events| - 1]), events[|events| - 1].input)
    ensures SilentFrom(start, events, i) && Begins(start, events, i)
  {
    var n := |events| - 1;
    assert events[..n][..i] == events[..i];
    forall j | i <= j < |events|
      ensures !Progresses(Run(start, events[..j]), events[j].input)
    {
      if j < n { assert events[..n][..j] == events[..j] && events[..n][j] == events[j]; }
    }
  }

  lemma WaitingStays(state: State, e: Event)
    requires Coherent(state.snapshot) && Reduce(state, e.input, e.now, e.silenceMs).snapshot.stage == UnknownWait
    ensures !Progresses(state, e.input)
    ensures state.snapshot.stage != UnknownWait ==>
      match e.input
      case Tick(_) => e.now - state.lastProgressMono >= e.silenceMs
      case Wait(_) => false
      case Observe(o) => o.kind == ProbeResult && o.probeStatus != Some(ProbeOk)
  {
    if e.input.Observe? { ObservedWaiting(state, e.input.o, e.now, e.silenceMs); }
  }

  lemma ObservedWaiting(state: State, o: Observation, now: int, silenceMs: int)
    requires Coherent(state.snapshot) && Reduce(state, Observe(o), now, silenceMs).snapshot.stage == UnknownWait
    ensures !Progresses(state, Observe(o))
    ensures state.snapshot.stage == UnknownWait || (o.kind == ProbeResult && o.probeStatus != Some(ProbeOk))
  {
    var current := state.snapshot;
    if Reduce(state, Observe(o), now, silenceMs).snapshot != current {
      assert Reduce(state, Observe(o), now, silenceMs).snapshot == Stamp(OnKind(current, o), o.observedAt);
      StatusTaken(current, o);
      WaitingKind(current, TakeStatus(current, o), o);
    } else {
      IgnoredExactly(state, o, now, silenceMs);
      assert IsProgress(o.kind) && ShowsProgress(o) ==> !BadCount(o);
    }
  }

  lemma WaitingKind(current: Snapshot, s: Snapshot, o: Observation)
    requires Coherent(current) && OnKind(current, o).stage == UnknownWait && s == TakeStatus(current, o)
    requires s.stage == current.stage && s.health == current.health
    ensures IsProgress(o.kind) ==> false
    ensures current.stage == UnknownWait || (o.kind == ProbeResult && o.probeStatus != Some(ProbeOk))
  {
    if IsProgress(o.kind) { ProgressLeads(current, s, o); }
  }

  // ---------------------------------------------------------------- where an observation leads

  /** A fault that this sign of progress leaves standing. */
  predicate Withstands(s: Snapshot, kind: Kind) {
    s.health == Abnormal &&
    (s.reasonCode == Observed(ControlDisconnected) ||
     (s.failure.Some? && s.failure.value.code == ProcessGone) ||
     (s.reasonCode == Observed(OutputContractError) && kind != SubmissionAccepted) ||
     ((s.reasonCode == Observed(ProviderRetry) || s.reasonCode == Observed(ProviderError)) &&
      (kind == ToolProgress || kind == ToolCompleted)))
  }

  lemma TakenIn(state: State, o: Observation, now: int, silenceMs: int)
    requires News(state, Observe(o)) && (if Ongoing(state.snapshot) then IsProgress(o.kind) ==> ShowsProgress(o)
                                         else state.snapshot.stage == Stopping && EndsStop(o.kind))
    ensures var next := Reduce(state, Observe(o), now, silenceMs);
      next.snapshot == Stamp(OnKind(state.snapshot, o), o.observedAt) && next.lastSequence == o.sequence &&
      next.lastProgressMono == if IsProgress(o.kind) then now else state.lastProgressMono
  {
    assert IsProgress(o.kind) && ShowsProgress(o) ==> !BadCount(o);
    assert !Duplicate(state, o) && Admissible(state, o);
  }

  /** What taking in the statuses leaves alone. */
  lemma StatusTaken(current: Snapshot, o: Observation)
    ensures TakeStatus(current, o) ==
      current.(processStatus := TakeStatus(current, o).processStatus,
               requestStatus := if o.requestStatus.Some? then o.requestStatus.value else current.requestStatus)
  {
  }

  /** A kind that still counts while the invocation is being stopped. */
  predicate CountsWhileStopping(kind: Kind) {
    kind == TerminalReceived || kind == StopUnconfirmed || kind == ProcessExited
  }

  /** On every run, an observation changes the snapshot if and only if it is news of an invocation that has not ended,
      counts while that is being stopped, and is no sign of progress without progress. */
  lemma ObservationCounts(start: State, events: seq<Event>, o: Observation, now: int, silenceMs: int)
    requires Created(start)
    ensures var before := Run(start, events);
      Reduce(before, Observe(o), now, silenceMs).snapshot != before.snapshot <==>
      before.snapshot.stage != Terminal && News(before, Observe(o)) &&
      (before.snapshot.stage == Stopping ==> CountsWhileStopping(o.kind)) &&
      (ShowsProgress(o) || !ShowsProgress(o.(count := None)))
  {
    RunIsCoherent(start, events);
    IgnoredExactly(Run(start, events), o, now, silenceMs);
    CountReads(o);
  }

  lemma CountReads(o: Observation)
    ensures ShowsProgress(o.(count := None)) <==> IsProgress(o.kind)
    ensures ShowsProgress(o) <==> IsProgress(o.kind) && !BadCount(o)
  {
  }

  /** The sequence number is that of the latest observation of this invocation that was later than all before. */
  lemma SequenceMoves(state: State, o: Observation, now: int, silenceMs: int)
    ensures Reduce(state, Observe(o), now, silenceMs).lastSequence ==
      if state.snapshot.stage != Terminal && o.identity == state.snapshot.identity && SafeInteger(o.sequence) &&
        o.sequence > state.lastSequence then o.sequence else state.lastSequence
  {
  }

  /** A fresh invocation awaits a response from its start on, and any observation of it is news. */
  lemma FreshAwaits(identity: Identity, at: string, version: Option<int>, capabilities: Option<Capabilities>, now: int,
                    o: Observation)
    requires o.identity == identity && SafeInteger(o.sequence) && o.sequence >= 0
    ensures var start := Create(identity, at, version, capabilities, now);
      News(start, Observe(o)) && LastHeard(start, []) == now && start.snapshot.stage == AwaitingResponse &&
      start.snapshot.health == Unclear && start.snapshot.canStop && !start.snapshot.canWait &&
      start.snapshot.version == (if version.Some? then version.value else 1)
  {
  }

  /** What is known of the process, once its exit has been found, is not revised by reports. */
  lemma ProcessStatusMoves(state: State, o: Observation, now: int, silenceMs: int)
    requires Ongoing(state.snapshot) && News(state, Observe(o)) && (IsProgress(o.kind) ==> ShowsProgress(o))
    requires o.kind != TerminalReceived && o.kind != ProcessExited
    ensures var s, t := state.snapshot, Reduce(state, Observe(o), now, silenceMs).snapshot;
      t.processStatus == if o.processStatus.None? || (s.failure.Some? && s.failure.value.code == ProcessGone)
                         then s.processStatus else o.processStatus.value
  {
    TakenIn(state, o, now, silenceMs);
    KindKeepsProcess(state.snapshot, TakeStatus(state.snapshot, o), o);
  }

  lemma KindKeepsProcess(current: Snapshot, s: Snapshot, o: Observation)
    requires s == TakeStatus(current, o) && o.kind != TerminalReceived && o.kind != ProcessExited
    ensures OnKind(current, o).processStatus == s.processStatus
  {
    if IsProgress(o.kind) {
      ProgressKeepsProcess(current, s, o);
    } else if o.kind.ProbeResult? {
      ProbeKeepsProcess(current, s, o);
    }
  }

  lemma ProgressKeepsProcess(current: Snapshot, s: Snapshot, o: Observation)
    ensures OnProgress(current, s, o).processStatus == s.processStatus
  {
  }

  lemma ProbeKeepsProcess(current: Snapshot, s: Snapshot, o: Observation)
    ensures OnProbe(current, s, o).processStatus == s.processStatus
  {
  }

  /** What each observation shows about the runtime, and what it is dated as; it touches nothing else of the kind. */
  lemma ObservationShows(state: State, o: Observation, now: int, silenceMs: int)
    requires Ongoing(state.snapshot) && News(state, Observe(o)) && (IsProgress(o.kind) ==> ShowsProgress(o))
    ensures var s, t := state.snapshot, Reduce(state, Observe(o), now, silenceMs).snapshot;
      t.identity == s.identity && t.historical == s.historical &&
      t.lastWaitAcknowledgedAt == s.lastWaitAcknowledgedAt &&
      t.lastProgressAt == (if ShowsProgress(o) then Some(o.observedAt) else s.lastProgressAt) &&
      t.lastTransportAt == (if o.kind == TransportAlive then Some(o.observedAt) else s.lastTransportAt) &&
      t.lastProbeAt == (if o.kind == ProbeResult then Some(o.observedAt) else s.lastProbeAt) &&
      t.capabilities == CapabilitiesShown(s.capabilities, o)
  {
    TakenIn(state, o, now, silenceMs);
    StatusTaken(state.snapshot, o);
    KindShows(state.snapshot, TakeStatus(state.snapshot, o), o);
  }

  lemma KindShows(current: Snapshot, s: Snapshot, o: Observation)
    requires s == TakeStatus(current, o) && (IsProgress(o.kind) ==> ShowsProgress(o))
    ensures var t := OnKind(current, o);
      t.identity == s.identity && t.historical == s.historical &&
      t.lastWaitAcknowledgedAt == s.lastWaitAcknowledgedAt &&
      t.lastProgressAt == (if ShowsProgress(o) then Some(o.observedAt) else s.lastProgressAt) &&
      t.lastTransportAt == (if o.kind == TransportAlive then Some(o.observedAt) else s.lastTransportAt) &&
      t.lastProbeAt == (if o.kind == ProbeResult then Some(o.observedAt) else s.lastProbeAt) &&
      t.capabilities == CapabilitiesShown(s.capabilities, o)
  {
    CountReads(o);
    if IsProgress(o.kind) {
      ProgressShows(current, s, o);
    } else if o.kind.ProbeResult? {
      ProbeShows(current, s, o);
    } else if o.kind.RequestStarted? || o.kind.RequestAcknowledged? {
      RequestShows(current, s, o);
    } else if IsFault(o.kind) {
      FaultShows(current, s, o);
    }
  }

  function CapabilitiesShown(had: Capabilities, o: Observation): Capabilities {
    Capabilities(
      if ShowsProgress(o) then Supported else had.progressEvents,
      if o.kind == ReasoningProgress && ShowsProgress(o) then Supported else had.reasoningEvents,
      if o.kind != ProbeResult then had.processProbe
      else if o.probeStatus == Some(ProbeRefused) then Unsupported else Supported,
      if o.kind == RequestStarted || o.kind == RequestAcknowledged then Supported else had.requestLifecycle,
      had.providerRequestQuery)
  }

  ghost predicate SameDates(s: Snapshot, t: Snapshot) {
    t.identity == s.identity && t.historical == s.historical && t.lastWaitAcknowledgedAt == s.lastWaitAcknowledgedAt &&
    t.lastProgressAt == s.lastProgressAt && t.lastTransportAt == s.lastTransportAt && t.lastProbeAt == s.lastProbeAt
  }

  lemma RequestShows(current: Snapshot, s: Snapshot, o: Observation)
    requires o.kind == RequestStarted || o.kind == RequestAcknowledged
    ensures SameDates(s, OnRequest(current, s))
    ensures OnRequest(current, s).capabilities == CapabilitiesShown(s.capabilities, o)
  {
  }

  lemma FaultShows(current: Snapshot, s: Snapshot, o: Observation)
    requires IsFault(o.kind)
    ensures SameDates(s, OnFault(current, s, o))
    ensures OnFault(current, s, o).capabilities == CapabilitiesShown(s.capabilities, o)
  {
  }

  lemma ProgressShows(current: Snapshot, s: Snapshot, o: Observation)
    ensures var t := OnProgress(current, s, o);
      t.identity == s.identity && t.historical == s.historical &&
      t.lastWaitAcknowledgedAt == s.lastWaitAcknowledgedAt &&
      t.lastProgressAt == Some(o.observedAt) && t.lastTransportAt == s.lastTransportAt &&
      t.lastProbeAt == s.lastProbeAt &&
      t.capabilities == s.capabilities.(
        progressEvents := Supported,
        reasoningEvents := if o.kind == ReasoningProgress then Supported else s.capabilities.reasoningEvents)
  {
  }

  lemma ProbeShows(current: Snapshot, s: Snapshot, o: Observation)
    ensures var t := OnProbe(current, s, o);
      t.identity == s.identity && t.historical == s.historical &&
      t.lastWaitAcknowledgedAt == s.lastWaitAcknowledgedAt &&
      t.lastProgressAt == s.lastProgressAt && t.lastTransportAt == s.lastTransportAt &&
      t.lastProbeAt == Some(o.observedAt) &&
      t.capabilities ==
        s.capabilities.(processProbe := if o.probeStatus == Some(ProbeRefused) then Unsupported else Supported)
  {
  }

  /** Progress moves the clock and is dated. Unless a fault withstands it, it also clears every fault and silence, and
      leads to the stage and the request status of its kind. */
  lemma ProgressMoves(state: State, o: Observation, now: int, silenceMs: int)
    requires Progresses(state, Observe(o))
    ensures var s, next := state.snapshot, Reduce(state, Observe(o), now, silenceMs);
      var t := next.snapshot;
      next.lastProgressMono == now && t.lastProgressAt == Some(o.observedAt) && t.updatedAt == o.observedAt &&
      t.version == s.version + 1 && next.lastSequence == o.sequence &&
      if Withstands(s, o.kind) then
        t.stage == s.stage && t.health == s.health && t.reasonCode == s.reasonCode && t.failure == s.failure &&
        t.failureAt == s.failureAt
      else
        t.health == Progressing && t.reasonCode == Observed(o.kind) && t.failure == None && t.failureAt == None &&
        t.unknownSince == None && !t.observationDue && !t.canWait &&
        match o.kind
        case ReasoningProgress => t.stage == Reasoning && t.requestStatus == Receiving
        case TextProgress => t.stage == Responding && t.requestStatus == Receiving
        case ToolInputProgress => t.stage == ToolRunning && t.requestStatus == Receiving
        case ToolStarted => t.stage == ToolRunning && RequestAsTold(s, o, t)
        case ToolProgress => t.stage == ToolRunning && RequestAsTold(s, o, t)
        case ToolCompleted => t.stage == AwaitingResponse && RequestAsTold(s, o, t)
        case SubmissionAccepted => t.stage == AwaitingResponse && RequestAsTold(s, o, t)
  {
    TakenIn(state, o, now, silenceMs);
    StatusTaken(state.snapshot, o);
    ProgressLeads(state.snapshot, TakeStatus(state.snapshot, o), o);
  }

  lemma ProgressLeads(current: Snapshot, s: Snapshot, o: Observation)
    requires IsProgress(o.kind)
    ensures var t := OnProgress(current, s, o);
      t.version == s.version && t.lastProgressAt == Some(o.observedAt) &&
      if Withstands(current, o.kind) then
        t.stage == s.stage && t.health == s.health && t.reasonCode == s.reasonCode && t.failure == s.failure &&
        t.failureAt == s.failureAt
      else
        t.health == Progressing && t.reasonCode == Observed(o.kind) && t.failure == None && t.failureAt == None &&
        t.unknownSince == None && !t.observationDue && !t.canWait && t.stage == StageFor(o.kind) &&
        t.requestStatus == if o.kind.ReasoningProgress? || o.kind.TextProgress? || o.kind.ToolInputProgress?
                           then Receiving else s.requestStatus
  {
    assert Withstands(current, o.kind) == PreservesFailure(current, o.kind);
  }

  /** The request status is what the observation reports, or as it was. */
  predicate RequestAsTold(s: Snapshot, o: Observation, t: Snapshot) {
    t.requestStatus == if o.requestStatus.Some? then o.requestStatus.value else s.requestStatus
  }

  /** A request puts an invocation that neither waits out a silence nor has a fault into waiting for the response. */
  lemma RequestMoves(state: State, o: Observation, now: int, silenceMs: int)
    requires Ongoing(state.snapshot) && News(state, Observe(o)) &&
      (o.kind == RequestStarted || o.kind == RequestAcknowledged)
    ensures var s, t := state.snapshot, Reduce(state, Observe(o), now, silenceMs).snapshot;
      t.requestStatus == Pending && t.capabilities.requestLifecycle == Supported &&
      t.stage == (if s.stage == UnknownWait || s.health == Abnormal then s.stage else AwaitingResponse) &&
      t.health == s.health && t.reasonCode == s.reasonCode && t.failure == s.failure &&
      t.lastProgressAt == s.lastProgressAt
  {
    TakenIn(state, o, now, silenceMs);
    StatusTaken(state.snapshot, o);
  }

  /** A sign of life of the transport is dated, and nothing else. */
  lemma TransportMoves(state: State, o: Observation, now: int, silenceMs: int)
    requires Ongoing(state.snapshot) && News(state, Observe(o)) && o.kind == TransportAlive
    ensures var s, t := state.snapshot, Reduce(state, Observe(o), now, silenceMs).snapshot;
      t.lastTransportAt == Some(o.observedAt) && t.stage == s.stage && t.health == s.health &&
      t.reasonCode == s.reasonCode && t.failure == s.failure && t.lastProgressAt == s.lastProgressAt
  {
    TakenIn(state, o, now, silenceMs);
    StatusTaken(state.snapshot, o);
  }

  /** A probe that finds the process gone is a provider error; one without an answer begins a silence unless a fault
      stands; any other changes nothing but its date. */
  lemma ProbeMoves(state: State, o: Observation, now: int, silenceMs: int)
    requires Ongoing(state.snapshot) && News(state, Observe(o)) && o.kind == ProbeResult
    ensures var s, t := state.snapshot, Reduce(state, Observe(o), now, silenceMs).snapshot;
      t.lastProbeAt == Some(o.observedAt) && t.lastProgressAt == s.lastProgressAt &&
      t.capabilities.processProbe == (if o.probeStatus == Some(ProbeRefused) then Unsupported else Supported) &&
      if o.probeStatus == Some(ProbeOk) && o.processStatus == Some(Exited) then
        t.stage == Retrying && t.health == Abnormal && t.reasonCode == Observed(ProviderError) &&
        t.failure.Some? && t.failure.value.code == ProcessGone && t.failureAt == Some(o.observedAt)
      else if o.probeStatus == Some(ProbeOk) || s.health == Abnormal then
        t.stage == s.stage && t.health == s.health && t.reasonCode == s.reasonCode && t.failure == s.failure
      else
        t.stage == UnknownWait && t.health == Unclear && t.canWait && t.observationDue &&
        t.unknownSince == (if s.unknownSince.Some? then s.unknownSince else Some(o.observedAt)) &&
        t.reasonCode == if o.probeStatus == Some(ProbeTimeout) then ProbeTimedOut else ProbeUnsupported
  {
    TakenIn(state, o, now, silenceMs);
    StatusTaken(state.snapshot, o);
  }

  /** A fault is recorded with its own details, unless a stronger one stands. */
  lemma FaultMoves(state: State, o: Observation, now: int, silenceMs: int)
    requires Ongoing(state.snapshot) && News(state, Observe(o))
    requires o.kind == ProviderRetry || o.kind == ProviderError || o.kind == ToolError ||
      o.kind == OutputContractError ||
      o.kind == ControlDisconnected
    ensures var s, t := state.snapshot, Reduce(state, Observe(o), now, silenceMs).snapshot;
      if s.health == Abnormal &&
        (s.reasonCode == Observed(ControlDisconnected) || (s.failure.Some? && s.failure.value.code == ProcessGone) ||
         ((s.reasonCode == Observed(ProviderRetry) || s.reasonCode == Observed(ProviderError)) &&
          o.kind == ToolError)) then
        t.stage == s.stage && t.health == s.health && t.reasonCode == s.reasonCode && t.failure == s.failure &&
        t.failureAt == s.failureAt
      else
        t.stage == Retrying && t.health == Abnormal && t.reasonCode == Observed(o.kind) && t.failure == o.failure &&
        t.failureAt == Some(o.observedAt) && !t.canWait
  {
    TakenIn(state, o, now, silenceMs);
    StatusTaken(state.snapshot, o);
  }

  /** The stop and the end, also while stopping. */
  lemma StopMoves(state: State, o: Observation, now: int, silenceMs: int)
    requires News(state, Observe(o)) && state.snapshot.stage != Terminal
    requires o.kind == StopRequested ==> Ongoing(state.snapshot)
    requires o.kind == StopRequested || o.kind == StopUnconfirmed || o.kind == TerminalReceived ||
      o.kind == ProcessExited
    ensures var t := Reduce(state, Observe(o), now, silenceMs).snapshot;
      !t.canStop && !t.canWait && t.reasonCode == Observed(o.kind) &&
      match o.kind
      case StopRequested => t.stage == Stopping && t.health == Unclear
      case StopUnconfirmed => t.stage == Stopping && t.health == Abnormal
      case _ => t.stage == Terminal && t.health == Ended && t.processStatus == Exited && t.requestStatus == RequestEnded
  {
    TakenIn(state, o, now, silenceMs);
    StopLeads(state.snapshot, o);
  }

  lemma StopLeads(current: Snapshot, o: Observation)
    requires o.kind == StopRequested || o.kind == StopUnconfirmed || o.kind == TerminalReceived ||
      o.kind == ProcessExited
    ensures var t := OnKind(current, o);
      !t.canStop && !t.canWait && t.reasonCode == Observed(o.kind) &&
      match o.kind
      case StopRequested => t.stage == Stopping && t.health == Unclear
      case StopUnconfirmed => t.stage == Stopping && t.health == Abnormal
      case _ => t.stage == Terminal && t.health == Ended && t.processStatus == Exited && t.requestStatus == RequestEnded
  {
  }

  // ---------------------------------------------------------------- the budget

  /** What the budget check of a reachable snapshot comes to: how long to wait, or why to fall back. */
  lemma CheckDecides(start: State, events: seq<Event>, deadlineAt: int, now: int, connected: bool)
    requires Created(start)
    ensures var s := Run(start, events).snapshot; var r := Check(deadlineAt, now, connected, Some(s));
      if now < deadlineAt then r == WaitFor(deadlineAt - now)
      else if !Ongoing(s) then r == WaitFor(5000)
      else if !connected then r == FallBack(RuntimeDisconnected)
      else if s.health != Abnormal then r == WaitFor(5000)
      else
        s.reasonCode.Observed? &&
        match s.reasonCode.kind
        case ControlDisconnected => r == FallBack(RuntimeDisconnected)
        case OutputContractError => r == WaitFor(5000)
        case _ => r == FallBack(ProviderOrToolError)
  {
    RunIsLater(start, events, 0);
    RunIsCoherent(start, events);
  }

  /** Before any health is known, only the deadline and the connection count. */
  lemma CheckWithoutHealth(deadlineAt: int, now: int, connected: bool)
    ensures Check(deadlineAt, now, connected, None) ==
      if now < deadlineAt then WaitFor(deadlineAt - now)
      else if connected then WaitFor(5000) else FallBack(RuntimeDisconnected)
  {
  }

  /**
    From the fault to the fallback, over whole runs: once a fault has struck a healthy invocation, and as long as only
    such input follows as does not answer it, the budget check past the deadline falls back with the reason of that
    fault, or keeps waiting for a corrected output.
   */
  lemma FaultDecidesBudget(start: State, events: seq<Event>, k: nat, o: Observation, deadlineAt: int, now: int)
    requires Created(start) && k < |events| && events[k].input == Observe(o) && now >= deadlineAt
    requires var before := Run(start, events[..k]);
      Ongoing(before.snapshot) && before.snapshot.health != Abnormal && News(before, Observe(o))
    requires o.kind == ProviderRetry || o.kind == ProviderError || o.kind == ToolError ||
      o.kind == OutputContractError ||
      o.kind == ControlDisconnected
    requires forall e :: e in events[k + 1..] ==> Spares(Observed(o.kind), e.input)
    ensures var s := Run(start, events).snapshot; var r := Check(deadlineAt, now, true, Some(s));
      s.reasonCode == Observed(o.kind) && s.failure == o.failure && s.failureAt == Some(o.observedAt) &&
      r == if o.kind == ControlDisconnected then FallBack(RuntimeDisconnected)
           else if o.kind == OutputContractError then WaitFor(5000) else FallBack(ProviderOrToolError)
  {
    FaultRemains(start, events, k, o);
    CheckDecides(start, events, deadlineAt, now, true);
  }

  lemma FaultRemains(start: State, events: seq<Event>, k: nat, o: Observation)
    requires Created(start) && k < |events| && events[k].input == Observe(o)
    requires var before := Run(start, events[..k]);
      Ongoing(before.snapshot) && before.snapshot.health != Abnormal && News(before, Observe(o))
    requires o.kind == ProviderRetry || o.kind == ProviderError || o.kind == ToolError ||
      o.kind == OutputContractError ||
      o.kind == ControlDisconnected
    requires forall e :: e in events[k + 1..] ==> Spares(Observed(o.kind), e.input)
    ensures var t := Run(start, events).snapshot;
      t.stage == Retrying && t.health == Abnormal && t.reasonCode == Observed(o.kind) && t.failure == o.failure &&
      t.failureAt == Some(o.observedAt)
  {
    FaultStrikes(start, events, k, o);
    RunIsCoherent(start, events[..k + 1]);
    FaultStands(Run(start, events[..k + 1]), events[k + 1..]);
    RunFrom(start, events, k + 1);
  }

  lemma RunFrom(start: State, events: seq<Event>, k: nat)
    requires k <= |events|
    ensures Run(start, events) == Run(Run(start, events[..k]), events[k..])
  {
    RunInTwo(start, events[..k], events[k..]);
    assert events[..k] + events[k..] == events;
  }

  lemma FaultStrikes(start: State, events: seq<Event>, k: nat, o: Observation)
    requires k < |events| && events[k].input == Observe(o)
    requires var before := Run(start, events[..k]);
      Ongoing(before.snapshot) && before.snapshot.health != Abnormal && News(before, Observe(o))
    requires o.kind == ProviderRetry || o.kind == ProviderError || o.kind == ToolError ||
      o.kind == OutputContractError ||
      o.kind == ControlDisconnected
    ensures var t := Run(start, events[..k + 1]).snapshot;
      t.stage == Retrying && t.health == Abnormal && t.reasonCode == Observed(o.kind) && t.failure == o.failure &&
      t.failureAt == Some(o.observedAt)
  {
    assert events[..k + 1][..k] == events[..k];
    FaultMoves(Run(start, events[..k]), o, events[k].now, events[k].silenceMs);
  }
}
