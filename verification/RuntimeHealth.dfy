/**
  Supervision of one runtime invocation: a reducer from observations, ticks and wait requests to a
  health snapshot, and the execution-budget check that reads it.
 */
module RuntimeHealth {

  import opened Options
  import opened ScriptValues

  datatype Identity = Identity(sessionId: string, operationId: string, invocationId: string, sessionGeneration: int,
                               observerEpoch: string)

  datatype Kind =
    | RequestStarted | RequestAcknowledged
    | ReasoningProgress | TextProgress | ToolInputProgress | ToolStarted | ToolProgress | ToolCompleted
    | SubmissionAccepted
    | TransportAlive
    | ProviderRetry | ProviderError | ToolError | OutputContractError | ControlDisconnected
    | ProcessExited | TerminalReceived | ProbeResult | StopRequested | StopUnconfirmed

  datatype Stage =
    | Starting | AwaitingResponse | Reasoning | Responding | ToolRunning | Retrying | UnknownWait | Stopping | Terminal
  datatype Health = Progressing | Unclear | Abnormal | Ended
  datatype Cause = RequestPending | NoObservableProgress | ProbeTimedOut | ProbeUnsupported | Observed(kind: Kind)
  datatype ProcessStatus = Alive | Exited | ProcessUnknown
  datatype RequestStatus = Pending | Receiving | RequestEnded | RequestUnknown
  datatype ProbeStatus = ProbeOk | ProbeRefused | ProbeTimeout
  datatype Capability = Supported | Unsupported | CapabilityUnknown
  datatype Capabilities = Capabilities(
    progressEvents: Capability, reasoningEvents: Capability, processProbe: Capability,
    requestLifecycle: Capability, providerRequestQuery: Capability)
  datatype FailureCode =
    | RateLimit | UpstreamError | StreamInterrupted | Authentication | ProviderFailure
    | ToolFailure | OutputContract | Disconnected | ProcessGone
  datatype Failure = Failure(code: FailureCode, httpStatus: Option<int>, retryAttempt: Option<int>,
                             maxRetries: Option<int>, retryDelayMs: Option<int>)
  datatype Count = Finite(value: real) | NotFinite

  datatype Observation = Observation(
    identity: Identity, sequence: int, observedAt: string, source: string, kind: Kind,
    eventId: string, count: Option<Count>,
    processStatus: Option<ProcessStatus>, requestStatus: Option<RequestStatus>, probeStatus: Option<ProbeStatus>,
    failure: Option<Failure>)

  datatype Input = Observe(o: Observation) | Tick(observedAt: string) | Wait(observedAt: string)

  datatype Snapshot = Snapshot(
    identity: Identity, version: int, stage: Stage, health: Health, reasonCode: Cause, capabilities: Capabilities,
    processStatus: ProcessStatus, requestStatus: RequestStatus, updatedAt: string,
    lastProgressAt: Option<string>, lastTransportAt: Option<string>, lastProbeAt: Option<string>,
    unknownSince: Option<string>, lastWaitAcknowledgedAt: Option<string>,
    observationDue: bool, canWait: bool, canStop: bool, historical: bool,
    failure: Option<Failure>, failureAt: Option<string>)

  datatype State = State(snapshot: Snapshot, startedMono: int, lastProgressMono: int, lastSequence: int,
                         seen: seq<string>)

  const SEEN_LIMIT: nat := 4096

  function UnknownCapabilities(): Capabilities {
    Capabilities(CapabilityUnknown, CapabilityUnknown, Unsupported, CapabilityUnknown, Unsupported)
  }

  /** `createRuntimeHealthState`. */
  function Create(identity: Identity, startedAt: string, version: Option<int>, capabilities: Option<Capabilities>,
                  now: int): State {
    State(
      Snapshot(identity, if version.Some? then version.value else 1, AwaitingResponse, Unclear, RequestPending,
               if capabilities.Some? then capabilities.value else UnknownCapabilities(),
               ProcessUnknown, RequestUnknown, startedAt, None, None, None, None, None, false, false, true, false, None,
               None),
      now, now, -1, [])
  }

  predicate IsProgress(kind: Kind) {
    kind.ReasoningProgress? || kind.TextProgress? || kind.ToolInputProgress? || kind.ToolStarted? ||
    kind.ToolProgress? || kind.ToolCompleted? || kind.SubmissionAccepted?
  }

  predicate IsFault(kind: Kind) {
    kind.ProviderRetry? || kind.ProviderError? || kind.ToolError? || kind.OutputContractError? ||
    kind.ControlDisconnected?
  }

  predicate FromProvider(cause: Cause) {
    cause == Observed(ProviderRetry) || cause == Observed(ProviderError)
  }

  predicate ProcessFailed(s: Snapshot) {
    s.failure.Some? && s.failure.value.code == ProcessGone
  }

  predicate IrreversibleFailure(s: Snapshot) {
    s.reasonCode == Observed(ControlDisconnected) || ProcessFailed(s)
  }

  /** An observation of this invocation, newer than all before. */
  predicate Admissible(state: State, o: Observation) {
    o.identity == state.snapshot.identity && SafeInteger(o.sequence) && o.sequence > state.lastSequence
  }

  function KeyOf(o: Observation): Option<string> {
    if o.eventId == "" then None else Some(o.source + ":" + o.eventId)
  }

  predicate Duplicate(state: State, o: Observation) {
    KeyOf(o).Some? && KeyOf(o).value in state.seen
  }

  function LastOf<T>(s: seq<T>, n: nat): seq<T> {
    if |s| <= n then s else s[|s| - n..]
  }

  predicate BadCount(o: Observation) {
    o.count.Some? && (o.count.value.NotFinite? || o.count.value.value <= 0.0)
  }

  /** While stopping, only these still count. */
  predicate EndsStop(kind: Kind) {
    kind.TerminalReceived? || kind.StopUnconfirmed? || kind.ProcessExited?
  }

  /** Closing lines of the reducer. */
  function Stamp(s: Snapshot, observedAt: string): Snapshot {
    s.(version := s.version + 1, updatedAt := observedAt)
  }

  function StageFor(kind: Kind): Stage {
    if kind.ReasoningProgress? then Reasoning
    else if kind.TextProgress? then Responding
    else if kind.ToolCompleted? || kind.SubmissionAccepted? then AwaitingResponse
    else ToolRunning
  }

  /** A fault that this sign of progress does not clear. */
  predicate PreservesFailure(current: Snapshot, kind: Kind) {
    current.health == Abnormal &&
    (IrreversibleFailure(current) ||
     (current.reasonCode == Observed(OutputContractError) && !kind.SubmissionAccepted?) ||
     (FromProvider(current.reasonCode) && (kind.ToolProgress? || kind.ToolCompleted?)))
  }

  /** The snapshot after an observation has been taken in, before `current` is consulted by kind. */
  function TakeStatus(current: Snapshot, o: Observation): Snapshot {
    var s := if o.processStatus.Some? && !ProcessFailed(current) then current.(processStatus := o.processStatus.value)
      else current;
    if o.requestStatus.Some? then s.(requestStatus := o.requestStatus.value) else s
  }

  function OnProgress(current: Snapshot, s: Snapshot, o: Observation): Snapshot {
    var caps := s.capabilities.(progressEvents := Supported);
    var t := s.(capabilities := if o.kind.ReasoningProgress? then caps.(reasoningEvents := Supported) else caps,
                lastProgressAt := Some(o.observedAt));
    if PreservesFailure(current, o.kind) then t
    else t.(failure := None, failureAt := None, health := Progressing, reasonCode := Observed(o.kind),
            observationDue := false, canWait := false, unknownSince := None, stage := StageFor(o.kind),
            requestStatus := if o.kind.ReasoningProgress? || o.kind.TextProgress? || o.kind.ToolInputProgress?
                             then Receiving else s.requestStatus)
  }

  function OnRequest(current: Snapshot, s: Snapshot): Snapshot {
    var t := s.(capabilities := s.capabilities.(requestLifecycle := Supported), requestStatus := Pending);
    if current.stage != UnknownWait && current.health != Abnormal then t.(stage := AwaitingResponse) else t
  }

  function Since(current: Snapshot, at: string): Option<string> {
    if current.unknownSince.Some? then current.unknownSince else Some(at)
  }

  function OnProbe(current: Snapshot, s: Snapshot, o: Observation): Snapshot {
    var support := if o.probeStatus == Some(ProbeRefused) then Unsupported else Supported;
    var t := s.(capabilities := s.capabilities.(processProbe := support),
                lastProbeAt := Some(o.observedAt));
    if o.probeStatus == Some(ProbeOk) && o.processStatus == Some(Exited) then
      t.(stage := Retrying, health := Abnormal, reasonCode := Observed(ProviderError), canWait := false,
         failure := Some(Failure(ProcessGone, None, None, None, None)), failureAt := Some(o.observedAt))
    else if o.probeStatus != Some(ProbeOk) && current.health != Abnormal then
      t.(stage := UnknownWait, health := Unclear,
         reasonCode := if o.probeStatus == Some(ProbeTimeout) then ProbeTimedOut else ProbeUnsupported,
         canWait := true, unknownSince := Since(current, o.observedAt), observationDue := true)
    else t
  }

  function OnFault(current: Snapshot, s: Snapshot, o: Observation): Snapshot {
    if current.health == Abnormal &&
      (IrreversibleFailure(current) || (FromProvider(current.reasonCode) && o.kind.ToolError?)) then s
    else s.(stage := Retrying, health := Abnormal, reasonCode := Observed(o.kind), canWait := false,
            failure := o.failure, failureAt := Some(o.observedAt))
  }

  /** The branch on the kind of an observation that is neither foreign, stale nor a duplicate. */
  function OnKind(current: Snapshot, o: Observation): Snapshot {
    var s := TakeStatus(current, o);
    if IsProgress(o.kind) then OnProgress(current, s, o)
    else if o.kind.TransportAlive? then s.(lastTransportAt := Some(o.observedAt))
    else if o.kind.RequestStarted? || o.kind.RequestAcknowledged? then OnRequest(current, s)
    else if o.kind.ProbeResult? then OnProbe(current, s, o)
    else if IsFault(o.kind) then OnFault(current, s, o)
    else if o.kind.StopRequested? || o.kind.StopUnconfirmed? then
      s.(stage := Stopping, health := if o.kind.StopUnconfirmed? then Abnormal else Unclear,
         reasonCode := Observed(o.kind), canWait := false, canStop := false)
    else
      s.(stage := Terminal, health := Ended, reasonCode := Observed(o.kind), processStatus := Exited,
         requestStatus := RequestEnded, canWait := false, canStop := false)
  }

  function OnObservation(state: State, o: Observation, now: int): State {
    var current := state.snapshot;
    if !Admissible(state, o) then state
    else if Duplicate(state, o) then state.(lastSequence := o.sequence)
    else
      var seen := if KeyOf(o).Some? then LastOf(state.seen, SEEN_LIMIT - 1) + [KeyOf(o).value] else state.seen;
      var next := state.(lastSequence := o.sequence, seen := seen);
      if current.stage == Stopping && !EndsStop(o.kind) then next
      else if IsProgress(o.kind) && BadCount(o) then state.(lastSequence := o.sequence)
      else
        next.(snapshot := Stamp(OnKind(current, o), o.observedAt),
              lastProgressMono := if IsProgress(o.kind) then now else state.lastProgressMono)
  }

  /** `reduceRuntimeHealth`. */
  function Reduce(state: State, input: Input, now: int, silenceMs: int): State {
    var current := state.snapshot;
    if current.stage == Terminal then state
    else match input
      case Tick(observedAt) =>
        if current.stage == Stopping || current.health == Abnormal || now - state.lastProgressMono < silenceMs ||
          current.stage == UnknownWait then state
        else
          var silent := current.(stage := UnknownWait, health := Unclear, reasonCode := NoObservableProgress,
                                 unknownSince := Since(current, observedAt), observationDue := true, canWait := true);
          state.(snapshot := Stamp(silent, observedAt))
      case Wait(observedAt) =>
        if !current.canWait || current.stage != UnknownWait then state
        else state.(snapshot := Stamp(current.(lastWaitAcknowledgedAt := Some(observedAt)), observedAt))
      case Observe(o) => OnObservation(state, o, now)
  }

  // ---------------------------------------------------------------- runs

  datatype Event = Event(input: Input, now: int, silenceMs: int)

  function Run(state: State, events: seq<Event>): State {
    if events == [] then state
    else
      var n := |events| - 1;
      Reduce(Run(state, events[..n]), events[n].input, events[n].now, events[n].silenceMs)
  }

  ghost predicate Created(state: State) {
    exists identity, startedAt, version, capabilities, now :: state ==
      Create(identity, startedAt, version, capabilities, now)
  }

  /** What every reachable snapshot satisfies. */
  ghost predicate Coherent(s: Snapshot) {
    (s.canWait <==> s.stage == UnknownWait) &&
    (s.canStop <==> s.stage != Stopping && s.stage != Terminal) &&
    (s.stage == Retrying <==> s.health == Abnormal && s.stage != Stopping) &&
    (s.stage == Terminal <==> s.health == Ended) &&
    (s.stage == Stopping ==> s.health != Progressing) &&
    (s.stage == Retrying ==> s.reasonCode.Observed? && IsFault(s.reasonCode.kind))
  }

  function Phase(s: Snapshot): nat {
    if s.stage == Terminal then 2 else if s.stage == Stopping then 1 else 0
  }

  /** What handling one observation does to a coherent snapshot, before it is stamped. */
  ghost predicate Handled(current: Snapshot, next: Snapshot) {
    Coherent(next) && Phase(current) <= Phase(next) && next.version == current.version &&
    next.identity == current.identity && next.historical == current.historical
  }

  /** Agreement on everything the invariants speak of. */
  ghost predicate SameCore(a: Snapshot, b: Snapshot) {
    a.identity == b.identity && a.version == b.version && a.stage == b.stage && a.health == b.health &&
    a.reasonCode == b.reasonCode && a.canWait == b.canWait && a.canStop == b.canStop &&
    a.historical == b.historical && a.failure == b.failure
  }

  lemma TakeStatusKeepsCore(current: Snapshot, o: Observation)
    ensures SameCore(current, TakeStatus(current, o))
  {
  }

  lemma ProgressHandled(current: Snapshot, s: Snapshot, o: Observation)
    requires Coherent(current) && SameCore(current, s) && Phase(current) == 0 && IsProgress(o.kind)
    ensures Handled(current, OnProgress(current, s, o))
    ensures Lost(current) ==> Lost(OnProgress(current, s, o))
  {
  }

  lemma RequestHandled(current: Snapshot, s: Snapshot)
    requires Coherent(current) && SameCore(current, s) && Phase(current) == 0
    ensures Handled(current, OnRequest(current, s))
    ensures Lost(current) ==> Lost(OnRequest(current, s))
  {
  }

  lemma ProbeHandled(current: Snapshot, s: Snapshot, o: Observation)
    requires Coherent(current) && SameCore(current, s) && Phase(current) == 0
    ensures Handled(current, OnProbe(current, s, o))
    ensures Lost(current) ==> Lost(OnProbe(current, s, o))
  {
  }

  lemma FaultHandled(current: Snapshot, s: Snapshot, o: Observation)
    requires Coherent(current) && SameCore(current, s) && Phase(current) == 0 && IsFault(o.kind)
    ensures Handled(current, OnFault(current, s, o))
    ensures Lost(current) ==> Lost(OnFault(current, s, o))
  {
  }

  /** Evidence that something failed, as opposed to silence. */
  predicate FaultEvidence(input: Input) {
    input.Observe? && (IsFault(input.o.kind) ||
                       (input.o.kind.ProbeResult? && input.o.probeStatus == Some(ProbeOk) &&
                        input.o.processStatus == Some(Exited)))
  }

  /** Abnormal only because a stop could not be confirmed. */
  ghost predicate Unalarmed(s: Snapshot) {
    s.health == Abnormal ==> s.stage == Stopping
  }

  lemma KindHandled(current: Snapshot, o: Observation)
    requires Coherent(current) && current.stage != Terminal && (current.stage == Stopping ==> EndsStop(o.kind))
    ensures Handled(current, OnKind(current, o))
    ensures Lost(current) ==> Lost(OnKind(current, o)) || Phase(OnKind(current, o)) > 0
    ensures Unalarmed(current) && !FaultEvidence(Observe(o)) ==> Unalarmed(OnKind(current, o))
  {
    var s := TakeStatus(current, o);
    TakeStatusKeepsCore(current, o);
    if IsProgress(o.kind) { ProgressHandled(current, s, o); }
    else if o.kind.TransportAlive? { }
    else if o.kind.RequestStarted? || o.kind.RequestAcknowledged? { RequestHandled(current, s); }
    else if o.kind.ProbeResult? { ProbeHandled(current, s, o); }
    else if IsFault(o.kind) { FaultHandled(current, s, o); }
  }

  /** The invocation has lost its control connection or its process and is not being stopped. */
  ghost predicate Lost(s: Snapshot) {
    s.health == Abnormal && s.stage != Stopping && IrreversibleFailure(s)
  }

  /** A later state of the same invocation: no phase, version or sequence ever goes back, and a
      terminal state stays exactly as it is. */
  ghost predicate Later(state: State, next: State) {
    Coherent(next.snapshot) && |next.seen| <= SEEN_LIMIT &&
    Phase(state.snapshot) <= Phase(next.snapshot) && (state.snapshot.stage == Terminal ==> next == state) &&
    state.snapshot.version <= next.snapshot.version &&
    state.lastSequence <= next.lastSequence &&
    next.snapshot.identity == state.snapshot.identity && next.snapshot.historical == state.snapshot.historical
  }

  /** Every input leads to a later state, and raises the version by one exactly when it changes the snapshot. */
  lemma StepIsLater(state: State, e: Event)
    requires Coherent(state.snapshot) && |state.seen| <= SEEN_LIMIT
    ensures var next := Reduce(state, e.input, e.now, e.silenceMs);
      Later(state, next) &&
      (next.snapshot == state.snapshot || next.snapshot.version == state.snapshot.version + 1)
  {
    if e.input.Observe? && state.snapshot.stage != Terminal {
      var o := e.input.o;
      if Admissible(state, o) && !Duplicate(state, o) && (state.snapshot.stage == Stopping ==> EndsStop(o.kind)) {
        KindHandled(state.snapshot, o);
      }
    }
  }

  lemma LaterTransitive(a: State, b: State, c: State)
    requires Later(a, b) && Later(b, c)
    ensures Later(a, c)
  {
  }

  lemma {:induction false} RunIsCoherent(start: State, events: seq<Event>)
    requires Created(start)
    ensures Coherent(Run(start, events).snapshot) && |Run(start, events).seen| <= SEEN_LIMIT
    ensures Run(start, events).snapshot.version <= start.snapshot.version + |events|
  {
    if events != [] {
      var n := |events| - 1;
      RunIsCoherent(start, events[..n]);
      StepIsLater(Run(start, events[..n]), events[n]);
    }
  }

  /** Along every run from a fresh state, each point is later than every earlier point. */
  lemma {:induction false} RunIsLater(start: State, events: seq<Event>, k: nat)
    requires Created(start) && k <= |events|
    ensures Later(Run(start, events[..k]), Run(start, events))
    decreases |events|
  {
    if k == |events| {
      assert events[..k] == events;
      RunIsCoherent(start, events);
    } else {
      var n := |events| - 1;
      RunIsLater(start, events[..n], k);
      assert events[..n][..k] == events[..k];
      LastStepIsLater(start, events);
      LaterTransitive(Run(start, events[..k]), Run(start, events[..n]), Run(start, events));
    }
  }

  lemma LastStepIsLater(start: State, events: seq<Event>)
    requires Created(start) && events != []
    ensures Later(Run(start, events[..|events| - 1]), Run(start, events))
  {
    var n := |events| - 1;
    RunIsCoherent(start, events[..n]);
    StepIsLater(Run(start, events[..n]), events[n]);
  }

  // ---------------------------------------------------------------- what is ignored

  /** Foreign, stale and repeated observations leave the snapshot alone, as does invalid progress;
      otherwise an observation of a live invocation does change it. */
  lemma IgnoredExactly(state: State, o: Observation, now: int, silenceMs: int)
    requires Coherent(state.snapshot)
    ensures Reduce(state, Observe(o), now, silenceMs).snapshot == state.snapshot <==>
            state.snapshot.stage == Terminal || !Admissible(state, o) || Duplicate(state, o) ||
            (state.snapshot.stage == Stopping && !EndsStop(o.kind)) || (IsProgress(o.kind) && BadCount(o))
  {
    if state.snapshot.stage != Terminal && Admissible(state, o) && !Duplicate(state, o) &&
       (state.snapshot.stage == Stopping ==> EndsStop(o.kind)) {
      KindHandled(state.snapshot, o);
    }
  }

  /** The observation was neither foreign, stale, repeated nor invalid, so its key was remembered. */
  predicate Accepted(state: State, input: Input) {
    input.Observe? && state.snapshot.stage != Terminal && Admissible(state, input.o) && !Duplicate(state, input.o) &&
    (state.snapshot.stage == Stopping || !(IsProgress(input.o.kind) && BadCount(input.o)))
  }

  /** The keys of all accepted observations of a run, oldest first. */
  function AcceptedKeys(start: State, events: seq<Event>): seq<string> {
    if events == [] then []
    else
      var n := |events| - 1;
      var input := events[n].input;
      AcceptedKeys(start, events[..n]) + NewKey(Run(start, events[..n]), input)
  }

  /** The key that an accepted observation carries, if any. */
  function NewKey(state: State, input: Input): (keys: seq<string>)
    ensures |keys| <= 1
  {
    if Accepted(state, input) && KeyOf(input.o).Some? then [KeyOf(input.o).value] else []
  }

  lemma StepRemembers(state: State, e: Event)
    ensures Reduce(state, e.input, e.now, e.silenceMs).seen ==
            if NewKey(state, e.input) == [] then state.seen
              else LastOf(state.seen, SEEN_LIMIT - 1) + NewKey(state, e.input)
  {
  }

  lemma WindowGrows(keys: seq<string>, more: seq<string>)
    requires |more| <= 1
    ensures LastOf(keys + more, SEEN_LIMIT) ==
            if more == [] then LastOf(keys, SEEN_LIMIT) else LastOf(LastOf(keys, SEEN_LIMIT), SEEN_LIMIT - 1) + more
  {
    if more == [] { assert keys + more == keys; } else { LastOfAppend(keys, more[0]); }
  }

  lemma LastOfAppend(s: seq<string>, x: string)
    ensures LastOf(LastOf(s, SEEN_LIMIT), SEEN_LIMIT - 1) + [x] == LastOf(s + [x], SEEN_LIMIT)
  {
  }

  /** The deduplication window is exactly the last 4096 keys accepted in the whole history. */
  lemma {:induction false} WindowIsHistory(start: State, events: seq<Event>)
    requires Created(start)
    ensures Run(start, events).seen == LastOf(AcceptedKeys(start, events), 4096)
  {
    if events != [] {
      var n := |events| - 1;
      WindowIsHistory(start, events[..n]);
      StepRemembers(Run(start, events[..n]), events[n]);
      WindowGrows(AcceptedKeys(start, events[..n]), NewKey(Run(start, events[..n]), events[n].input));
    }
  }

  /** An event already accepted among the last 4096 keyed ones never changes the snapshot again. */
  lemma RetransmissionIgnored(start: State, events: seq<Event>, o: Observation, now: int, silenceMs: int)
    requires Created(start) && KeyOf(o).Some?
    requires KeyOf(o).value in LastOf(AcceptedKeys(start, events), SEEN_LIMIT)
    ensures Reduce(Run(start, events), Observe(o), now, silenceMs).snapshot == Run(start, events).snapshot
    ensures Reduce(Run(start, events), Observe(o), now, silenceMs).lastProgressMono ==
      Run(start, events).lastProgressMono
  {
    WindowIsHistory(start, events);
  }

  // ---------------------------------------------------------------- faults

  lemma StepKeepsLoss(state: State, e: Event)
    requires Coherent(state.snapshot) && |state.seen| <= SEEN_LIMIT
    requires Lost(state.snapshot) || Phase(state.snapshot) > 0
    ensures var next := Reduce(state, e.input, e.now, e.silenceMs).snapshot; Lost(next) || Phase(next) > 0
  {
    StepIsLater(state, e);
    if Phase(state.snapshot) == 0 && e.input.Observe? { KindHandled(state.snapshot, e.input.o); }
  }

  lemma {:induction false} RunKeepsLoss(state: State, events: seq<Event>)
    requires Coherent(state.snapshot) && |state.seen| <= SEEN_LIMIT
    requires Lost(state.snapshot) || Phase(state.snapshot) > 0
    ensures var end := Run(state, events);
      Coherent(end.snapshot) && |end.seen| <= SEEN_LIMIT && (Lost(end.snapshot) || Phase(end.snapshot) > 0)
  {
    if events != [] {
      var n := |events| - 1;
      RunKeepsLoss(state, events[..n]);
      StepIsLater(Run(state, events[..n]), events[n]);
      StepKeepsLoss(Run(state, events[..n]), events[n]);
    }
  }

  lemma {:induction false} RunInTwo(state: State, first: seq<Event>, second: seq<Event>)
    ensures Run(state, first + second) == Run(Run(state, first), second)
    decreases second
  {
    if second == [] {
      assert first + second == first;
    } else {
      var n := |second| - 1;
      assert (first + second)[..|first| + n] == first + second[..n];
      RunInTwo(state, first, second[..n]);
    }
  }

  lemma StaysLost(start: State, events: seq<Event>, k: nat)
    requires Created(start) && k <= |events|
    requires Lost(Run(start, events[..k]).snapshot)
    ensures Lost(Run(start, events).snapshot) || Phase(Run(start, events).snapshot) > 0
  {
    RunIsCoherent(start, events[..k]);
    RunKeepsLoss(Run(start, events[..k]), events[k..]);
    RunInTwo(start, events[..k], events[k..]);
    assert events[..k] + events[k..] == events;
  }

  /** An irreversible fault is never masked: the only ways out are stopping and terminal, and no
      continuation reports progress again. */
  lemma LossIsNeverMasked(start: State, events: seq<Event>, k: nat)
    requires Created(start) && k <= |events|
    requires Lost(Run(start, events[..k]).snapshot)
    ensures var s := Run(start, events).snapshot;
      (Lost(s) || s.stage == Stopping || s.stage == Terminal) && s.health != Progressing
  {
    StaysLost(start, events, k);
    RunIsCoherent(start, events);
  }

  /** Input that leaves an unresolved fault as it is: a late tool result does not prove the provider recovered,
      and only an accepted submission answers a broken output contract. */
  predicate Spares(reason: Cause, input: Input) {
    match input
    case Tick(_) => true
    case Wait(_) => true
    case Observe(o) =>
      o.kind.TransportAlive? || o.kind.RequestStarted? || o.kind.RequestAcknowledged? ||
      (o.kind.ProbeResult? && !(o.probeStatus == Some(ProbeOk) && o.processStatus == Some(Exited))) ||
      (FromProvider(reason) && (o.kind.ToolError? || o.kind.ToolProgress? || o.kind.ToolCompleted?)) ||
      (reason == Observed(OutputContractError) && IsProgress(o.kind) && !o.kind.SubmissionAccepted?)
  }

  ghost predicate SameFault(a: Snapshot, b: Snapshot) {
    a.stage == b.stage && a.health == b.health && a.reasonCode == b.reasonCode && a.failure == b.failure &&
    a.failureAt == b.failureAt
  }

  lemma StepSparesFault(state: State, e: Event)
    requires Coherent(state.snapshot) && state.snapshot.health == Abnormal && Phase(state.snapshot) == 0
    requires Spares(state.snapshot.reasonCode, e.input)
    ensures SameFault(state.snapshot, Reduce(state, e.input, e.now, e.silenceMs).snapshot)
  {
    if e.input.Observe? { ObservationSparesFault(state.snapshot, e.input.o); }
  }

  lemma ObservationSparesFault(current: Snapshot, o: Observation)
    requires Coherent(current) && current.health == Abnormal && Phase(current) == 0 &&
      Spares(current.reasonCode, Observe(o))
    ensures SameFault(current, OnKind(current, o))
  {
    var s := TakeStatus(current, o);
    assert SameFault(current, s);
    if IsProgress(o.kind) {
      ProgressSparesFault(current, s, o);
    } else if o.kind.ProbeResult? {
      ProbeSparesFault(current, s, o);
    }
  }

  lemma ProgressSparesFault(current: Snapshot, s: Snapshot, o: Observation)
    requires current.health == Abnormal && SameFault(current, s) && IsProgress(o.kind) &&
      Spares(current.reasonCode, Observe(o))
    ensures SameFault(current, OnProgress(current, s, o))
  {
    assert PreservesFailure(current, o.kind);
  }

  lemma ProbeSparesFault(current: Snapshot, s: Snapshot, o: Observation)
    requires current.health == Abnormal && SameFault(current, s) && o.kind.ProbeResult? &&
      Spares(current.reasonCode, Observe(o))
    ensures SameFault(current, OnProbe(current, s, o))
  {
  }

  /** However long such input goes on, the fault stands, with its first cause and time. */
  lemma {:induction false} FaultStands(state: State, events: seq<Event>)
    requires Coherent(state.snapshot) && |state.seen| <= SEEN_LIMIT && state.snapshot.health == Abnormal &&
      Phase(state.snapshot) == 0
    requires forall e :: e in events ==> Spares(state.snapshot.reasonCode, e.input)
    ensures var end := Run(state, events);
      Coherent(end.snapshot) && |end.seen| <= SEEN_LIMIT && SameFault(state.snapshot, end.snapshot)
  {
    if events != [] {
      var n := |events| - 1;
      FaultStands(state, events[..n]);
      StepIsLater(Run(state, events[..n]), events[n]);
      StepSparesFault(Run(state, events[..n]), events[n]);
    }
  }

  /** Anything else that is taken in ends a fault that can be recovered from: by progress, by the stop, or by a newer
      fault. */
  lemma OthersEndFault(state: State, o: Observation, now: int, silenceMs: int)
    requires Coherent(state.snapshot) && state.snapshot.health == Abnormal && Phase(state.snapshot) == 0
    requires !IrreversibleFailure(state.snapshot) && Accepted(state, Observe(o)) &&
      !Spares(state.snapshot.reasonCode, Observe(o))
    ensures var next := Reduce(state, Observe(o), now, silenceMs).snapshot;
      if IsProgress(o.kind) then
        next.health == Progressing && next.failure == None && next.reasonCode == Observed(o.kind)
      else if IsFault(o.kind) then
        next.health == Abnormal && next.reasonCode == Observed(o.kind) && next.failure == o.failure &&
        next.failureAt == Some(o.observedAt)
      else if o.kind.ProbeResult? then Lost(next) && next.failureAt == Some(o.observedAt)
      else Phase(next) > 0
  {
    assert TakeStatus(state.snapshot, o).health == Abnormal;
  }

  // ---------------------------------------------------------------- the budget check

  datatype FallbackReason = RuntimeDisconnected | ProviderOrToolError
  datatype Budget = WaitFor(waitMs: int) | FallBack(reason: FallbackReason)

  /** `ExecutionBudgetHealth.check`. */
  function Check(deadlineAt: int, now: int, connected: bool, health: Option<Snapshot>): Budget {
    if now < deadlineAt then WaitFor(deadlineAt - now)
    else if health.Some? && (health.value.stage == Terminal || health.value.stage == Stopping) then WaitFor(5000)
    else if !connected then FallBack(RuntimeDisconnected)
    else if health.Some? && !health.value.historical && health.value.health == Abnormal &&
            (FromProvider(health.value.reasonCode) || health.value.reasonCode == Observed(ToolError) ||
             health.value.reasonCode == Observed(ControlDisconnected)) then
      FallBack(if health.value.reasonCode == Observed(ControlDisconnected) then RuntimeDisconnected
               else ProviderOrToolError)
    else WaitFor(5000)
  }

  lemma StepWithoutFault(state: State, e: Event)
    requires Coherent(state.snapshot) && !FaultEvidence(e.input) && Unalarmed(state.snapshot)
    ensures Unalarmed(Reduce(state, e.input, e.now, e.silenceMs).snapshot)
  {
    if e.input.Observe? && state.snapshot.stage != Terminal &&
      (state.snapshot.stage == Stopping ==> EndsStop(e.input.o.kind)) {
      KindHandled(state.snapshot, e.input.o);
    }
  }

  lemma {:induction false} NoFaultNoAlarm(start: State, events: seq<Event>)
    requires Created(start)
    requires forall e :: e in events ==> !FaultEvidence(e.input)
    ensures Unalarmed(Run(start, events).snapshot)
  {
    if events != [] {
      var n := |events| - 1;
      NoFaultNoAlarm(start, events[..n]);
      RunIsCoherent(start, events[..n]);
      StepWithoutFault(Run(start, events[..n]), events[n]);
    }
  }

  /** However long the silence, the budget never falls back while connected without evidence of a fault. */
  lemma SilenceNeverFallsBack(start: State, events: seq<Event>, deadlineAt: int, now: int)
    requires Created(start)
    requires forall e :: e in events ==> !FaultEvidence(e.input)
    ensures Check(deadlineAt, now, true, Some(Run(start, events).snapshot)).WaitFor?
  {
    NoFaultNoAlarm(start, events);
  }

  /** After the deadline a lost invocation that is not being stopped does fall back, whatever followed
      the loss, unless it is connected and the fault on record is an output-contract error. */
  lemma LossFallsBack(start: State, events: seq<Event>, k: nat, deadlineAt: int, now: int, connected: bool)
    requires Created(start) && k <= |events| && now >= deadlineAt
    requires Lost(Run(start, events[..k]).snapshot) && Phase(Run(start, events).snapshot) == 0
    ensures Check(deadlineAt, now, connected, Some(Run(start, events).snapshot)).FallBack? <==>
            !connected || Run(start, events).snapshot.reasonCode != Observed(OutputContractError)
  {
    StaysLost(start, events, k);
    RunIsLater(start, events, 0);
    CheckLost(Run(start, events).snapshot, deadlineAt, now, connected);
  }

  lemma CheckLost(s: Snapshot, deadlineAt: int, now: int, connected: bool)
    requires Coherent(s) && Lost(s) && !s.historical && now >= deadlineAt
    ensures Check(deadlineAt, now, connected, Some(s)).FallBack? <==>
      !connected || s.reasonCode != Observed(OutputContractError)
  {
  }

  /** The run on which it waits: the first report is an output-contract error that gives the exit of the process. */
  lemma ContractErrorWaits(identity: Identity, at: string, source: string, started: int, now: int, deadlineAt: int)
    requires now >= deadlineAt
    ensures var start := Create(identity, at, None, None, started);
      var failure := Failure(ProcessGone, None, None, None, None);
      var o := Observation(identity, 0, at, source, OutputContractError, "", None, None, None, None, Some(failure));
      var end := Run(start, [Event(Observe(o), now, 0)]).snapshot;
      Created(start) && Lost(end) && Check(deadlineAt, now, true, Some(end)).WaitFor?
  {
    var start := Create(identity, at, None, None, started);
    var failure := Failure(ProcessGone, None, None, None, None);
    var o := Observation(identity, 0, at, source, OutputContractError, "", None, None, None, None, Some(failure));
    var events := [Event(Observe(o), now, 0)];
    assert events[..0] == [];
    assert Run(start, events) == Reduce(start, Observe(o), now, 0);
  }
}
