/**
  The stop receipts of the Local Runtime bridge: recorded when an invocation has exited, sent again on every
  heartbeat and reconnection, and forgotten on acknowledgement. Each method is one uninterrupted stretch of the
  source's code, so that any sequence of calls is an interleaving of invocations, connections and messages.
 */
module StopReceipts {

  import opened Options
  import opened StopReceiptHistory

  datatype Socket = Connecting | Open | Closed
  datatype Connection = Connection(socket: Socket, stopReceiptProtocol: bool, active: set<string>)

  /** How far the handling of an `invocation.start` message has come; it may end at any stage past the first. */
  datatype Stage =
    | Admitted
    | Running
    | Exited(receipt: Receipt)
    | Saved(receipt: Receipt)
    | Reported(receipt: Receipt)
    | Settled
    | Abandoned(receipt: Receipt)

  datatype Flight = Flight(connection: nat, invocationId: string, workspaceId: string, stage: Stage)

  datatype StartError = UnregisteredWorkspace | DuplicateInvocation | StopReceiptBacklog
  datatype StartResult = Started(flight: nat) | Refused(error: StartError)

  const MAX_PENDING := 256

  /** The fields of the bridge, and what has happened to them. */
  datatype State = State(pending: seq<Receipt>, stateFile: seq<Receipt>, connections: seq<Connection>,
                         flights: seq<Flight>, history: seq<Event>)

  /** `send` gets a stopped message out. */
  predicate Speaks(connection: Connection) {
    connection.socket.Open? && connection.stopReceiptProtocol
  }

  // ---------------------------------------------------------------- what every state keeps

  /** What each variable of a connection says about the history. */
  ghost predicate Tracks(connections: seq<Connection>, history: seq<Event>) {
    (forall c :: 0 <= c < |connections| ==> (Agreed(history, c) <==> Speaks(connections[c]))) &&
    (forall c :: 0 <= c < |connections| && connections[c].socket.Connecting? ==> !connections[c].stopReceiptProtocol) &&
    forall c: nat :: |connections| <= c ==> !Agreed(history, c)
  }

  /** A flight that has exited has its receipt on record, and once past the save, on record in the saved state. */
  ghost predicate Backed(flight: Flight, history: seq<Event>) {
    match flight.stage
    case Exited(r) => r.invocationId == flight.invocationId && Recorded(r) in history
    case Saved(r) => r.invocationId == flight.invocationId && Recorded(r) in UpToSave(history)
    case Reported(r) => r.invocationId == flight.invocationId && Recorded(r) in UpToSave(history)
    case _ => true
  }

  /** The flight has recorded the receipt, and either still waits for the save or has failed there. */
  predicate AwaitsSave(flight: Flight, r: Receipt) {
    flight.stage == Exited(r) || flight.stage == Abandoned(r)
  }

  ghost predicate Awaited(flights: seq<Flight>, r: Receipt) {
    exists f :: 0 <= f < |flights| && AwaitsSave(flights[f], r)
  }

  /** A receipt that is pending and not in the state file is that of a flight between its exit and the save. */
  ghost predicate Claimed(pending: seq<Receipt>, stateFile: seq<Receipt>, flights: seq<Flight>) {
    forall r :: r in pending && r !in stateFile ==> Awaited(flights, r)
  }

  predicate Live(stage: Stage) {
    stage.Running? || stage.Exited? || stage.Saved? || stage.Reported?
  }

  predicate Over(stage: Stage) {
    stage.Settled? || stage.Abandoned?
  }

  predicate At(flight: Flight, c: nat, id: string) {
    flight.connection == c && flight.invocationId == id
  }

  ghost predicate Occupied(flights: seq<Flight>, c: nat, id: string) {
    exists f :: 0 <= f < |flights| && At(flights[f], c, id) && Live(flights[f].stage)
  }

  ghost predicate Vacated(flights: seq<Flight>, c: nat, id: string) {
    exists f :: 0 <= f < |flights| && At(flights[f], c, id) && Over(flights[f].stage)
  }

  /** An id is active on a connection only while a flight of it is live there; and a live flight is active, unless
      another one of the same id has ended there and taken the entry with it. */
  ghost predicate Manned(connections: seq<Connection>, flights: seq<Flight>) {
    forall c, id :: 0 <= c < |connections| ==>
      (id in connections[c].active ==> Occupied(flights, c, id)) &&
      (Occupied(flights, c, id) ==> id in connections[c].active || Vacated(flights, c, id))
  }

  ghost predicate Consistent(s: State) {
    Represents(s.pending, s.history) && Represents(s.stateFile, UpToSave(s.history)) && Honest(s.history) &&
    Tracks(s.connections, s.history) && Claimed(s.pending, s.stateFile, s.flights) &&
    Manned(s.connections, s.flights) &&
    forall f :: 0 <= f < |s.flights| ==> s.flights[f].connection < |s.connections| && Backed(s.flights[f], s.history)
  }

  // ---------------------------------------------------------------- one event further

  lemma AllStillBacked(flights: seq<Flight>, history: seq<Event>, event: Event)
    ensures forall f :: 0 <= f < |flights| && Backed(flights[f], history) ==> Backed(flights[f], history + [event])
  {
    UpToSaveAppend(history, event);
    SavedHappened(history);
  }

  /** An event that neither records nor acknowledges. */
  lemma StillConsistent(s: State, after: seq<Connection>, event: Event)
    requires Consistent(s) && |after| == |s.connections|
    requires forall c :: 0 <= c < |after| ==> after[c].active == s.connections[c].active
    requires event.Negotiated? || event.Disconnected? || event.Sent?
    requires event.Sent? ==> Recorded(event.receipt) in s.history && Agreed(s.history, event.connection)
    requires Tracks(after, s.history + [event])
    ensures Consistent(s.(connections := after, history := s.history + [event]))
  {
    StillRepresents(s.pending, s.history, event);
    UpToSaveAppend(s.history, event);
    HonestAppend(s.history, event);
    AllStillBacked(s.flights, s.history, event);
  }

  lemma StillTracks(connections: seq<Connection>, history: seq<Event>, event: Event)
    requires Tracks(connections, history) && !event.Negotiated? && !event.Disconnected?
    ensures Tracks(connections, history + [event])
  {
    forall c: nat
      ensures Agreed(history + [event], c) == Agreed(history, c)
    {
      AgreedAppend(history, event, c);
    }
  }

  /** A change of one connection, told by the event about it. */
  lemma ChangeTracks(connections: seq<Connection>, history: seq<Event>, c: nat, changed: Connection, event: Event)
    requires Tracks(connections, history) && c < |connections|
    requires (event == Negotiated(c, changed.stopReceiptProtocol) && changed.socket.Open?) ||
             (event == Disconnected(c) && changed.socket.Closed?)
    ensures Tracks(connections[c := changed], history + [event])
  {
    forall d: nat
      ensures Agreed(history + [event], d) == if d == c then Speaks(changed) else Agreed(history, d)
    {
      AgreedAppend(history, event, d);
    }
  }

  lemma ExitIsConsistent(s: State, f: nat, receipt: Receipt)
    requires Consistent(s) && f < |s.flights| && s.flights[f].stage.Running?
    requires receipt.invocationId == s.flights[f].invocationId
    ensures Consistent(s.(pending := Without(s.pending, receipt.invocationId) + [receipt],
                          flights := s.flights[f := s.flights[f].(stage := Exited(receipt))],
                          history := s.history + [Recorded(receipt)]))
  {
    var flights := s.flights[f := s.flights[f].(stage := Exited(receipt))];
    RecordRepresents(s.pending, s.history, receipt);
    UpToSaveAppend(s.history, Recorded(receipt));
    HonestAppend(s.history, Recorded(receipt));
    StillTracks(s.connections, s.history, Recorded(receipt));
    AllStillBacked(s.flights, s.history, Recorded(receipt));
    LiveOn(s.connections, s.flights, f, Exited(receipt));
    forall r | r in Without(s.pending, receipt.invocationId) + [receipt] && r !in s.stateFile
      ensures Awaited(flights, r)
    {
      if r == receipt {
        assert AwaitsSave(flights[f], r);
      } else {
        var g :| 0 <= g < |s.flights| && AwaitsSave(s.flights[g], r);
        assert AwaitsSave(flights[g], r);
      }
    }
  }

  /** A live flight that stays live changes nothing about who is active. */
  lemma LiveOn(connections: seq<Connection>, flights: seq<Flight>, f: nat, stage: Stage)
    requires Manned(connections, flights) && f < |flights| && Live(flights[f].stage) && Live(stage)
    ensures Manned(connections, flights[f := flights[f].(stage := stage)])
  {
    var after := flights[f := flights[f].(stage := stage)];
    forall c: nat, id
      ensures Occupied(after, c, id) <==> Occupied(flights, c, id)
      ensures Vacated(after, c, id) <==> Vacated(flights, c, id)
    {
      assert forall g :: 0 <= g < |flights| ==>
        At(after[g], c, id) == At(flights[g], c, id) && Live(after[g].stage) == Live(flights[g].stage) &&
        Over(after[g].stage) == Over(flights[g].stage);
    }
  }

  lemma AckIsConsistent(s: State, id: string)
    requires Consistent(s)
    ensures Consistent(s.(pending := Without(s.pending, id), history := s.history + [Acked(id)]))
  {
    AckRepresents(s.pending, s.history, id);
    UpToSaveAppend(s.history, Acked(id));
    HonestAppend(s.history, Acked(id));
    StillTracks(s.connections, s.history, Acked(id));
    AllStillBacked(s.flights, s.history, Acked(id));
  }

  lemma SaveIsConsistent(s: State)
    requires Consistent(s)
    ensures Consistent(s.(stateFile := s.pending, history := s.history + [StateSaved]))
  {
    StillRepresents(s.pending, s.history, StateSaved);
    UpToSaveAppend(s.history, StateSaved);
    HonestAppend(s.history, StateSaved);
    StillTracks(s.connections, s.history, StateSaved);
    AllStillBacked(s.flights, s.history, StateSaved);
  }

  lemma PersistIsConsistent(s: State, f: nat)
    requires Consistent(s) && f < |s.flights| && s.flights[f].stage.Exited? && s.stateFile == s.pending
    requires Recorded(s.flights[f].stage.receipt) in UpToSave(s.history)
    ensures Consistent(s.(flights := s.flights[f := s.flights[f].(stage := Saved(s.flights[f].stage.receipt))]))
  {
    LiveOn(s.connections, s.flights, f, Saved(s.flights[f].stage.receipt));
  }

  lemma ReportIsConsistent(s: State, f: nat)
    requires Consistent(s) && f < |s.flights| && s.flights[f].stage.Saved?
    ensures Consistent(s.(flights := s.flights[f := s.flights[f].(stage := Reported(s.flights[f].stage.receipt))]))
  {
    var flights := s.flights[f := s.flights[f].(stage := Reported(s.flights[f].stage.receipt))];
    LiveOn(s.connections, s.flights, f, Reported(s.flights[f].stage.receipt));
    ClaimsMove(s.flights, flights, f);
  }

  /** Only a flight that awaits its save can lay claim to a receipt. */
  lemma ClaimsMove(flights: seq<Flight>, after: seq<Flight>, f: nat)
    requires f < |flights| && |after| == |flights| && after == flights[f := after[f]]
    requires forall r :: AwaitsSave(flights[f], r) ==> AwaitsSave(after[f], r)
    ensures forall r :: Awaited(flights, r) ==> Awaited(after, r)
  {
    forall r | Awaited(flights, r)
      ensures Awaited(after, r)
    {
      var g :| 0 <= g < |flights| && AwaitsSave(flights[g], r);
      assert AwaitsSave(after[g], r);
    }
  }

  lemma AdmitIsConsistent(s: State, flight: Flight)
    requires Consistent(s) && flight.stage.Admitted? && flight.connection < |s.connections|
    ensures Consistent(s.(flights := s.flights + [flight]))
  {
    var after := s.flights + [flight];
    forall r | Awaited(s.flights, r)
      ensures Awaited(after, r)
    {
      var g :| 0 <= g < |s.flights| && AwaitsSave(s.flights[g], r);
      assert AwaitsSave(after[g], r);
    }
    forall c: nat, id
      ensures Occupied(after, c, id) <==> Occupied(s.flights, c, id)
      ensures Vacated(after, c, id) <==> Vacated(s.flights, c, id)
    {
      assert forall g :: 0 <= g < |s.flights| ==> after[g] == s.flights[g];
      assert after[|s.flights|] == flight;
    }
  }

  /** The entry in `active` is made. */
  function WithActive(connections: seq<Connection>, c: nat, ids: set<string>): seq<Connection>
    requires c < |connections|
  {
    connections[c := connections[c].(active := ids)]
  }

  lemma LaunchIsConsistent(s: State, f: nat)
    requires Consistent(s) && f < |s.flights| && s.flights[f].stage.Admitted?
    ensures var c := s.flights[f].connection;
      Consistent(s.(flights := s.flights[f := s.flights[f].(stage := Running)],
                    connections := WithActive(s.connections, c, s.connections[c].active + {s.flights[f].invocationId})))
  {
    var c, id := s.flights[f].connection, s.flights[f].invocationId;
    var flights := s.flights[f := s.flights[f].(stage := Running)];
    var connections := WithActive(s.connections, c, s.connections[c].active + {id});
    ClaimsMove(s.flights, flights, f);
    assert At(flights[f], c, id) && Live(flights[f].stage);
    forall d: nat, i
      ensures Occupied(flights, d, i) <==> Occupied(s.flights, d, i) || (d == c && i == id)
      ensures Vacated(flights, d, i) <==> Vacated(s.flights, d, i)
    {
      MovesAt(s.flights, flights, f, d, i);
    }
  }

  lemma SettleIsConsistent(s: State, f: nat)
    requires Consistent(s) && f < |s.flights| && Live(s.flights[f].stage)
    ensures var c := s.flights[f].connection;
      Consistent(s.(flights := s.flights[f := s.flights[f].(stage := Ended(s.flights[f].stage))],
                    connections := WithActive(s.connections, c, s.connections[c].active - {s.flights[f].invocationId})))
  {
    var c, id := s.flights[f].connection, s.flights[f].invocationId;
    var flights := s.flights[f := s.flights[f].(stage := Ended(s.flights[f].stage))];
    ClaimsMove(s.flights, flights, f);
    assert At(flights[f], c, id) && Over(flights[f].stage);
    forall d: nat, i
      ensures d != c || i != id ==> (Occupied(flights, d, i) <==> Occupied(s.flights, d, i))
      ensures Vacated(flights, d, i) <==> Vacated(s.flights, d, i) || (d == c && i == id)
    {
      MovesAt(s.flights, flights, f, d, i);
    }
  }

  /** Where a flight's change of stage matters, and where not. */
  lemma MovesAt(flights: seq<Flight>, after: seq<Flight>, f: nat, d: nat, i: string)
    requires f < |flights| && |after| == |flights| && after == flights[f := after[f]]
    requires after[f] == flights[f].(stage := after[f].stage)
    ensures Occupied(after, d, i) <==>
      (exists g :: 0 <= g < |flights| && g != f && At(flights[g], d, i) && Live(flights[g].stage)) ||
      (At(flights[f], d, i) && Live(after[f].stage))
    ensures Occupied(flights, d, i) <==>
      (exists g :: 0 <= g < |flights| && g != f && At(flights[g], d, i) && Live(flights[g].stage)) ||
      (At(flights[f], d, i) && Live(flights[f].stage))
    ensures Vacated(after, d, i) <==>
      (exists g :: 0 <= g < |flights| && g != f && At(flights[g], d, i) && Over(flights[g].stage)) ||
      (At(flights[f], d, i) && Over(after[f].stage))
    ensures Vacated(flights, d, i) <==>
      (exists g :: 0 <= g < |flights| && g != f && At(flights[g], d, i) && Over(flights[g].stage)) ||
      (At(flights[f], d, i) && Over(flights[f].stage))
  {
    assert forall g :: 0 <= g < |flights| && g != f ==> after[g] == flights[g];
    assert At(after[f], d, i) == At(flights[f], d, i);
  }

  /** How a flight ends: if it still awaited the save, its receipt stays behind. */
  function Ended(stage: Stage): Stage {
    if stage.Exited? then Abandoned(stage.receipt) else Settled
  }

  // ---------------------------------------------------------------- sending what is pending

  function SentAll(c: nat, receipts: seq<Receipt>): seq<Event> {
    seq(|receipts|, i requires 0 <= i < |receipts| => Sent(c, receipts[i]))
  }

  /** What the loop over the receipts has sent by `k`, on a connection that speaks or not. */
  function SentSoFar(on: bool, c: nat, receipts: seq<Receipt>, k: nat): seq<Event>
    requires k <= |receipts|
  {
    if on then SentAll(c, receipts[..k]) else []
  }

  lemma SentOneMore(history: seq<Event>, on: bool, c: nat, receipts: seq<Receipt>, k: nat)
    requires k < |receipts|
    ensures (history + SentSoFar(on, c, receipts, k)) + (if on then [Sent(c, receipts[k])] else []) ==
            history + SentSoFar(on, c, receipts, k + 1)
  {
    assert SentAll(c, receipts[..k + 1]) == SentAll(c, receipts[..k]) + [Sent(c, receipts[k])];
  }

  lemma SentThemAll(on: bool, c: nat, receipts: seq<Receipt>)
    ensures SentSoFar(on, c, receipts, |receipts|) == if on then SentAll(c, receipts) else []
  {
    assert receipts[..|receipts|] == receipts;
  }

  lemma PendingWasRecorded(receipts: seq<Receipt>, history: seq<Event>, k: nat)
    requires Represents(receipts, history) && k < |receipts|
    ensures Recorded(receipts[k]) in history
  {
    assert receipts[k] in receipts;
    OutstandingWasRecorded(history, receipts[k].invocationId);
  }

  /** All messages among the events are for receipts that the state file holds. */
  ghost predicate OnlySaved(events: seq<Event>, stateFile: seq<Receipt>) {
    forall e :: e in events && e.Sent? ==> e.receipt in stateFile
  }

  /** Of what was recorded since the last save, all is acknowledged, replaced, or in the state file already. */
  ghost predicate NothingUnsaved(s: State) {
    forall r :: Recorded(r) in SinceSave(s.history) ==>
      Outstanding(s.history, r.invocationId) != Some(r) || r in s.stateFile
  }

  /** No flight is between its exit and its save, or has failed there, with a receipt that matters. */
  ghost predicate NobodyWaits(s: State) {
    forall f, r :: 0 <= f < |s.flights| && AwaitsSave(s.flights[f], r) ==> r !in s.pending || r in s.stateFile
  }

  /**
    In every reachable state, what a heartbeat or a reconnection sends is saved if and only if nothing recorded since
    the last save is outstanding and new, that is, if and only if no flight is left between its exit and its save.
   */
  lemma PendingIsSavedIff(s: State, c: nat)
    requires Consistent(s)
    ensures OnlySaved(SentAll(c, s.pending), s.stateFile) <==> NothingUnsaved(s)
    ensures NothingUnsaved(s) <==> NobodyWaits(s)
  {
    AllSentAreSaved(c, s.pending, s.stateFile);
    forall r | r in s.pending && r !in s.stateFile
      ensures Recorded(r) in SinceSave(s.history)
    {
      OutstandingIsSavedOrNew(s.history, r.invocationId);
    }
  }

  lemma AllSentAreSaved(c: nat, receipts: seq<Receipt>, stateFile: seq<Receipt>)
    ensures OnlySaved(SentAll(c, receipts), stateFile) <==> forall r :: r in receipts ==> r in stateFile
  {
    var events := SentAll(c, receipts);
    if OnlySaved(events, stateFile) {
      forall r | r in receipts
        ensures r in stateFile
      {
        var i :| 0 <= i < |receipts| && receipts[i] == r;
        assert events[i] in events;
      }
    }
  }

  // ---------------------------------------------------------------- what the state says of runs

  /** Every message ever sent was for a receipt recorded before, over a connection on which the server had agreed to
      stop receipts, and about which nothing had been heard since. */
  lemma EveryMessageWasDue(s: State, i: nat)
    requires Consistent(s) && i < |s.history| && s.history[i].Sent?
    ensures Recorded(s.history[i].receipt) in s.history[..i]
    ensures var c := s.history[i].connection;
      exists j :: 0 <= j < i && s.history[j] == Negotiated(c, true) && Quiet(s.history[..i], j + 1, c)
  {
    var c := s.history[i].connection;
    AgreedMeans(s.history[..i], c);
    var j :| 0 <= j < i && s.history[..i][j] == Negotiated(c, true) && Quiet(s.history[..i], j + 1, c);
    assert s.history[j] == Negotiated(c, true);
  }

  /** For an invocation started once on a connection, a second start is a duplicate exactly while the first is live. */
  lemma ActiveExactlyWhileLive(s: State, f: nat)
    requires Consistent(s) && f < |s.flights|
    requires forall g :: 0 <= g < |s.flights| && g != f ==>
      !At(s.flights[g], s.flights[f].connection, s.flights[f].invocationId)
    ensures s.flights[f].invocationId in s.connections[s.flights[f].connection].active <==> Live(s.flights[f].stage)
  {
    var c, id := s.flights[f].connection, s.flights[f].invocationId;
    if id in s.connections[c].active {
      var g :| 0 <= g < |s.flights| && At(s.flights[g], c, id) && Live(s.flights[g].stage);
    }
    if Live(s.flights[f].stage) {
      assert At(s.flights[f], c, id);
      assert Occupied(s.flights, c, id);
    }
  }

  class Bridge {
    // `state.pendingStopReceipts`, shared by all connections, and what the state file holds of it.
    var pending: seq<Receipt>
    var stateFile: seq<Receipt>
    // The local variables of each call of `runBridgeConnection`, the earlier ones included.
    var connections: seq<Connection>
    var flights: seq<Flight>
    ghost var history: seq<Event>

    ghost function Now(): State
      reads this
    {
      State(pending, stateFile, connections, flights, history)
    }

    ghost predicate Valid()
      reads this
    {
      Consistent(Now())
    }

    /** Starting from a state file; what it holds counts as recorded. */
    constructor (saved: seq<Receipt>)
      requires OnePerInvocation(saved)
      ensures Valid() && Now() == State(saved, saved, [], [], Loaded(saved) + [StateSaved])
    {
      pending, stateFile, connections, flights := saved, saved, [], [];
      history := Loaded(saved) + [StateSaved];
      LoadedIsConsistent(saved);
    }

    method Dial() returns (c: nat)
      requires Valid()
      modifies this`connections
      ensures Valid() && c == |old(connections)| &&
        connections == old(connections) + [Connection(Connecting, false, {})]
    {
      c := |connections|;
      DialIsConsistent(Now());
      connections := connections + [Connection(Connecting, false, {})];
    }

    method Opened(c: nat)
      requires Valid() && c < |connections| && connections[c].socket.Connecting?
      modifies this`connections
      ensures Valid() && connections == old(connections)[c := old(connections)[c].(socket := Open)]
    {
      connections := connections[c := connections[c].(socket := Open)];
    }

    /** `send` of a stopped message: dropped unless the protocol is on and the socket open. */
    method Send(c: nat, receipt: Receipt)
      requires Valid() && c < |connections| && Recorded(receipt) in history
      modifies this`history
      ensures Valid() && history == old(history) + if Speaks(connections[c]) then [Sent(c, receipt)] else []
    {
      if !connections[c].stopReceiptProtocol { return; }
      if connections[c].socket.Open? {
        StillTracks(connections, history, Sent(c, receipt));
        StillConsistent(Now(), connections, Sent(c, receipt));
        history := history + [Sent(c, receipt)];
      }
    }

    /** The loop over the pending receipts, on a heartbeat or once connected. */
    method SendPending(c: nat)
      requires Valid() && c < |connections|
      modifies this`history
      ensures Valid() && history == old(history) + if Speaks(connections[c]) then SentAll(c, pending) else []
    {
      ghost var before := history;
      SentThemAll(Speaks(connections[c]), c, pending);
      for k := 0 to |pending|
        modifies this`history
        invariant Valid() && history == before + SentSoFar(Speaks(connections[c]), c, pending, k)
      {
        SendNext(c, k, before);
      }
    }

    /** One round of the loop. */
    method SendNext(c: nat, k: nat, ghost before: seq<Event>)
      requires Valid() && c < |connections| && k < |pending|
      requires history == before + SentSoFar(Speaks(connections[c]), c, pending, k)
      modifies this`history
      ensures Valid() && history == before + SentSoFar(Speaks(connections[c]), c, pending, k + 1)
    {
      PendingWasRecorded(pending, history, k);
      SentOneMore(before, Speaks(connections[c]), c, pending, k);
      Send(c, pending[k]);
    }

    /** What the server supports. */
    method Negotiate(c: nat, stopReceiptProtocol: bool)
      requires Valid() && c < |connections| && connections[c].socket.Open?
      modifies this`connections, this`history
      ensures Valid() && history == old(history) + [Negotiated(c, stopReceiptProtocol)]
      ensures connections == old(connections)[c := old(connections)[c].(stopReceiptProtocol := stopReceiptProtocol)]
    {
      var changed := connections[c].(stopReceiptProtocol := stopReceiptProtocol);
      ChangeTracks(connections, history, c, changed, Negotiated(c, stopReceiptProtocol));
      StillConsistent(Now(), connections[c := changed], Negotiated(c, stopReceiptProtocol));
      connections := connections[c := changed];
      history := history + [Negotiated(c, stopReceiptProtocol)];
    }

    /** `local_runtime.connected`: what the server supports, and at once everything outstanding. */
    method Connected(c: nat, stopReceiptProtocol: bool)
      requires Valid() && c < |connections| && connections[c].socket.Open?
      modifies this`connections, this`history
      ensures Valid()
      ensures connections == old(connections)[c := old(connections)[c].(stopReceiptProtocol := stopReceiptProtocol)]
      ensures history ==
        old(history) + [Negotiated(c, stopReceiptProtocol)] + if stopReceiptProtocol then SentAll(c, pending) else []
      ensures stopReceiptProtocol ==>
        (OnlySaved(history[|old(history)|..], stateFile) <==> NobodyWaits(old(Now()))) &&
        (NobodyWaits(old(Now())) <==> NothingUnsaved(old(Now())))
    {
      PendingIsSavedIff(Now(), c);
      Negotiate(c, stopReceiptProtocol);
      SendPending(c);
      SavedAfterNegotiation(old(history), Negotiated(c, stopReceiptProtocol), SentAll(c, pending), stateFile);
    }

    method Heartbeat(c: nat)
      requires Valid() && c < |connections|
      modifies this`history
      ensures Valid() && history == old(history) + if Speaks(connections[c]) then SentAll(c, pending) else []
      ensures Speaks(connections[c]) ==>
        (OnlySaved(history[|old(history)|..], stateFile) <==> NobodyWaits(old(Now()))) &&
        (NobodyWaits(old(Now())) <==> NothingUnsaved(old(Now())))
    {
      PendingIsSavedIff(Now(), c);
      SendPending(c);
      assert Speaks(connections[c]) ==> history[|old(history)|..] == SentAll(c, pending);
    }

    method Disconnect(c: nat)
      requires Valid() && c < |connections|
      modifies this`connections, this`history
      ensures Valid() && connections == old(connections)[c := old(connections)[c].(socket := Closed)]
      ensures history == old(history) + [Disconnected(c)]
    {
      var changed := connections[c].(socket := Closed);
      ChangeTracks(connections, history, c, changed, Disconnected(c));
      StillConsistent(Now(), connections[c := changed], Disconnected(c));
      connections := connections[c := changed];
      history := history + [Disconnected(c)];
    }

    /** The checks of `local_runtime.invocation.start`. */
    method Start(c: nat, invocationId: string, workspaceId: string, registered: bool) returns (result: StartResult)
      requires Valid() && c < |connections|
      modifies this`flights
      ensures Valid()
      ensures result ==
        if !registered then Refused(UnregisteredWorkspace)
        else if invocationId in connections[c].active then Refused(DuplicateInvocation)
        else if |pending| >= 256 then Refused(StopReceiptBacklog)
        else Started(|old(flights)|)
      ensures flights == old(flights) +
        if result.Started? then [Flight(c, invocationId, workspaceId, Admitted)] else []
    {
      if !registered { return Refused(UnregisteredWorkspace); }
      if invocationId in connections[c].active { return Refused(DuplicateInvocation); }
      if |pending| >= MAX_PENDING { return Refused(StopReceiptBacklog); }
      result := Started(|flights|);
      AdmitIsConsistent(Now(), Flight(c, invocationId, workspaceId, Admitted));
      flights := flights + [Flight(c, invocationId, workspaceId, Admitted)];
    }

    /** Past the save of consumed permissions, which other steps may precede. */
    method Launch(f: nat)
      requires Valid() && f < |flights| && flights[f].stage.Admitted?
      modifies this`flights, this`connections
      ensures Valid() && flights == old(flights)[f := old(flights)[f].(stage := Running)]
      ensures var c := old(flights)[f].connection;
        connections == WithActive(old(connections), c, old(connections)[c].active + {old(flights)[f].invocationId})
    {
      LaunchIsConsistent(Now(), f);
      var c := flights[f].connection;
      connections := WithActive(connections, c, connections[c].active + {flights[f].invocationId});
      flights := flights[f := flights[f].(stage := Running)];
    }

    /** The invocation has exited: its receipt replaces any earlier one of the same invocation. */
    method Exit(f: nat, runtimeType: string)
      requires Valid() && f < |flights| && flights[f].stage.Running?
      modifies this`flights, this`pending, this`history
      ensures Valid()
      ensures var receipt := Receipt(old(flights)[f].invocationId, old(flights)[f].workspaceId, runtimeType);
        flights == old(flights)[f := old(flights)[f].(stage := Exited(receipt))] &&
        pending == Without(old(pending), receipt.invocationId) + [receipt] &&
        history == old(history) + [Recorded(receipt)]
    {
      var receipt := Receipt(flights[f].invocationId, flights[f].workspaceId, runtimeType);
      ExitIsConsistent(Now(), f, receipt);
      pending := Without(pending, receipt.invocationId) + [receipt];
      flights := flights[f := flights[f].(stage := Exited(receipt))];
      history := history + [Recorded(receipt)];
    }

    /** A save of the state, on behalf of anything. */
    method SaveState()
      requires Valid()
      modifies this`stateFile, this`history
      ensures Valid() && stateFile == pending && history == old(history) + [StateSaved]
    {
      SaveIsConsistent(Now());
      stateFile := pending;
      history := history + [StateSaved];
    }

    /** The save that the exited invocation waits for. */
    method Persist(f: nat)
      requires Valid() && f < |flights| && flights[f].stage.Exited?
      modifies this`flights, this`stateFile, this`history
      ensures Valid() && stateFile == pending && history == old(history) + [StateSaved]
      ensures flights == old(flights)[f := old(flights)[f].(stage := Saved(old(flights)[f].stage.receipt))]
    {
      assert Backed(flights[f], history);
      SaveState();
      UpToSaveAppend(old(history), StateSaved);
      PersistIsConsistent(Now(), f);
      flights := flights[f := flights[f].(stage := Saved(flights[f].stage.receipt))];
    }

    /** The result and the receipt are sent over the connection that the invocation came by, up or not. */
    method Report(f: nat)
      requires Valid() && f < |flights| && flights[f].stage.Saved?
      modifies this`flights, this`history
      ensures Valid() && Recorded(old(flights)[f].stage.receipt) in UpToSave(history)
      ensures flights == old(flights)[f := old(flights)[f].(stage := Reported(old(flights)[f].stage.receipt))]
      ensures var c := old(flights)[f].connection;
        history == old(history) + if Speaks(connections[c]) then [Sent(c, old(flights)[f].stage.receipt)] else []
    {
      assert Backed(flights[f], history);
      SavedHappened(history);
      Send(flights[f].connection, flights[f].stage.receipt);
      assert Backed(flights[f], history);
      ReportIsConsistent(Now(), f);
      flights := flights[f := flights[f].(stage := Reported(flights[f].stage.receipt))];
    }

    /** The handling ends, done or failed at whatever stage. */
    method Settle(f: nat)
      requires Valid() && f < |flights| && Live(flights[f].stage)
      modifies this`flights, this`connections
      ensures Valid() && flights == old(flights)[f := old(flights)[f].(stage := Ended(old(flights)[f].stage))]
      ensures var c := old(flights)[f].connection;
        connections == WithActive(old(connections), c, old(connections)[c].active - {old(flights)[f].invocationId})
    {
      SettleIsConsistent(Now(), f);
      var c := flights[f].connection;
      connections := WithActive(connections, c, connections[c].active - {flights[f].invocationId});
      flights := flights[f := flights[f].(stage := Ended(flights[f].stage))];
    }

    /** `local_runtime.invocation.stop_ack`; its save is a step of its own. */
    method StopAck(invocationId: string)
      requires Valid()
      modifies this`pending, this`history
      ensures Valid() && pending == Without(old(pending), invocationId) &&
        history == old(history) + [Acked(invocationId)]
    {
      AckIsConsistent(Now(), invocationId);
      pending := Without(pending, invocationId);
      history := history + [Acked(invocationId)];
    }
  }

  lemma SavedAfterNegotiation(history: seq<Event>, event: Event, sent: seq<Event>, stateFile: seq<Receipt>)
    requires !event.Sent?
    ensures OnlySaved((history + [event] + sent)[|history|..], stateFile) <==> OnlySaved(sent, stateFile)
  {
    assert (history + [event] + sent)[|history|..] == [event] + sent;
  }

  lemma LoadedIsConsistent(saved: seq<Receipt>)
    requires OnePerInvocation(saved)
    ensures Consistent(State(saved, saved, [], [], Loaded(saved) + [StateSaved]))
  {
    LoadedRepresents(saved);
    StillRepresents(saved, Loaded(saved), StateSaved);
    UpToSaveAppend(Loaded(saved), StateSaved);
    LoadedIsQuiet(saved);
    forall c: nat
      ensures !Agreed(Loaded(saved) + [StateSaved], c)
    {
      AgreedAppend(Loaded(saved), StateSaved, c);
    }
  }

  lemma DialIsConsistent(s: State)
    requires Consistent(s)
    ensures Consistent(s.(connections := s.connections + [Connection(Connecting, false, {})]))
  {
    forall id
      ensures !Occupied(s.flights, |s.connections|, id)
    {
    }
  }

  /** A bridge with an empty state file. */
  method Fresh() returns (bridge: Bridge)
    ensures fresh(bridge) && bridge.Valid() && bridge.Now() == State([], [], [], [], [StateSaved])
  {
    bridge := new Bridge([]);
    assert Loaded([]) == [] && [] + [StateSaved] == [StateSaved];
  }

  /** It has opened its first connection. */
  method JustOpened() returns (bridge: Bridge)
    ensures fresh(bridge) && bridge.Valid()
    ensures bridge.Now() == State([], [], [Connection(Open, false, {})], [], [StateSaved])
  {
    bridge := Fresh();
    var _ := bridge.Dial();
    bridge.Opened(0);
  }

  /** The server has agreed to stop receipts there. */
  method Reconnected() returns (bridge: Bridge)
    ensures fresh(bridge) && bridge.Valid()
    ensures bridge.Now() == State([], [], [Connection(Open, true, {})], [], [StateSaved, Negotiated(0, true)])
  {
    bridge := JustOpened();
    assert SentAll(0, []) == [];
    bridge.Connected(0, true);
  }

  /** Its first invocation runs. */
  method FirstRun(id: string, workspaceId: string) returns (bridge: Bridge)
    ensures fresh(bridge) && bridge.Valid() && bridge.pending == [] && bridge.stateFile == []
    ensures bridge.flights == [Flight(0, id, workspaceId, Running)]
    ensures |bridge.connections| == 1 && Speaks(bridge.connections[0])
    ensures bridge.history == [StateSaved, Negotiated(0, true)]
  {
    bridge := Reconnected();
    var _ := bridge.Start(0, id, workspaceId, true);
    bridge.Launch(0);
  }

  /** It has just exited, and waits for the state to be saved. */
  method FirstExit(receipt: Receipt) returns (bridge: Bridge)
    ensures fresh(bridge) && bridge.Valid() && bridge.pending == [receipt] && bridge.stateFile == []
    ensures |bridge.connections| == 1 && Speaks(bridge.connections[0])
    ensures bridge.history == [StateSaved, Negotiated(0, true), Recorded(receipt)]
  {
    bridge := FirstRun(receipt.invocationId, receipt.workspaceId);
    assert Without([], receipt.invocationId) == [];
    bridge.Exit(0, receipt.runtimeType);
  }

  /** The save before the report does not bind the heartbeat, which can send a receipt that no file holds yet. */
  method HeartbeatSendsUnsaved(receipt: Receipt) returns (bridge: Bridge)
    ensures fresh(bridge) && bridge.Valid() && bridge.stateFile == []
    ensures bridge.history == [StateSaved, Negotiated(0, true), Recorded(receipt), Sent(0, receipt)]
  {
    bridge := FirstExit(receipt);
    bridge.Heartbeat(0);
    assert SentAll(0, [receipt]) == [Sent(0, receipt)];
  }
}
