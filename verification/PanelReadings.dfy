/**
  What the built panels say about the events, in terms of event kinds and status words only: the status and progress of
  every agent, its outputs, the status of every panel, and what a panel takes over from its route.
 */
module PanelReadings {

  import opened Collation
  import opened CollaborationPanels
  import opened Options
  import opened ScriptValues
  import opened StableSort

  // ---------------------------------------------------------------- what an event reports

  predicate SaysCancelled(e: Event) {
    e.payload.status == Some("cancelled")
  }

  predicate SaysFailed(e: Event) {
    e.payload.status == Some("failed") || e.kind == "task_failed" || e.kind == "runtime_failed" ||
      e.kind == "task_rejected"
  }

  predicate SaysCompleted(e: Event) {
    e.payload.status == Some("completed") || e.kind == "task_completed" || e.kind == "runtime_completed" ||
    e.kind == "post_review_completed"
  }

  predicate SaysWaiting(e: Event) {
    e.payload.status == Some("waiting") || e.payload.status == Some("blocked") || e.kind == "task_waiting" ||
    e.kind == "task_blocked"
  }

  predicate SaysActive(e: Event) {
    e.payload.status == Some("running") || e.kind == "task_started" || e.kind == "runtime_started" ||
    e.kind == "agent_message" || e.kind == "agent_status_changed"
  }

  /** Reports an end, of whatever kind. */
  predicate SaysEnded(e: Event) {
    SaysCancelled(e) || SaysFailed(e) || SaysCompleted(e)
  }

  /** Reports work going on, and not that it waits. */
  predicate SaysRunning(e: Event) {
    SaysActive(e) && !SaysWaiting(e)
  }

  lemma WordsAreNotBlank()
    ensures !Blank("cancelled") && !Blank("failed") && !Blank("completed") && !Blank("waiting") && !Blank("blocked") &&
      !Blank("running")
  {
    assert !IsSpace("cancelled"[0]) && !IsSpace("failed"[0]) && !IsSpace("completed"[0]);
    assert !IsSpace("waiting"[0]) && !IsSpace("blocked"[0]) && !IsSpace("running"[0]);
  }

  lemma RawWord(e: Event, word: string)
    requires !Blank(word)
    ensures StringValue(e.payload.status) == Some(word) <==> e.payload.status == Some(word)
  {
  }

  /** The status an event calls for. */
  lemma StatusReads(e: Event)
    ensures StatusOf(e) ==
      if SaysCancelled(e) then Some(Cancelled) else if SaysFailed(e) then Some(Failed)
      else if SaysCompleted(e) then Some(Completed) else if SaysWaiting(e) then Some(Waiting)
      else if SaysActive(e) then Some(Running) else None
  {
    WordsAreNotBlank();
    RawWord(e, "cancelled");
    RawWord(e, "failed");
    RawWord(e, "completed");
    RawWord(e, "waiting");
    RawWord(e, "blocked");
    RawWord(e, "running");
  }

  // ---------------------------------------------------------------- what an agent shows

  ghost predicate Any(heard: seq<Event>, says: Event -> bool) {
    exists e :: e in heard && says(e)
  }

  /** The status and the progress of an agent that has heard these events, in whatever order. */
  ghost predicate StatusShows(agent: Agent, heard: seq<Event>) {
    (agent.status == Cancelled <==> Any(heard, SaysCancelled)) &&
    (agent.status == Failed <==> Any(heard, SaysFailed) && !Any(heard, SaysCancelled)) &&
    (agent.status == Completed <==>
       Any(heard, SaysCompleted) && !Any(heard, SaysFailed) && !Any(heard, SaysCancelled)) &&
    (agent.status == Running <==> Any(heard, SaysRunning) && !Any(heard, SaysEnded)) &&
    (agent.status == Waiting <==> Any(heard, SaysWaiting) && !Any(heard, SaysRunning) && !Any(heard, SaysEnded)) &&
    (agent.status == Pending <==>
       !Any(heard, SaysWaiting) && !Any(heard, SaysActive) && !Any(heard, SaysEnded)) &&
    agent.progress == (if Any(heard, SaysEnded) then 100 else if Any(heard, SaysRunning) then 50
                       else if Any(heard, SaysWaiting) then 25 else 0)
  }

  /** Something stronger had been reported before. */
  ghost predicate Outdated(earlier: seq<Event>, e: Event) {
    if SaysCancelled(e) then false
    else if SaysFailed(e) then Any(earlier, SaysCancelled)
    else if SaysCompleted(e) then Any(earlier, SaysCancelled) || Any(earlier, SaysFailed)
    else if SaysWaiting(e) then Any(earlier, SaysEnded) || Any(earlier, SaysRunning)
    else if SaysActive(e) then Any(earlier, SaysEnded)
    else false
  }

  /** What was said, and was not outdated when its turn came. */
  ghost function Spoken(heard: seq<Event>): seq<Output> {
    if heard == [] then []
    else
      var earlier, e := heard[..|heard| - 1], heard[|heard| - 1];
      Spoken(earlier) +
      (if Blank(e.content) || Outdated(earlier, e) then [] else [Output(e.id, e.content, e.createdAt)])
  }

  lemma StrongestReads(heard: seq<Event>, agent: Agent)
    requires Strongest(heard, agent.status) && agent.progress == ProgressOf(agent.status)
    ensures StatusShows(agent, heard)
  {
    forall e | e in heard
      ensures StatusOf(e).Some? ==> Rank(StatusOf(e).value) <= Rank(agent.status)
      ensures StatusOf(e) == Some(Cancelled) <==> SaysCancelled(e)
      ensures StatusOf(e) == Some(Failed) <==> SaysFailed(e) && !SaysCancelled(e)
      ensures StatusOf(e) == Some(Completed) <==> SaysCompleted(e) && !SaysFailed(e) && !SaysCancelled(e)
      ensures StatusOf(e) == Some(Waiting) <==> SaysWaiting(e) && !SaysEnded(e)
      ensures StatusOf(e) == Some(Running) <==> SaysRunning(e) && !SaysEnded(e)
    {
      StatusReads(e);
    }
    if agent.status != Pending {
      var e :| e in heard && StatusOf(e) == Some(agent.status);
    }
  }

  lemma CurrentReads(earlier: seq<Event>, e: Event)
    ensures Current(earlier, e) <==> !Outdated(earlier, e)
  {
    StatusReads(e);
    forall f | f in earlier
      ensures StatusOf(f) == Some(Cancelled) <==> SaysCancelled(f)
      ensures StatusOf(f) == Some(Failed) <==> SaysFailed(f) && !SaysCancelled(f)
      ensures StatusOf(f) == Some(Completed) <==> SaysCompleted(f) && !SaysFailed(f) && !SaysCancelled(f)
      ensures StatusOf(f) == Some(Waiting) <==> SaysWaiting(f) && !SaysEnded(f)
      ensures StatusOf(f) == Some(Running) <==> SaysRunning(f) && !SaysEnded(f)
    {
      StatusReads(f);
    }
  }

  lemma {:induction false} AdmittedReads(heard: seq<Event>)
    ensures Admitted(heard) == Spoken(heard)
  {
    if heard != [] {
      AdmittedReads(heard[..|heard| - 1]);
      CurrentReads(heard[..|heard| - 1], heard[|heard| - 1]);
    }
  }

  /** The status of a panel from the statuses of its agents. */
  ghost predicate PanelShows(panel: Panel) {
    (panel.status == PanelFailed <==> exists a :: a in panel.agents && a.status == Failed) &&
    (panel.status == PanelCancelled <==>
       panel.agents != [] && forall a :: a in panel.agents ==> a.status == Cancelled) &&
    (panel.status == PanelCompleted <==>
       (forall a :: a in panel.agents ==> a.status == Completed || a.status == Cancelled) &&
       exists a :: a in panel.agents && a.status == Completed)
  }

  lemma PanelStatusReads(panel: Panel)
    requires panel.status == PanelStatusOf(panel.agents)
    ensures PanelShows(panel)
  {
    if panel.agents != [] { assert panel.agents[0] in panel.agents; }
  }

  // ---------------------------------------------------------------- whom an event concerns

  /** The event names the agent as the one it is about, or, naming none, addresses it. */
  predicate About(e: Event, agentId: string) {
    if e.payload.agentId.Some? && !Blank(e.payload.agentId.value) then agentId == e.payload.agentId.value
    else if e.actorAgentId.Some? && e.actorAgentId.value != "" then agentId == e.actorAgentId.value
    else if e.actorAgentId.None? && e.fromAgentId.Some? && e.fromAgentId.value != "" then agentId == e.fromAgentId.value
    else agentId in e.toAgentIds
  }

  /** The work an event names: by its payload, or else by the event itself. */
  function WorkOf(e: Event): Option<string> {
    if e.payload.taskId.Some? && !Blank(e.payload.taskId.value) then e.payload.taskId
    else if e.taskId.Some? && e.taskId.value != "" then e.taskId else None
  }

  /** A route opens a panel, and a summary only adds to one. */
  predicate OpensPanel(e: Event) {
    e.kind == "agent_message" && e.payload.routing.Some?
  }

  predicate Summarizes(e: Event) {
    e.kind == "agent_message" &&
    (e.payload.summaryKind == Some("temporary_cancelled") || e.payload.summaryKind == Some("manual_resummary"))
  }

  /** Among these panels, the event belongs to the `p`-th: the latest of its work, or else the latest of all. */
  ghost predicate BelongsTo(panels: seq<Panel>, e: Event, p: nat) {
    p < |panels| &&
    if WorkOf(e).Some? && exists q :: 0 <= q < |panels| && panels[q].taskId == WorkOf(e).value then
      LatestOf(panels, WorkOf(e).value, p)
    else p == |panels| - 1
  }

  lemma AboutReads(e: Event, agentId: string)
    ensures agentId in AffectedIds(e) <==> About(e, agentId)
  {
    if e.payload.agentId.Some? && !Blank(e.payload.agentId.value) { assert e.payload.agentId.value != ""; }
  }

  lemma SummaryReads(e: Event)
    ensures IsSummary(e) <==> Summarizes(e)
  {
    assert !IsSpace("temporary_cancelled"[0]) && !IsSpace("manual_resummary"[0]);
  }

  lemma LatestExists(panels: seq<Panel>, task: string, q: nat) returns (p: nat)
    requires q < |panels| && panels[q].taskId == task
    ensures LatestOf(panels, task, p)
    decreases |panels| - q
  {
    if k :| q < k < |panels| && panels[k].taskId == task {
      p := LatestExists(panels, task, k);
    } else {
      p := q;
    }
  }

  lemma TargetReads(events: seq<Event>, cards: seq<Card>, e: Event, p: nat)
    ensures TargetOf(Fold(events, cards), e) == Some(p) <==> BelongsTo(Fold(events, cards).panels, e, p)
  {
    var state, target := Fold(events, cards), TargetOf(Fold(events, cards), e);
    var task := Else(StringValue(e.payload.taskId), e.taskId);
    EventsReachTheirPanel(events, cards, e);
    assert Given(task) <==> WorkOf(e).Some? by {
      if e.payload.taskId.Some? && !Blank(e.payload.taskId.value) { assert e.payload.taskId.value != ""; }
    }
    assert Given(task) ==> WorkOf(e) == task;
    if WorkOf(e).Some? && exists q :: 0 <= q < |state.panels| && state.panels[q].taskId == WorkOf(e).value {
      var q: nat :| q < |state.panels| && state.panels[q].taskId == WorkOf(e).value;
      var latest := LatestExists(state.panels, WorkOf(e).value, q);
      assert target.Some? && LatestOf(state.panels, WorkOf(e).value, target.value);
    }
  }

  /** The `k`-th event belongs to the panel, is about the agent, and neither opens a panel nor sums one up. */
  ghost predicate Concerns(events: seq<Event>, cards: seq<Card>, k: nat, p: nat, agentId: string)
    requires k < |events|
  {
    About(events[k], agentId) && !OpensPanel(events[k]) && !Summarizes(events[k]) &&
    BelongsTo(Fold(events[..k], cards).panels, events[k], p)
  }

  lemma ConcernsEarlier(events: seq<Event>, cards: seq<Card>, k: nat, p: nat, agentId: string)
    requires k < |events| - 1
    ensures Concerns(events[..|events| - 1], cards, k, p, agentId) <==> Concerns(events, cards, k, p, agentId)
  {
    assert events[..|events| - 1][..k] == events[..k];
  }

  lemma HeardLast(events: seq<Event>, cards: seq<Card>, p: nat, agentId: string)
    requires events != []
    ensures var n := |events| - 1;
      Heard(events, cards, p, agentId) ==
      Heard(events[..n], cards, p, agentId) + (if Concerns(events, cards, n, p, agentId) then [events[n]] else [])
  {
    var n := |events| - 1;
    TargetReads(events[..n], cards, events[n], p);
    AboutReads(events[n], agentId);
    SummaryReads(events[n]);
  }

  lemma {:induction false} HeardConcerns(events: seq<Event>, cards: seq<Card>, p: nat, agentId: string, e: Event)
    returns (k: nat)
    requires e in Heard(events, cards, p, agentId)
    ensures k < |events| && events[k] == e && Concerns(events, cards, k, p, agentId)
  {
    var n := |events| - 1;
    HeardLast(events, cards, p, agentId);
    if e in Heard(events[..n], cards, p, agentId) {
      k := HeardConcerns(events[..n], cards, p, agentId, e);
      ConcernsEarlier(events, cards, k, p, agentId);
    } else {
      k := n;
    }
  }

  lemma {:induction false} ConcernsHeard(events: seq<Event>, cards: seq<Card>, p: nat, agentId: string, k: nat)
    requires k < |events| && Concerns(events, cards, k, p, agentId)
    ensures events[k] in Heard(events, cards, p, agentId)
  {
    HeardLast(events, cards, p, agentId);
    if k < |events| - 1 {
      ConcernsEarlier(events, cards, k, p, agentId);
      ConcernsHeard(events[..|events| - 1], cards, p, agentId, k);
    }
  }

  /** An agent has heard exactly the events that concern it. */
  lemma HeardReads(events: seq<Event>, cards: seq<Card>, p: nat, agentId: string, e: Event)
    ensures e in Heard(events, cards, p, agentId) <==>
      exists k :: 0 <= k < |events| && events[k] == e && Concerns(events, cards, k, p, agentId)
  {
    if e in Heard(events, cards, p, agentId) {
      var k := HeardConcerns(events, cards, p, agentId, e);
    }
    forall k | 0 <= k < |events| && events[k] == e && Concerns(events, cards, k, p, agentId)
      ensures e in Heard(events, cards, p, agentId)
    {
      ConcernsHeard(events, cards, p, agentId, k);
    }
  }

  // ---------------------------------------------------------------- the order of events

  /** The events are read once each, at their first mention, by time and then by id. */
  lemma OrderReads(le: Order, events: seq<Event>)
    requires TotalPreorder(le)
    ensures var ordered := InOrder(le, events);
      DistinctIds(ordered) &&
      (forall i, j :: 0 <= i < j < |ordered| ==>
        ordered[i].createdAt < ordered[j].createdAt ||
        (ordered[i].createdAt == ordered[j].createdAt && le(ordered[i].id, ordered[j].id))) &&
      forall e :: e in ordered <==>
        exists i :: 0 <= i < |events| && events[i] == e && FirstMention(events, i)
  {
    InOrderKeepsIds(le, events);
    InOrderLists(le, events);
    var ordered := InOrder(le, events);
    forall i, j | 0 <= i < j < |ordered|
      ensures Precedes(le, ordered[i], ordered[j])
    {
    }
    forall e
      ensures e in ordered <==>
        exists i :: 0 <= i < |events| && events[i] == e && FirstMention(events, i)
    {
      FirstOfEachReads(events, e);
    }
  }

  /** No earlier event has the id of the `i`-th. */
  predicate FirstMention(events: seq<Event>, i: nat)
    requires i < |events|
  {
    forall j :: 0 <= j < i ==> events[j].id != events[i].id
  }

  lemma FirstMentionEarlier(events: seq<Event>, i: nat)
    requires i < |events| - 1
    ensures FirstMention(events[..|events| - 1], i) <==> FirstMention(events, i)
  {
  }

  lemma {:induction false} KeptIsFirst(events: seq<Event>, e: Event) returns (i: nat)
    requires e in FirstOfEach(events)
    ensures i < |events| && events[i] == e && FirstMention(events, i)
  {
    var n := |events| - 1;
    if e in FirstOfEach(events[..n]) {
      i := KeptIsFirst(events[..n], e);
      FirstMentionEarlier(events, i);
    } else {
      i := n;
      FirstOfEachKeepsOne(events[..n]);
      LastMentionIsFirst(events);
    }
  }

  lemma {:induction false} FirstIsKept(events: seq<Event>, i: nat)
    requires i < |events| && FirstMention(events, i)
    ensures events[i] in FirstOfEach(events)
  {
    var n := |events| - 1;
    if i < n {
      FirstMentionEarlier(events, i);
      FirstIsKept(events[..n], i);
    } else {
      FirstOfEachKeepsOne(events[..n]);
      LastMentionIsFirst(events);
    }
  }

  lemma FirstOfEachReads(events: seq<Event>, e: Event)
    ensures e in FirstOfEach(events) <==> exists i :: 0 <= i < |events| && events[i] == e && FirstMention(events, i)
  {
    if e in FirstOfEach(events) {
      var i := KeptIsFirst(events, e);
    }
    forall i | 0 <= i < |events| && events[i] == e && FirstMention(events, i)
      ensures e in FirstOfEach(events)
    {
      FirstIsKept(events, i);
    }
  }

  lemma LastMentionIsFirst(events: seq<Event>)
    requires events != []
    ensures var n := |events| - 1; FirstMention(events, n) <==> !HasId(events[..n], events[n].id)
  {
    var n := |events| - 1;
    if HasId(events[..n], events[n].id) {
      var f :| f in events[..n] && f.id == events[n].id;
      var j :| 0 <= j < n && events[..n][j] == f;
      assert events[j].id == events[n].id;
    } else {
      forall j | 0 <= j < n
        ensures events[j].id != events[n].id
      {
        assert events[..n][j] in events[..n];
      }
    }
  }

  // ---------------------------------------------------------------- the built panels

  /**
    What the panels show, in terms of the events alone: every agent the status and progress that its events report, and
    what they said as long as it was not outdated; every panel the status of its agents.
   */
  lemma BuiltPanelsShow(le: Order, events: seq<Event>, cards: seq<Card>)
    ensures var panels, ordered := Build(le, events, cards), InOrder(le, events);
      forall p :: 0 <= p < |panels| ==>
        PanelShows(panels[p]) &&
        forall i :: 0 <= i < |panels[p].agents| ==>
          var agent := panels[p].agents[i]; var heard := Heard(ordered, cards, p, agent.agentId);
          StatusShows(agent, heard) && agent.outputs == Spoken(heard)
  {
    var panels, ordered := Build(le, events, cards), InOrder(le, events);
    BuildTellsHistory(le, events, cards);
    BuildIsSound(le, events, cards);
    forall p | 0 <= p < |panels|
      ensures PanelShows(panels[p])
    {
      assert SoundPanel(events, panels[p]);
      PanelStatusReads(panels[p]);
    }
    forall p, i | 0 <= p < |panels| && 0 <= i < |panels[p].agents|
      ensures var agent := panels[p].agents[i]; var heard := Heard(ordered, cards, p, agent.agentId);
        StatusShows(agent, heard) && agent.outputs == Spoken(heard)
    {
      var agent := panels[p].agents[i];
      assert SoundPanel(events, panels[p]) && SoundAgent(events, agent);
      assert Faithful(agent, Heard(ordered, cards, p, agent.agentId));
      StrongestReads(Heard(ordered, cards, p, agent.agentId), agent);
      AdmittedReads(Heard(ordered, cards, p, agent.agentId));
    }
  }
}
