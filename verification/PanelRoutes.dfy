/**
  What a panel takes over from the route that opened it, whom it lists, and the summaries added to it.
 */
module PanelRoutes {

  import opened Collation
  import opened CollaborationPanels
  import opened Options
  import opened PanelReadings
  import opened ScriptValues

  /** The routes among the events, in order: one for each panel. */
  function Routes(events: seq<Event>): seq<Event> {
    if events == [] then []
    else
      var n := |events| - 1;
      Routes(events[..n]) + (if OpensPanel(events[n]) then [events[n]] else [])
  }

  lemma {:induction false} RoutesOpen(events: seq<Event>)
    ensures forall p :: 0 <= p < |Routes(events)| ==> OpensPanel(Routes(events)[p])
  {
    if events != [] { RoutesOpen(events[..|events| - 1]); }
  }

  /** The text if it is more than white space. */
  predicate Shown(from: Option<string>, shown: Option<string>) {
    shown == if from.Some? && !Blank(from.value) then from else None
  }

  /** What stands at the head of the panel of a route. */
  predicate HeadOf(route: Event, panel: Panel)
    requires OpensPanel(route)
  {
    var payload, routing := route.payload, route.payload.routing.value;
    panel.taskId == (if payload.collaborationTaskId.Some? && !Blank(payload.collaborationTaskId.value)
                     then payload.collaborationTaskId.value else route.id) &&
    panel.routingMode == (if routing.mode.Some? && !Blank(routing.mode.value) then routing.mode.value else "main") &&
    Shown(payload.skillName, panel.skillName) && Shown(routing.reason, panel.routingReason) &&
    Shown(routing.resolvedAgentId, panel.resolvedAgentId) && panel.attachmentCount == payload.attachmentCount
  }

  predicate Candidate(route: Event, agentId: string)
    requires OpensPanel(route)
  {
    var routing := route.payload.routing.value;
    agentId in routing.candidateAgentIds ||
    (routing.resolvedAgentId == Some(agentId) && !Blank(agentId))
  }

  /** How an agent of the panel is called: a candidate by the route's own reference to it, or by its card; one that came
      later by its card; and without either by its id. */
  predicate Called(route: Event, cards: seq<Card>, agent: Agent)
    requires OpensPanel(route)
  {
    var id := agent.agentId;
    var card := if Candidate(route, id) then LastCard(cards, id) else FirstCard(cards, id);
    var own := if card.Some? then card.value.name else id;
    var ref := if Candidate(route, id) then LastRefName(route.payload.agentRefs, id) else None;
    agent.name == (if ref.Some? then ref.value else own) &&
    agent.role == (if card.Some? then card.value.role else "")
  }

  /** The summaries that belong to the panel. */
  function Sums(events: seq<Event>, cards: seq<Card>, p: nat): seq<Event> {
    if events == [] then []
    else
      var n := |events| - 1;
      Sums(events[..n], cards, p) +
      (if !OpensPanel(events[n]) && Summarizes(events[n]) && TargetOf(Fold(events[..n], cards), events[n]) == Some(p)
       then [events[n]] else [])
  }

  /** The `k`-th summary of a panel, numbered by its position unless it brings a number. */
  predicate SummaryOf(e: Event, k: nat, summary: Summary) {
    summary.id == e.id && Some(summary.kind) == e.payload.summaryKind && summary.content == e.content &&
    summary.sourceEventIds == e.payload.sourceEventIds &&
    summary.version == if e.payload.summaryVersion.Some? then e.payload.summaryVersion.value else k + 1
  }

  ghost predicate SumsUp(sums: seq<Event>, summaries: seq<Summary>) {
    |summaries| == |sums| && forall k :: 0 <= k < |sums| ==> SummaryOf(sums[k], k, summaries[k])
  }

  /** Whom a panel lists: the candidates of its route, and whoever has heard an event there. */
  ghost predicate Lists(events: seq<Event>, cards: seq<Card>, p: nat, route: Event, agents: seq<Agent>)
    requires OpensPanel(route)
  {
    DistinctAgents(agents) && (forall i :: 0 <= i < |agents| ==> Called(route, cards, agents[i])) &&
    forall id :: HasAgent(agents, id) <==> Candidate(route, id) || Heard(events, cards, p, id) != []
  }

  ghost predicate Matches(events: seq<Event>, cards: seq<Card>, p: nat, route: Event, panel: Panel)
    requires OpensPanel(route)
  {
    HeadOf(route, panel) && Lists(events, cards, p, route, panel.agents) &&
    SumsUp(Sums(events, cards, p), panel.summaries)
  }

  ghost predicate AllMatch(events: seq<Event>, cards: seq<Card>, panels: seq<Panel>) {
    RoutesOpen(events);
    |panels| == |Routes(events)| &&
    (forall p :: 0 <= p < |panels| ==> Matches(events, cards, p, Routes(events)[p], panels[p])) &&
    (forall p: nat :: |panels| <= p ==> Sums(events, cards, p) == []) &&
    forall p: nat, id :: |panels| <= p ==> Heard(events, cards, p, id) == []
  }

  // ---------------------------------------------------------------- a new panel

  lemma NewPanelMatches(events: seq<Event>, cards: seq<Card>, p: nat, route: Event)
    requires OpensPanel(route) && Sums(events, cards, p) == [] && forall id :: Heard(events, cards, p, id) == []
    ensures Matches(events, cards, p, route, PanelFromRoute(route, cards))
  {
    var panel := PanelFromRoute(route, cards);
    var resolved := StringValue(route.payload.routing.value.resolvedAgentId);
    forall id
      ensures HasAgent(panel.agents, id) <==> Candidate(route, id)
    {
      RouteListsCandidates(route, cards, id);
    }
    forall i | 0 <= i < |panel.agents|
      ensures Called(route, cards, panel.agents[i])
    {
      assert HasAgent(panel.agents, panel.agents[i].agentId);
    }
    RouteListsCandidates(route, cards, "");
  }

  // ---------------------------------------------------------------- one event further

  lemma HeardMore(earlier: seq<Event>, event: Event, cards: seq<Card>, p: nat, id: string)
    requires !IsRoute(event) && !IsSummary(event) && TargetOf(Fold(earlier, cards), event) == Some(p)
    requires p < |Fold(earlier, cards).panels|
    ensures Heard(earlier + [event], cards, p, id) ==
      Heard(earlier, cards, p, id) + (if id in AffectedIds(event) then [event] else [])
  {
    assert (earlier + [event])[..|earlier|] == earlier;
  }

  lemma ListsMore(earlier: seq<Event>, event: Event, cards: seq<Card>, p: nat, route: Event, before: seq<Agent>)
    requires OpensPanel(route) && Lists(earlier, cards, p, route, before) && !IsRoute(event) && !IsSummary(event)
    requires TargetOf(Fold(earlier, cards), event) == Some(p) && p < |Fold(earlier, cards).panels|
    ensures Lists(earlier + [event], cards, p, route, ConcernAll(before, event, AffectedIds(event), cards))
  {
    var ids := AffectedIds(event);
    var after := ConcernAll(before, event, ids, cards);
    ConcernAllInforms(before, event, ids, cards);
    forall id
      ensures HasAgent(after, id) <==> Candidate(route, id) || Heard(earlier + [event], cards, p, id) != []
    {
      ListedAfter(before, after, event, ids, cards, id);
      HeardMore(earlier, event, cards, p, id);
      assert HasAgent(before, id) <==> Candidate(route, id) || Heard(earlier, cards, p, id) != [];
    }
    forall i | 0 <= i < |after|
      ensures Called(route, cards, after[i])
    {
      if i < |before| {
        CalledStill(route, cards, before[i], event);
        assert after[i] == before[i] || after[i] == Advance(before[i], event);
      } else {
        JoinedIsNew(before, after, event, ids, i, cards);
        assert !Candidate(route, after[i].agentId);
        JoinedIsCalled(route, cards, after[i], event, ids);
      }
    }
  }

  lemma CalledStill(route: Event, cards: seq<Card>, agent: Agent, event: Event)
    requires OpensPanel(route) && Called(route, cards, agent)
    ensures Called(route, cards, Advance(agent, event))
  {
  }

  lemma JoinedIsCalled(route: Event, cards: seq<Card>, agent: Agent, event: Event, ids: seq<string>)
    requires OpensPanel(route) && Joined(agent, event, ids, cards) && !Candidate(route, agent.agentId)
    ensures Called(route, cards, agent)
  {
  }

  lemma ListedAfter(before: seq<Agent>, after: seq<Agent>, event: Event, ids: seq<string>, cards: seq<Card>, id: string)
    requires Informed(before, after, event, ids, cards)
    ensures HasAgent(after, id) <==> HasAgent(before, id) || id in ids
  {
    if HasAgent(before, id) {
      var i :| 0 <= i < |before| && before[i].agentId == id;
      assert after[i].agentId == id;
    }
    if HasAgent(after, id) {
      var i :| 0 <= i < |after| && after[i].agentId == id;
      if i < |before| {
        assert before[i].agentId == id;
      } else {
        assert Joined(after[i], event, ids, cards);
      }
    }
  }

  /** An event changes what the panel it belongs to has heard or lists as summaries, and no other. */
  lemma OthersAsBefore(earlier: seq<Event>, event: Event, cards: seq<Card>, p: nat)
    requires IsRoute(event) || TargetOf(Fold(earlier, cards), event) != Some(p)
    ensures Sums(earlier + [event], cards, p) == Sums(earlier, cards, p)
    ensures forall id :: Heard(earlier + [event], cards, p, id) == Heard(earlier, cards, p, id)
  {
    assert (earlier + [event])[..|earlier|] == earlier;
  }

  lemma StillMatches(events: seq<Event>, more: seq<Event>, cards: seq<Card>, p: nat, route: Event, panel: Panel)
    requires OpensPanel(route) && Matches(events, cards, p, route, panel)
    requires Sums(more, cards, p) == Sums(events, cards, p)
    requires forall id :: Heard(more, cards, p, id) == Heard(events, cards, p, id)
    ensures Matches(more, cards, p, route, panel)
  {
  }

  lemma {:induction false} SumsBelong(events: seq<Event>, cards: seq<Card>, p: nat)
    ensures forall e :: e in Sums(events, cards, p) ==> e in events
  {
    if events != [] {
      SumsBelong(events[..|events| - 1], cards, p);
      assert events == events[..|events| - 1] + [events[|events| - 1]];
    }
  }

  lemma TouchedMatches(earlier: seq<Event>, event: Event, cards: seq<Card>, p: nat, route: Event, panel: Panel)
    requires OpensPanel(route) && Matches(earlier, cards, p, route, panel) && !IsRoute(event)
    requires TargetOf(Fold(earlier, cards), event) == Some(p) && p < |Fold(earlier, cards).panels|
    requires forall e :: e in earlier ==> e.id != event.id
    ensures Matches(earlier + [event], cards, p, route, Touch(panel, event, cards))
  {
    var events := earlier + [event];
    assert events[..|earlier|] == earlier;
    SummaryReads(event);
    if IsSummary(event) {
      SumsBelong(earlier, cards, p);
      OneMoreSummary(Sums(earlier, cards, p), panel, event);
      assert Touch(panel, event, cards) == AddSummary(panel, event).(status := PanelStatusOf(panel.agents));
      assert Sums(events, cards, p) == Sums(earlier, cards, p) + [event];
      assert forall id :: Heard(events, cards, p, id) == Heard(earlier, cards, p, id);
      assert Lists(events, cards, p, route, panel.agents);
    } else {
      ListsMore(earlier, event, cards, p, route, panel.agents);
      assert Sums(events, cards, p) == Sums(earlier, cards, p) + [];
    }
  }

  lemma OneMoreSummary(sums: seq<Event>, panel: Panel, event: Event)
    requires IsSummary(event) && SumsUp(sums, panel.summaries) && forall e :: e in sums ==> e.id != event.id
    ensures SumsUp(sums + [event], AddSummary(panel, event).summaries)
    ensures AddSummary(panel, event).(summaries := []) == panel.(summaries := [])
  {
    forall s | s in panel.summaries
      ensures s.id != event.id
    {
      var k :| 0 <= k < |panel.summaries| && panel.summaries[k] == s;
      assert SummaryOf(sums[k], k, s) && sums[k] in sums;
    }
    assert StringValue(event.payload.summaryKind) == event.payload.summaryKind;
  }

  lemma RouteMatches(earlier: seq<Event>, route: Event, cards: seq<Card>, panels: seq<Panel>)
    requires AllMatch(earlier, cards, panels) && OpensPanel(route)
    ensures AllMatch(earlier + [route], cards, panels + [PanelFromRoute(route, cards)])
  {
    var events, after := earlier + [route], panels + [PanelFromRoute(route, cards)];
    RoutesOpen(earlier);
    RoutesOpen(events);
    assert events[..|earlier|] == earlier && Routes(events) == Routes(earlier) + [route];
    forall p: nat
      ensures Sums(events, cards, p) == Sums(earlier, cards, p)
      ensures forall id :: Heard(events, cards, p, id) == Heard(earlier, cards, p, id)
    {
      OthersAsBefore(earlier, route, cards, p);
    }
    forall p | 0 <= p < |after|
      ensures Matches(events, cards, p, Routes(events)[p], after[p])
    {
      if p < |panels| {
        StillMatches(earlier, events, cards, p, Routes(earlier)[p], panels[p]);
      } else {
        NewPanelMatches(events, cards, p, route);
      }
    }
  }

  lemma EventMatches(earlier: seq<Event>, event: Event, cards: seq<Card>, target: Option<nat>, panels: seq<Panel>)
    requires AllMatch(earlier, cards, panels) && !OpensPanel(event) && panels == Fold(earlier, cards).panels
    requires forall e :: e in earlier ==> e.id != event.id
    requires target == TargetOf(Fold(earlier, cards), event) && (target.Some? ==> target.value < |panels|)
    ensures AllMatch(earlier + [event], cards, Touched(panels, target, event, cards))
  {
    var events, after := earlier + [event], Touched(panels, target, event, cards);
    RoutesOpen(earlier);
    assert events[..|earlier|] == earlier && Routes(events) == Routes(earlier) + [];
    forall p: nat | |panels| <= p
      ensures Sums(events, cards, p) == [] && forall id :: Heard(events, cards, p, id) == []
    {
      OthersAsBefore(earlier, event, cards, p);
    }
    forall p | 0 <= p < |after|
      ensures Matches(events, cards, p, Routes(earlier)[p], after[p])
    {
      EventMatchesAt(earlier, event, cards, target, panels, p, Routes(earlier)[p]);
    }
  }

  function Touched(panels: seq<Panel>, target: Option<nat>, event: Event, cards: seq<Card>): seq<Panel>
    requires target.Some? ==> target.value < |panels|
  {
    if target.None? then panels else panels[target.value := Touch(panels[target.value], event, cards)]
  }

  lemma EventMatchesAt(earlier: seq<Event>, event: Event, cards: seq<Card>, target: Option<nat>, panels: seq<Panel>,
                       p: nat, route: Event)
    requires p < |panels| && OpensPanel(route) && Matches(earlier, cards, p, route, panels[p])
    requires !OpensPanel(event) && panels == Fold(earlier, cards).panels && forall e :: e in earlier ==>
      e.id != event.id
    requires target == TargetOf(Fold(earlier, cards), event) && (target.Some? ==> target.value < |panels|)
    ensures Matches(earlier + [event], cards, p, route, Touched(panels, target, event, cards)[p])
  {
    if target == Some(p) {
      TouchedMatches(earlier, event, cards, p, route, panels[p]);
    } else {
      OthersAsBefore(earlier, event, cards, p);
      StillMatches(earlier, earlier + [event], cards, p, route, panels[p]);
    }
  }

  lemma {:induction false} FoldMatches(events: seq<Event>, cards: seq<Card>)
    requires DistinctIds(events)
    ensures AllMatch(events, cards, Fold(events, cards).panels)
  {
    if events != [] {
      var n := |events| - 1;
      FoldMatches(events[..n], cards);
      StepMatches(events[..n], events[n], cards);
      assert events == events[..n] + [events[n]];
    }
  }

  lemma StepMatches(earlier: seq<Event>, event: Event, cards: seq<Card>)
    requires AllMatch(earlier, cards, Fold(earlier, cards).panels) && forall e :: e in earlier ==> e.id != event.id
    ensures AllMatch(earlier + [event], cards, Fold(earlier + [event], cards).panels)
  {
    var state := Fold(earlier, cards);
    EventsReachTheirPanel(earlier, cards, event);
    assert (earlier + [event])[..|earlier|] == earlier;
    assert Fold(earlier + [event], cards) == Step(state, event, cards);
    if OpensPanel(event) {
      RouteMatches(earlier, event, cards, state.panels);
    } else {
      EventMatches(earlier, event, cards, TargetOf(state, event), state.panels);
    }
  }

  /**
    One panel for each route, in order. It is headed as the route says,
    lists the candidates of the route and whoever has
    heard an event there, called as their references and cards say, and holds the summaries that belong to it.
   */
  lemma BuiltPanelsMatch(le: Order, events: seq<Event>, cards: seq<Card>)
    ensures AllMatch(InOrder(le, events), cards, Build(le, events, cards))
  {
    InOrderKeepsIds(le, events);
    BuildIsSound(le, events, cards);
    FoldMatches(InOrder(le, events), cards);
  }

  // ---------------------------------------------------------------- the look-ups

  /** The reference is to this id. */
  predicate RefersTo(ref: Ref, id: string) {
    ref.id == Some(id) && !Blank(id)
  }

  /** The name in the last reference to the id, if it has one. */
  lemma {:induction false} LastRefReads(refs: seq<Ref>, id: string)
    ensures LastRefName(refs, id).Some? <==>
      exists i :: 0 <= i < |refs| && NamesLast(refs, i, id)
    ensures forall i :: 0 <= i < |refs| && NamesLast(refs, i, id) ==> LastRefName(refs, id) == refs[i].name
  {
    if refs != [] {
      var n := |refs| - 1;
      LastRefReads(refs[..n], id);
      forall i | 0 <= i < n && !RefersTo(refs[n], id)
        ensures NamesLast(refs[..n], i, id) <==> NamesLast(refs, i, id)
      {
      }
      if RefersTo(refs[n], id) {
        assert NamesLast(refs, n, id) <==> refs[n].name.Some? && !Blank(refs[n].name.value);
      }
    }
  }

  /** The `i`-th reference is the last to the id, and names it. */
  predicate NamesLast(refs: seq<Ref>, i: nat, id: string)
    requires i < |refs|
  {
    RefersTo(refs[i], id) && refs[i].name.Some? && !Blank(refs[i].name.value) &&
    forall j :: i < j < |refs| ==> !RefersTo(refs[j], id)
  }

  /** The first and the last card of an id. */
  lemma CardsRead(cards: seq<Card>, id: string)
    ensures FirstCard(cards, id).Some? <==> exists i :: 0 <= i < |cards| && cards[i].agentId == id
    ensures LastCard(cards, id).Some? <==> FirstCard(cards, id).Some?
    ensures FirstCard(cards, id).Some? ==>
      exists i :: 0 <= i < |cards| && cards[i] == FirstCard(cards, id).value && cards[i].agentId == id &&
        forall j :: 0 <= j < i ==> cards[j].agentId != id
    ensures LastCard(cards, id).Some? ==>
      exists i :: 0 <= i < |cards| && cards[i] == LastCard(cards, id).value && cards[i].agentId == id &&
        forall j :: i < j < |cards| ==> cards[j].agentId != id
  {
    FirstCardReads(cards, id);
    LastCardReads(cards, id);
  }

  lemma {:induction false} FirstCardReads(cards: seq<Card>, id: string)
    ensures FirstCard(cards, id).None? ==> forall i :: 0 <= i < |cards| ==> cards[i].agentId != id
    ensures FirstCard(cards, id).Some? ==>
      exists i :: 0 <= i < |cards| && cards[i] == FirstCard(cards, id).value && cards[i].agentId == id &&
        forall j :: 0 <= j < i ==> cards[j].agentId != id
  {
    if cards != [] && cards[0].agentId != id {
      FirstCardReads(cards[1..], id);
      assert forall i :: 1 <= i < |cards| ==> cards[i] == cards[1..][i - 1];
      if FirstCard(cards, id).Some? {
        var i :| 0 <= i < |cards[1..]| && cards[1..][i] == FirstCard(cards, id).value && cards[1..][i].agentId == id &&
          forall j :: 0 <= j < i ==> cards[1..][j].agentId != id;
        assert cards[i + 1] == FirstCard(cards, id).value;
      }
    }
  }

  lemma {:induction false} LastCardReads(cards: seq<Card>, id: string)
    ensures LastCard(cards, id).None? ==> forall i :: 0 <= i < |cards| ==> cards[i].agentId != id
    ensures LastCard(cards, id).Some? ==>
      exists i :: 0 <= i < |cards| && cards[i] == LastCard(cards, id).value && cards[i].agentId == id &&
        forall j :: i < j < |cards| ==> cards[j].agentId != id
  {
    if cards != [] && cards[|cards| - 1].agentId != id {
      LastCardReads(cards[..|cards| - 1], id);
    }
  }
}
