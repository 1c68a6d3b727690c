/**
  The collaboration panels: a fold over the durable event stream. Refreshing from the stored log
  and replaying pushed events must arrive at the same panels.
 */
module CollaborationPanels {

  import opened Collation
  import opened Options
  import opened Permutations
  import opened ScriptValues
  import opened StableSort

  datatype Status = Pending | Waiting | Running | Completed | Failed | Cancelled

  datatype Output = Output(id: string, content: string, createdAt: int)
  datatype Agent = Agent(agentId: string, name: string, role: string, status: Status, progress: nat,
                         outputs: seq<Output>)
  datatype Summary = Summary(id: string, version: int, kind: string, content: string, sourceEventIds: seq<string>)
  datatype PanelStatus = PanelRunning | PanelCompleted | PanelFailed | PanelCancelled

  datatype Panel = Panel(taskId: string, skillName: Option<string>, routingMode: string, routingReason: Option<string>,
                         resolvedAgentId: Option<string>, attachmentCount: nat, status: PanelStatus,
                         agents: seq<Agent>, summaries: seq<Summary>)

  datatype Card = Card(agentId: string, name: string, role: string)
  datatype Ref = Ref(id: Option<string>, name: Option<string>)
  datatype Routing = Routing(candidateAgentIds: seq<string>, resolvedAgentId: Option<string>, mode: Option<string>,
                             reason: Option<string>)

  /** The string-typed payload fields, as they come. */
  datatype Payload = Payload(status: Option<string>, agentId: Option<string>, taskId: Option<string>,
                             collaborationTaskId: Option<string>, summaryKind: Option<string>,
                             summaryVersion: Option<int>,
                             sourceEventIds: seq<string>, routing: Option<Routing>, agentRefs: seq<Ref>,
                             skillName: Option<string>, attachmentCount: nat)

  datatype Event = Event(id: string, kind: string, createdAt: int, content: string, actorAgentId: Option<string>,
                         fromAgentId: Option<string>, toAgentIds: seq<string>, taskId: Option<string>, payload: Payload)

  function Rank(status: Status): nat {
    match status
    case Pending => 0
    case Waiting => 1
    case Running => 2
    case Completed => 3
    case Failed => 4
    case Cancelled => 5
  }

  function StringValue(value: Option<string>): Option<string> {
    if value.Some? && !Blank(value.value) then value else None
  }

  function Else(first: Option<string>, second: Option<string>): Option<string> {
    if first.Some? then first else second
  }

  function AgentIdOf(event: Event): Option<string> {
    Else(StringValue(event.payload.agentId), Else(event.actorAgentId, event.fromAgentId))
  }

  function StatusOf(event: Event): Option<Status> {
    var raw, kind := StringValue(event.payload.status), event.kind;
    if raw == Some("cancelled") then Some(Cancelled)
    else if raw == Some("failed") || kind == "task_failed" || kind == "runtime_failed" || kind == "task_rejected" then
      Some(Failed)
    else if raw == Some("completed") || kind == "task_completed" || kind == "runtime_completed" ||
      kind == "post_review_completed" then Some(Completed)
    else if raw == Some("waiting") || raw == Some("blocked") || kind == "task_waiting" || kind == "task_blocked" then
      Some(Waiting)
    else if raw == Some("running") || kind == "task_started" || kind == "runtime_started" then Some(Running)
    else if kind == "agent_message" || kind == "agent_status_changed" then Some(Running)
    else None
  }

  function ProgressOf(status: Status): nat {
    if status.Completed? || status.Failed? || status.Cancelled? then 100
    else if status.Running? then 50 else if status.Waiting? then 25 else 0
  }

  predicate HasOutput(agent: Agent, id: string) {
    exists o :: o in agent.outputs && o.id == id
  }

  /** `addOutput`. */
  function AddOutput(agent: Agent, event: Event): Agent {
    if Blank(event.content) || HasOutput(agent, event.id) then agent
    else agent.(outputs := agent.outputs + [Output(event.id, event.content, event.createdAt)])
  }

  predicate IsRoute(event: Event) {
    event.kind == "agent_message" && event.payload.routing.Some?
  }

  /** `[...new Set(ids)]`. */
  function Unique(ids: seq<string>): (r: seq<string>)
    ensures AllDistinct(r) && forall i :: i in r <==> i in ids
  {
    if ids == [] then []
    else
      var n := |ids| - 1;
      var earlier := Unique(ids[..n]);
      assert ids == ids[..n] + [ids[n]];
      if ids[n] in earlier then earlier else earlier + [ids[n]]
  }

  function FirstCard(cards: seq<Card>, agentId: string): Option<Card> {
    if cards == [] then None else if cards[0].agentId == agentId then Some(cards[0]) else FirstCard(cards[1..], agentId)
  }

  function LastCard(cards: seq<Card>, agentId: string): Option<Card> {
    if cards == [] then None
    else
      var n := |cards| - 1;
      if cards[n].agentId == agentId then Some(cards[n]) else LastCard(cards[..n], agentId)
  }

  function LastRefName(refs: seq<Ref>, agentId: string): Option<string> {
    if refs == [] then None
    else
      var n := |refs| - 1;
      if StringValue(refs[n].id) == Some(agentId) then StringValue(refs[n].name) else LastRefName(refs[..n], agentId)
  }

  function GetOr(value: Option<string>, default: string): string {
    if value.Some? then value.value else default
  }

  function NewAgent(agentId: string, refName: Option<string>, card: Option<Card>): Agent {
    var name := GetOr(refName, if card.Some? then card.value.name else agentId);
    Agent(agentId, name, if card.Some? then card.value.role else "", Pending, 0, [])
  }

  function Candidates(ids: seq<string>, refs: seq<Ref>, cards: seq<Card>): (agents: seq<Agent>)
    ensures |agents| == |ids| && forall i :: 0 <= i < |ids| ==>
      agents[i] == NewAgent(ids[i], LastRefName(refs, ids[i]), LastCard(cards, ids[i]))
  {
    seq(|ids|, i requires 0 <= i < |ids| => NewAgent(ids[i], LastRefName(refs, ids[i]), LastCard(cards, ids[i])))
  }

  /** `panelFromRoute`. */
  function PanelFromRoute(event: Event, cards: seq<Card>): Panel
    requires IsRoute(event)
  {
    var routing := event.payload.routing.value;
    var resolved := StringValue(routing.resolvedAgentId);
    var ids := Unique(routing.candidateAgentIds + (if resolved.Some? then [resolved.value] else []));
    Panel(GetOr(StringValue(event.payload.collaborationTaskId), event.id), StringValue(event.payload.skillName),
          GetOr(StringValue(routing.mode), "main"), StringValue(routing.reason), resolved,
          event.payload.attachmentCount, PanelRunning,
          Candidates(ids, event.payload.agentRefs, cards), [])
  }

  predicate Finished(status: Status) {
    status.Completed? || status.Failed? || status.Cancelled?
  }

  function PanelStatusOf(agents: seq<Agent>): PanelStatus {
    if exists a :: a in agents && a.status == Failed then PanelFailed
    else if agents != [] && forall a :: a in agents ==> a.status == Cancelled then PanelCancelled
    else if agents != [] && forall a :: a in agents ==> Finished(a.status) then PanelCompleted
    else PanelRunning
  }

  // ---------------------------------------------------------------- one event

  datatype State = State(panels: seq<Panel>, taskPanels: map<string, nat>)

  function IndexOf(agents: seq<Agent>, agentId: string): (i: nat)
    ensures i <= |agents|
    ensures i < |agents| ==> agents[i].agentId == agentId
    ensures forall j :: 0 <= j < i ==> agents[j].agentId != agentId
  {
    if agents == [] || agents[0].agentId == agentId then 0 else 1 + IndexOf(agents[1..], agentId)
  }

  /** What an event does to an agent it concerns. */
  function Advance(agent: Agent, event: Event): Agent {
    var next := StatusOf(event);
    var strong := next.None? || Rank(next.value) >= Rank(agent.status);
    var moved := if next.Some? && strong then agent.(status := next.value, progress := ProgressOf(next.value))
      else agent;
    if !IsRoute(event) && strong then AddOutput(moved, event) else moved
  }

  /** One round of the loop over the affected agents. */
  function Concern(agents: seq<Agent>, event: Event, agentId: string, cards: seq<Card>): seq<Agent> {
    var i := IndexOf(agents, agentId);
    if i < |agents| then agents[i := Advance(agents[i], event)]
    else agents + [Advance(NewAgent(agentId, None, FirstCard(cards, agentId)), event)]
  }

  function ConcernAll(agents: seq<Agent>, event: Event, ids: seq<string>, cards: seq<Card>): seq<Agent> {
    if ids == [] then agents
    else Concern(ConcernAll(agents, event, ids[..|ids| - 1], cards), event, ids[|ids| - 1], cards)
  }

  function AffectedIds(event: Event): seq<string> {
    var id := AgentIdOf(event);
    if Given(id) then [id.value] else event.toAgentIds
  }

  predicate IsSummary(event: Event) {
    var kind := StringValue(event.payload.summaryKind);
    event.kind == "agent_message" && (kind == Some("temporary_cancelled") || kind == Some("manual_resummary"))
  }

  function AddSummary(panel: Panel, event: Event): Panel
    requires IsSummary(event)
  {
    if exists s :: s in panel.summaries && s.id == event.id then panel
    else
      var version := if event.payload.summaryVersion.Some? then event.payload.summaryVersion.value
        else |panel.summaries| + 1;
      panel.(summaries := panel.summaries + [Summary(event.id, version, StringValue(event.payload.summaryKind).value,
                                                     event.content, event.payload.sourceEventIds)])
  }

  /** The panel an event belongs to: that of its task, else the latest one. */
  function TargetOf(state: State, event: Event): Option<nat> {
    var task := Else(StringValue(event.payload.taskId), event.taskId);
    if Given(task) && task.value in state.taskPanels then Some(state.taskPanels[task.value])
    else if state.panels != [] then Some(|state.panels| - 1)
    else None
  }

  function Touch(panel: Panel, event: Event, cards: seq<Card>): Panel {
    var changed := if IsSummary(event) then AddSummary(panel, event)
                   else panel.(agents := ConcernAll(panel.agents, event, AffectedIds(event), cards));
    changed.(status := PanelStatusOf(changed.agents))
  }

  function Step(state: State, event: Event, cards: seq<Card>): State {
    if IsRoute(event) then
      var panel := PanelFromRoute(event, cards);
      State(state.panels + [panel], state.taskPanels[panel.taskId := |state.panels|])
    else
      var target := TargetOf(state, event);
      if target.None? || target.value >= |state.panels| then state
      else state.(panels := state.panels[target.value := Touch(state.panels[target.value], event, cards)])
  }

  function Fold(events: seq<Event>, cards: seq<Card>): State {
    if events == [] then State([], map[]) else Step(Fold(events[..|events| - 1], cards), events[|events| - 1], cards)
  }

  // ---------------------------------------------------------------- the order of events

  predicate Precedes(le: Order, a: Event, b: Event) {
    a.createdAt < b.createdAt || (a.createdAt == b.createdAt && le(a.id, b.id))
  }

  predicate HasId(events: seq<Event>, id: string) {
    exists e :: e in events && e.id == id
  }

  /** The filter: the first event of every id. */
  function FirstOfEach(events: seq<Event>): seq<Event> {
    if events == [] then []
    else
      var n := |events| - 1;
      var earlier := FirstOfEach(events[..n]);
      if HasId(earlier, events[n].id) then earlier else earlier + [events[n]]
  }

  function EventOrder(le: Order): (Event, Event) -> bool {
    (a: Event, b: Event) => Precedes(le, a, b)
  }

  function InOrder(le: Order, events: seq<Event>): seq<Event> {
    Sort(EventOrder(le), FirstOfEach(events))
  }

  function Finish(panels: seq<Panel>): seq<Panel> {
    seq(|panels|, i requires 0 <= i < |panels| => panels[i].(status := PanelStatusOf(panels[i].agents)))
  }

  function Build(le: Order, events: seq<Event>, cards: seq<Card>): seq<Panel> {
    Finish(Fold(InOrder(le, events), cards).panels)
  }

  /** `buildCollaborationTaskPanels`. */
  method BuildCollaborationTaskPanels(le: Order, events: seq<Event>, cards: seq<Card>) returns (result: seq<Panel>)
    ensures result == Build(le, events, cards)
  {
    var ordered := InOrder(le, events);
    var panels: seq<Panel>, taskPanels: map<string, nat> := [], map[];
    for k := 0 to |ordered|
      invariant State(panels, taskPanels) == Fold(ordered[..k], cards)
    {
      var event := ordered[k];
      assert ordered[..k + 1][..k] == ordered[..k];
      if IsRoute(event) {
        var panel := PanelFromRoute(event, cards);
        taskPanels := taskPanels[panel.taskId := |panels|];
        panels := panels + [panel];
        continue;
      }
      var target := TargetOf(State(panels, taskPanels), event);
      if target.None? || target.value >= |panels| { continue; }
      var panel := TouchPanel(panels[target.value], event, cards);
      panels := panels[target.value := panel];
    }
    assert ordered[..|ordered|] == ordered;
    result := Finish(panels);
  }

  /** The rest of the loop body, on the panel that the event belongs to. */
  method TouchPanel(before: Panel, event: Event, cards: seq<Card>) returns (panel: Panel)
    ensures panel == Touch(before, event, cards)
  {
    panel := before;
    if IsSummary(event) {
      panel := AddSummary(panel, event);
    } else {
      var agents := ConcernEach(panel.agents, event, AffectedIds(event), cards);
      panel := panel.(agents := agents);
    }
    panel := panel.(status := PanelStatusOf(panel.agents));
  }

  /** The loop over the affected agents. */
  method ConcernEach(before: seq<Agent>, event: Event, ids: seq<string>, cards: seq<Card>) returns (agents: seq<Agent>)
    ensures agents == ConcernAll(before, event, ids, cards)
  {
    agents := before;
    for k := 0 to |ids|
      invariant agents == ConcernAll(before, event, ids[..k], cards)
    {
      assert ids[..k + 1][..k] == ids[..k];
      var i := IndexOf(agents, ids[k]);
      if i == |agents| {
        agents := agents + [NewAgent(ids[k], None, FirstCard(cards, ids[k]))];
      }
      agents := agents[i := Advance(agents[i], event)];
    }
    assert ids[..|ids|] == ids;
  }

  // ---------------------------------------------------------------- refresh and replay converge

  ghost predicate SameEvents(a: seq<Event>, b: seq<Event>) {
    forall e :: e in a <==> e in b
  }

  /** A replayed event is the event that was sent. */
  ghost predicate IdsIdentify(events: seq<Event>) {
    forall e, f :: e in events && f in events && e.id == f.id ==> e == f
  }

  /** No two of the events were created together under ids that compare equal. */
  ghost predicate Settled(le: Order, events: seq<Event>) {
    forall e, f :: e in events && f in events && Precedes(le, e, f) && Precedes(le, f, e) ==> e.id == f.id
  }

  ghost predicate DistinctIds(events: seq<Event>) {
    forall i, j :: 0 <= i < j < |events| ==> events[i].id != events[j].id
  }

  ghost predicate Ordered(le: Order, events: seq<Event>) {
    forall i, j :: 0 <= i < j < |events| ==> Precedes(le, events[i], events[j])
  }

  lemma {:induction false} FirstOfEachKeepsOne(events: seq<Event>)
    ensures DistinctIds(FirstOfEach(events))
    ensures forall e :: e in FirstOfEach(events) ==> e in events
    ensures forall e :: e in events ==> HasId(FirstOfEach(events), e.id)
  {
    if events != [] {
      var n := |events| - 1;
      FirstOfEachKeepsOne(events[..n]);
      assert events == events[..n] + [events[n]];
      var earlier, all := FirstOfEach(events[..n]), FirstOfEach(events);
      forall e | e in events
        ensures HasId(all, e.id)
      {
        if HasId(earlier, e.id) {
          var f :| f in earlier && f.id == e.id;
          assert f in all;
        } else {
          assert e == events[n] && e in all;
        }
      }
    }
  }

  lemma InOrderKeepsIds(le: Order, events: seq<Event>)
    ensures DistinctIds(InOrder(le, events))
    ensures forall e :: e in InOrder(le, events) <==> e in FirstOfEach(events)
  {
    var kept, ordered := FirstOfEach(events), InOrder(le, events);
    FirstOfEachKeepsOne(events);
    SortKeepsMembers(EventOrder(le), kept);
    forall i, j | 0 <= i < j < |ordered|
      ensures ordered[i].id != ordered[j].id
    {
      assert ordered[i] in kept && ordered[j] in kept && ordered[i] != ordered[j];
    }
  }

  /** What the fold runs over: every event once, in order. */
  lemma InOrderLists(le: Order, events: seq<Event>)
    requires TotalPreorder(le)
    ensures Ordered(le, InOrder(le, events)) && DistinctIds(InOrder(le, events))
    ensures IdsIdentify(events) ==> SameEvents(InOrder(le, events), events)
  {
    var kept := FirstOfEach(events);
    FirstOfEachKeepsOne(events);
    SortSorts(EventOrder(le), kept);
    InOrderKeepsIds(le, events);
    if IdsIdentify(events) {
      forall e | e in events
        ensures e in kept
      {
        var f :| f in kept && f.id == e.id;
        assert f == e;
      }
    }
  }

  /** Two ordered lists of the same events, without repetition, are one list. */
  lemma {:induction false} SameEventsSameList(le: Order, a: seq<Event>, b: seq<Event>)
    requires Ordered(le, a) && Ordered(le, b) && AllDistinct(a) && AllDistinct(b) && SameEvents(a, b)
    requires IdsIdentify(a) && Settled(le, a)
    ensures a == b
  {
    if a != [] { assert a[0] in b; }
    if b != [] { assert b[0] in a; }
    if a != [] && b != [] {
      assert a[0] == b[0];
      assert forall e :: e in a[1..] <==> e in a && e != a[0];
      assert forall e :: e in b[1..] <==> e in b && e != b[0];
      SameEventsSameList(le, a[1..], b[1..]);
    }
  }

  /** Any two deliveries of the same events, permuted or repeated, build the same panels. */
  lemma DeliveriesConverge(le: Order, a: seq<Event>, b: seq<Event>, cards: seq<Card>)
    requires TotalPreorder(le) && SameEvents(a, b) && IdsIdentify(a) && Settled(le, a)
    ensures Build(le, a, cards) == Build(le, b, cards)
  {
    InOrderLists(le, a);
    InOrderLists(le, b);
    SameEventsSameList(le, InOrder(le, a), InOrder(le, b));
  }

  ghost predicate Converges(le: Order) {
    forall a, b, cards :: SameEvents(a, b) && IdsIdentify(a) ==> Build(le, a, cards) == Build(le, b, cards)
  }

  /** Two routes created together, whose ids compare equal, stay in the order they were delivered in. */
  lemma TiesDiverge(le: Order, x: Event, y: Event)
    requires le(x.id, y.id) && le(y.id, x.id) && x.createdAt == y.createdAt && x.id != y.id
    requires IsRoute(x) && IsRoute(y) &&
      StringValue(x.payload.collaborationTaskId) == StringValue(y.payload.collaborationTaskId) == None
    ensures Build(le, [x, y], []) != Build(le, [y, x], [])
  {
    BuildTwoRoutes(le, x, y);
    BuildTwoRoutes(le, y, x);
  }

  lemma BuildTwoRoutes(le: Order, x: Event, y: Event)
    requires Precedes(le, x, y) && x.id != y.id && IsRoute(x) && IsRoute(y)
    requires StringValue(x.payload.collaborationTaskId) == None
    ensures var panels := Build(le, [x, y], []); |panels| == 2 && panels[0].taskId == x.id
  {
    FirstOfTwo(x, y);
    TwoInOrder(EventOrder(le), x, y);
    assert [x, y][..1] == [x] && [x][..0] == [];
    assert Fold([x], []) == Step(Fold([], []), x, []);
    assert Fold([x, y], []) == Step(Fold([x], []), y, []);
  }

  lemma FirstOfTwo(x: Event, y: Event)
    requires x.id != y.id
    ensures FirstOfEach([x, y]) == [x, y]
  {
    assert [x, y][..1] == [x] && [x][..0] == [];
    assert !HasId([], x.id) && FirstOfEach([x]) == [] + [x];
    assert forall e :: e in [x] ==> e == x;
    assert !HasId([x], y.id);
  }

  /** A plain route under the given id. */
  function PlainRoute(id: string): Event {
    Event(id, "agent_message", 0, "", None, None, [], None,
          Payload(None, None, None, None, None, None, [], Some(Routing([], None, None, None)), [], None, 0))
  }

  lemma TwoIdentified(x: Event, y: Event)
    requires x.id != y.id
    ensures SameEvents([x, y], [y, x]) && IdsIdentify([x, y])
  {
    forall e
      ensures e in [x, y] <==> e == x || e == y
      ensures e in [y, x] <==> e == x || e == y
    {
      assert [x, y][0] == x && [x, y][1] == y && [y, x][0] == y && [y, x][1] == x;
    }
  }

  /** Refreshing and replaying always agree if and only if the comparison of ids has no ties. */
  lemma ConvergesIffNoTies(le: Order)
    requires TotalPreorder(le)
    ensures Converges(le) <==> NoTies(le)
  {
    if NoTies(le) {
      forall a, b, cards | SameEvents(a, b) && IdsIdentify(a)
        ensures Build(le, a, cards) == Build(le, b, cards)
      {
        DeliveriesConverge(le, a, b, cards);
      }
    } else {
      var i, j :| le(i, j) && le(j, i) && i != j;
      var x, y := PlainRoute(i), PlainRoute(j);
      TiesDiverge(le, x, y);
      TwoIdentified(x, y);
    }
  }

  // ---------------------------------------------------------------- nothing regresses

  predicate AgentGrows(before: Agent, after: Agent) {
    before.agentId == after.agentId && before.name == after.name && before.role == after.role &&
    Rank(before.status) <= Rank(after.status) && before.outputs <= after.outputs
  }

  predicate AgentsGrow(before: seq<Agent>, after: seq<Agent>) {
    |before| <= |after| && forall i :: 0 <= i < |before| ==> AgentGrows(before[i], after[i])
  }

  predicate PanelGrows(before: Panel, after: Panel) {
    before.(agents := [], summaries := [], status := PanelRunning) ==
      after.(agents := [], summaries := [], status := PanelRunning) &&
    AgentsGrow(before.agents, after.agents) && before.summaries <= after.summaries
  }

  predicate StateGrows(before: State, after: State) {
    |before.panels| <= |after.panels| && forall i :: 0 <= i < |before.panels| ==>
      PanelGrows(before.panels[i], after.panels[i])
  }

  lemma AgentGrowthComposes(a: seq<Agent>, b: seq<Agent>, c: seq<Agent>)
    requires AgentsGrow(a, b) && AgentsGrow(b, c)
    ensures AgentsGrow(a, c)
  {
    forall i | 0 <= i < |a|
      ensures AgentGrows(a[i], c[i])
    {
      assert AgentGrows(a[i], b[i]) && AgentGrows(b[i], c[i]);
    }
  }

  lemma {:induction false} ConcernAllGrows(agents: seq<Agent>, event: Event, ids: seq<string>, cards: seq<Card>)
    ensures AgentsGrow(agents, ConcernAll(agents, event, ids, cards))
  {
    if ids != [] {
      var n := |ids| - 1;
      ConcernAllGrows(agents, event, ids[..n], cards);
      var middle := ConcernAll(agents, event, ids[..n], cards);
      ConcernGrows(middle, event, ids[n], cards);
      AgentGrowthComposes(agents, middle, Concern(middle, event, ids[n], cards));
    }
  }

  lemma ConcernGrows(agents: seq<Agent>, event: Event, id: string, cards: seq<Card>)
    ensures AgentsGrow(agents, Concern(agents, event, id, cards))
  {
  }

  lemma StepGrows(state: State, event: Event, cards: seq<Card>)
    ensures StateGrows(state, Step(state, event, cards))
  {
    var target := TargetOf(state, event);
    if !IsRoute(event) && target.Some? && target.value < |state.panels| {
      var panel := state.panels[target.value];
      ConcernAllGrows(panel.agents, event, AffectedIds(event), cards);
      assert PanelGrows(panel, Touch(panel, event, cards));
    }
  }

  /** Along the fold panels and agents are only added, and no agent's status loses strength or output is lost. */
  lemma {:induction false} FoldGrows(events: seq<Event>, cards: seq<Card>, k: nat)
    requires k <= |events|
    ensures StateGrows(Fold(events[..k], cards), Fold(events, cards))
  {
    var n := |events| - 1;
    if k <= n {
      FoldGrows(events[..n], cards, k);
      assert events[..n][..k] == events[..k];
      StepGrows(Fold(events[..n], cards), events[n], cards);
      GrowthComposes(Fold(events[..k], cards), Fold(events[..n], cards), Fold(events, cards));
    } else {
      assert events[..k] == events;
    }
  }

  lemma GrowthComposes(a: State, b: State, c: State)
    requires StateGrows(a, b) && StateGrows(b, c)
    ensures StateGrows(a, c)
  {
    forall i | 0 <= i < |a.panels|
      ensures PanelGrows(a.panels[i], c.panels[i])
    {
      PanelGrowthComposes(a.panels[i], b.panels[i], c.panels[i]);
    }
  }

  lemma PanelGrowthComposes(a: Panel, b: Panel, c: Panel)
    requires PanelGrows(a, b) && PanelGrows(b, c)
    ensures PanelGrows(a, c)
  {
    AgentGrowthComposes(a.agents, b.agents, c.agents);
  }

  /** An agent that has finished never runs again. */
  lemma FinishedStaysFinished(events: seq<Event>, cards: seq<Card>, k: nat, p: nat, a: nat)
    requires k <= |events| && p < |Fold(events[..k], cards).panels| && a < |Fold(events[..k], cards).panels[p].agents|
    requires Finished(Fold(events[..k], cards).panels[p].agents[a].status)
    ensures var panels := Fold(events, cards).panels;
      p < |panels| && a < |panels[p].agents| && Finished(panels[p].agents[a].status) &&
      panels[p].agents[a].agentId == Fold(events[..k], cards).panels[p].agents[a].agentId
  {
    FoldGrows(events, cards, k);
    var before, after := Fold(events[..k], cards).panels[p], Fold(events, cards).panels[p];
    assert PanelGrows(before, after);
    assert AgentGrows(before.agents[a], after.agents[a]);
  }

  // ---------------------------------------------------------------- what every panel keeps

  /** An output shows an event of the stream that said something. */
  predicate Shows(events: seq<Event>, output: Output) {
    exists e :: e in events && output == Output(e.id, e.content, e.createdAt) && !Blank(e.content)
  }

  ghost predicate SoundAgent(events: seq<Event>, agent: Agent) {
    agent.progress == ProgressOf(agent.status) &&
    (forall i, j :: 0 <= i < j < |agent.outputs| ==> agent.outputs[i].id != agent.outputs[j].id) &&
    (forall i :: 0 <= i < |agent.outputs| ==> Shows(events, agent.outputs[i]))
  }

  ghost predicate DistinctAgents(agents: seq<Agent>) {
    forall i, j :: 0 <= i < j < |agents| ==> agents[i].agentId != agents[j].agentId
  }

  ghost predicate SoundAgents(events: seq<Event>, agents: seq<Agent>) {
    (forall i :: 0 <= i < |agents| ==> SoundAgent(events, agents[i])) && DistinctAgents(agents)
  }

  ghost predicate SoundPanel(events: seq<Event>, panel: Panel) {
    SoundAgents(events, panel.agents) && panel.status == PanelStatusOf(panel.agents) &&
    forall i, j :: 0 <= i < j < |panel.summaries| ==> panel.summaries[i].id != panel.summaries[j].id
  }

  ghost predicate SoundState(events: seq<Event>, state: State) {
    (forall i :: 0 <= i < |state.panels| ==> SoundPanel(events, state.panels[i])) &&
    forall t :: t in state.taskPanels ==>
      state.taskPanels[t] < |state.panels| && state.panels[state.taskPanels[t]].taskId == t
  }

  lemma AdvanceIsSound(events: seq<Event>, agent: Agent, event: Event)
    requires event in events && SoundAgent(events, agent)
    ensures SoundAgent(events, Advance(agent, event))
  {
    if !Blank(event.content) { assert Shows(events, Output(event.id, event.content, event.createdAt)); }
  }

  lemma ConcernIsSound(events: seq<Event>, agents: seq<Agent>, event: Event, id: string, cards: seq<Card>)
    requires event in events && SoundAgents(events, agents)
    ensures SoundAgents(events, Concern(agents, event, id, cards))
  {
    var i := IndexOf(agents, id);
    if i < |agents| {
      AdvanceIsSound(events, agents[i], event);
      ChangedAgentIsSound(events, agents, i, Advance(agents[i], event));
    } else {
      var joined := NewAgent(id, None, FirstCard(cards, id));
      AdvanceIsSound(events, joined, event);
      AddedAgentIsSound(events, agents, Advance(joined, event));
    }
  }

  lemma ChangedAgentIsSound(events: seq<Event>, agents: seq<Agent>, i: nat, agent: Agent)
    requires SoundAgents(events, agents) && i < |agents| && SoundAgent(events, agent) &&
      agent.agentId == agents[i].agentId
    ensures SoundAgents(events, agents[i := agent])
  {
  }

  lemma AddedAgentIsSound(events: seq<Event>, agents: seq<Agent>, agent: Agent)
    requires SoundAgents(events, agents) && SoundAgent(events, agent)
    requires forall j :: 0 <= j < |agents| ==> agents[j].agentId != agent.agentId
    ensures SoundAgents(events, agents + [agent])
  {
  }

  lemma {:induction false} ConcernAllIsSound(events: seq<Event>, agents: seq<Agent>, event: Event, ids: seq<string>,
                                             cards: seq<Card>)
    requires event in events && SoundAgents(events, agents)
    ensures SoundAgents(events, ConcernAll(agents, event, ids, cards))
  {
    if ids != [] {
      var n := |ids| - 1;
      ConcernAllIsSound(events, agents, event, ids[..n], cards);
      ConcernIsSound(events, ConcernAll(agents, event, ids[..n], cards), event, ids[n], cards);
    }
  }

  lemma TouchIsSound(events: seq<Event>, panel: Panel, event: Event, cards: seq<Card>)
    requires event in events && SoundPanel(events, panel)
    ensures SoundPanel(events, Touch(panel, event, cards)) && Touch(panel, event, cards).taskId == panel.taskId
  {
    if !IsSummary(event) { ConcernAllIsSound(events, panel.agents, event, AffectedIds(event), cards); }
  }

  lemma RouteIsSound(events: seq<Event>, event: Event, cards: seq<Card>)
    requires IsRoute(event)
    ensures SoundPanel(events, PanelFromRoute(event, cards))
  {
    var routing := event.payload.routing.value;
    var resolved := StringValue(routing.resolvedAgentId);
    CandidatesAreSound(events, Unique(routing.candidateAgentIds + (if resolved.Some? then [resolved.value] else [])),
                       event.payload.agentRefs, cards);
  }

  lemma CandidatesAreSound(events: seq<Event>, ids: seq<string>, refs: seq<Ref>, cards: seq<Card>)
    requires AllDistinct(ids)
    ensures SoundAgents(events, Candidates(ids, refs, cards)) &&
      PanelStatusOf(Candidates(ids, refs, cards)) == PanelRunning
  {
    var agents := Candidates(ids, refs, cards);
    forall i | 0 <= i < |agents|
      ensures agents[i].agentId == ids[i] && agents[i].status == Pending && SoundAgent(events, agents[i])
    {
    }
    if agents != [] { assert agents[0] in agents; }
  }

  lemma MoreEventsStaySound(events: seq<Event>, more: seq<Event>, state: State)
    requires SoundState(events, state) && forall e :: e in events ==> e in more
    ensures SoundState(more, state)
  {
    forall i, a | 0 <= i < |state.panels| && 0 <= a < |state.panels[i].agents|
      ensures SoundAgent(more, state.panels[i].agents[a])
    {
      assert SoundPanel(events, state.panels[i]);
      assert SoundAgent(events, state.panels[i].agents[a]);
    }
    assert forall i :: 0 <= i < |state.panels| ==> SoundPanel(events, state.panels[i]);
  }

  lemma StepIsSound(events: seq<Event>, state: State, event: Event, cards: seq<Card>)
    requires event in events && SoundState(events, state)
    ensures SoundState(events, Step(state, event, cards))
  {
    var target := TargetOf(state, event);
    if IsRoute(event) {
      RouteIsSound(events, event, cards);
      AddedPanelIsSound(events, state, PanelFromRoute(event, cards));
    } else if target.Some? {
      var panel := state.panels[target.value];
      TouchIsSound(events, panel, event, cards);
      ChangedPanelIsSound(events, state, target.value, Touch(panel, event, cards));
    }
  }

  lemma ChangedPanelIsSound(events: seq<Event>, state: State, i: nat, panel: Panel)
    requires SoundState(events, state) && i < |state.panels|
    requires SoundPanel(events, panel) && panel.taskId == state.panels[i].taskId
    ensures SoundState(events, state.(panels := state.panels[i := panel]))
  {
  }

  lemma AddedPanelIsSound(events: seq<Event>, state: State, panel: Panel)
    requires SoundState(events, state) && SoundPanel(events, panel)
    ensures SoundState(events, State(state.panels + [panel], state.taskPanels[panel.taskId := |state.panels|]))
  {
  }

  lemma {:induction false} FoldIsSound(events: seq<Event>, cards: seq<Card>)
    ensures SoundState(events, Fold(events, cards))
  {
    if events != [] {
      var n := |events| - 1;
      FoldIsSound(events[..n], cards);
      MoreEventsStaySound(events[..n], events, Fold(events[..n], cards));
      StepIsSound(events, Fold(events[..n], cards), events[n], cards);
    }
  }

  /**
    In what is shown, an agent appears once in a panel, an event once among its outputs, and every status
    is the one its parts call for: the closing pass over the panels changes none of them.
   */
  lemma BuildIsSound(le: Order, events: seq<Event>, cards: seq<Card>)
    ensures Build(le, events, cards) == Fold(InOrder(le, events), cards).panels
    ensures forall i :: 0 <= i < |Build(le, events, cards)| ==> SoundPanel(events, Build(le, events, cards)[i])
  {
    var ordered := InOrder(le, events);
    FoldIsSound(ordered, cards);
    FirstOfEachKeepsOne(events);
    InOrderKeepsIds(le, events);
    MoreEventsStaySound(ordered, events, Fold(ordered, cards));
    var panels := Fold(ordered, cards).panels;
    assert forall i :: 0 <= i < |panels| ==> SoundPanel(events, panels[i]);
  }

  // ---------------------------------------------------------------- which panel an event reaches

  ghost predicate LatestOf(panels: seq<Panel>, task: string, p: nat) {
    p < |panels| && panels[p].taskId == task && forall q :: p < q < |panels| ==> panels[q].taskId != task
  }

  /** The index by task holds the latest panel of every task that has one. */
  ghost predicate Indexed(state: State) {
    (forall t :: t in state.taskPanels ==> LatestOf(state.panels, t, state.taskPanels[t])) &&
    forall p :: 0 <= p < |state.panels| ==> state.panels[p].taskId in state.taskPanels
  }

  lemma StepIsIndexed(state: State, event: Event, cards: seq<Card>)
    requires Indexed(state)
    ensures Indexed(Step(state, event, cards))
  {
    if !IsRoute(event) {
      SameTasksIndexed(state, Step(state, event, cards).panels);
    } else {
      AddedPanelIsIndexed(state, PanelFromRoute(event, cards));
    }
  }

  lemma SameTasksIndexed(state: State, panels: seq<Panel>)
    requires Indexed(state) && |panels| == |state.panels|
    requires forall p :: 0 <= p < |panels| ==> panels[p].taskId == state.panels[p].taskId
    ensures Indexed(state.(panels := panels))
  {
    forall t | t in state.taskPanels
      ensures LatestOf(panels, t, state.taskPanels[t])
    {
      assert LatestOf(state.panels, t, state.taskPanels[t]);
    }
  }

  lemma AddedPanelIsIndexed(state: State, panel: Panel)
    requires Indexed(state)
    ensures Indexed(State(state.panels + [panel], state.taskPanels[panel.taskId := |state.panels|]))
  {
    var after := State(state.panels + [panel], state.taskPanels[panel.taskId := |state.panels|]);
    forall t | t in after.taskPanels
      ensures LatestOf(after.panels, t, after.taskPanels[t])
    {
      assert t in state.taskPanels ==> LatestOf(state.panels, t, state.taskPanels[t]);
    }
  }

  lemma {:induction false} FoldIsIndexed(events: seq<Event>, cards: seq<Card>)
    ensures Indexed(Fold(events, cards))
  {
    if events != [] {
      FoldIsIndexed(events[..|events| - 1], cards);
      StepIsIndexed(Fold(events[..|events| - 1], cards), events[|events| - 1], cards);
    }
  }

  /** An event that names a task with a panel reaches the latest such panel, and any other the latest panel of all. */
  lemma EventsReachTheirPanel(events: seq<Event>, cards: seq<Card>, event: Event)
    ensures var state := Fold(events, cards); var target := TargetOf(state, event);
      var task := Else(StringValue(event.payload.taskId), event.taskId);
      (target.None? <==> state.panels == []) &&
      (target.Some? ==> target.value < |state.panels|) &&
      (Given(task) && (exists p :: LatestOf(state.panels, task.value, p)) ==>
       target.Some? && LatestOf(state.panels, task.value, target.value)) &&
      (target.Some? && !(Given(task) && exists p :: LatestOf(state.panels, task.value, p)) ==>
       target.value == |state.panels| - 1)
  {
    FoldIsIndexed(events, cards);
    var state, task := Fold(events, cards), Else(StringValue(event.payload.taskId), event.taskId);
    if Given(task) && task.value in state.taskPanels {
      assert LatestOf(state.panels, task.value, state.taskPanels[task.value]);
    }
  }

  /** A new panel lists each candidate of its route once, and the agent it resolved to, all of them pending. */
  lemma RouteListsCandidates(event: Event, cards: seq<Card>, agentId: string)
    requires IsRoute(event)
    ensures var routing := event.payload.routing.value; var panel := PanelFromRoute(event, cards);
      (HasAgent(panel.agents, agentId) <==>
       agentId in routing.candidateAgentIds || StringValue(routing.resolvedAgentId) == Some(agentId)) &&
      DistinctAgents(panel.agents) && forall i :: 0 <= i < |panel.agents| ==>
        panel.agents[i].status == Pending && panel.agents[i].outputs == []
  {
    var routing := event.payload.routing.value;
    var resolved := StringValue(routing.resolvedAgentId);
    var ids := Unique(routing.candidateAgentIds + (if resolved.Some? then [resolved.value] else []));
    CandidatesAreSound([], ids, event.payload.agentRefs, cards);
    forall i | 0 <= i < |ids|
      ensures PanelFromRoute(event, cards).agents[i] ==
        NewAgent(ids[i], LastRefName(event.payload.agentRefs, ids[i]), LastCard(cards, ids[i]))
    {
    }
    if agentId in ids {
      var i :| 0 <= i < |ids| && ids[i] == agentId;
      assert PanelFromRoute(event, cards).agents[i].agentId == agentId;
    }
  }

  // ---------------------------------------------------------------- what an agent shows, from its history

  /** The events of the stream that concerned this agent in this panel. */
  function Heard(events: seq<Event>, cards: seq<Card>, p: nat, agentId: string): seq<Event> {
    if events == [] then []
    else
      var n := |events| - 1;
      var earlier, state, event := Heard(events[..n], cards, p, agentId), Fold(events[..n], cards), events[n];
      if !IsRoute(event) && !IsSummary(event) && p < |state.panels| && TargetOf(state, event) == Some(p) &&
        agentId in AffectedIds(event)
      then earlier + [event] else earlier
  }

  /** No earlier event called for a stronger status. */
  ghost predicate Current(heard: seq<Event>, event: Event) {
    StatusOf(event).Some? ==>
      forall f :: f in heard && StatusOf(f).Some? ==> Rank(StatusOf(f).value) <= Rank(StatusOf(event).value)
  }

  /** The outputs of a history: what said something, unless it was already out of date when its turn came. */
  ghost function Admitted(heard: seq<Event>): seq<Output> {
    if heard == [] then []
    else
      var n := |heard| - 1;
      var event := heard[n];
      Admitted(heard[..n]) +
      (if !Blank(event.content) && Current(heard[..n], event) then [Output(event.id, event.content, event.createdAt)]
       else [])
  }

  /** The strongest of the statuses that the events call for. */
  ghost predicate Strongest(heard: seq<Event>, status: Status) {
    (forall e :: e in heard && StatusOf(e).Some? ==> Rank(StatusOf(e).value) <= Rank(status)) &&
    (status == Pending || exists e :: e in heard && StatusOf(e) == Some(status))
  }

  ghost predicate Faithful(agent: Agent, heard: seq<Event>) {
    Strongest(heard, agent.status) && agent.outputs == Admitted(heard)
  }

  lemma {:induction false} AdmittedIds(heard: seq<Event>)
    ensures forall o :: o in Admitted(heard) ==> HasId(heard, o.id)
  {
    if heard != [] {
      var n := |heard| - 1;
      AdmittedIds(heard[..n]);
      assert heard[n] in heard;
      forall o | o in Admitted(heard)
        ensures HasId(heard, o.id)
      {
        if o in Admitted(heard[..n]) {
          var e :| e in heard[..n] && e.id == o.id;
          assert e in heard;
        }
      }
    }
  }

  lemma AdvanceIsFaithful(agent: Agent, heard: seq<Event>, event: Event)
    requires Faithful(agent, heard) && !IsRoute(event) && !HasId(heard, event.id)
    ensures Faithful(Advance(agent, event), heard + [event])
  {
    AdmittedIds(heard);
    assert !HasOutput(agent, event.id);
    assert (heard + [event])[..|heard|] == heard;
    var next := StatusOf(event);
    StrongCurrent(heard, agent.status, event);
    if next.Some? && Rank(next.value) >= Rank(agent.status) {
      assert event in heard + [event];
      assert Strongest(heard + [event], next.value);
    } else {
      StillStrongest(heard, agent.status, event);
    }
  }

  lemma StrongCurrent(heard: seq<Event>, status: Status, event: Event)
    requires Strongest(heard, status)
    ensures Current(heard, event) <==> StatusOf(event).None? || Rank(StatusOf(event).value) >= Rank(status)
  {
    if StatusOf(event).Some? && status != Pending {
      var e :| e in heard && StatusOf(e) == Some(status);
    }
  }

  lemma StillStrongest(heard: seq<Event>, status: Status, event: Event)
    requires Strongest(heard, status)
    requires StatusOf(event).Some? ==> Rank(StatusOf(event).value) < Rank(status)
    ensures Strongest(heard + [event], status)
  {
    if status != Pending {
      var e :| e in heard && StatusOf(e) == Some(status);
      assert e in heard + [event];
    }
  }

  /** An agent that an event names twice is advanced once. */
  lemma AdvanceTwice(agent: Agent, event: Event)
    ensures Advance(Advance(agent, event), event) == Advance(agent, event)
  {
    var once := Advance(agent, event);
    if HasOutput(agent, event.id) {
      assert once.outputs == agent.outputs;
    } else if once.outputs != agent.outputs {
      assert once.outputs[|agent.outputs|].id == event.id;
      assert once.outputs[|agent.outputs|] in once.outputs;
    }
  }

  predicate HasAgent(agents: seq<Agent>, agentId: string) {
    exists i :: 0 <= i < |agents| && agents[i].agentId == agentId
  }

  ghost predicate Joined(agent: Agent, event: Event, ids: seq<string>, cards: seq<Card>) {
    agent.agentId in ids && agent == Advance(NewAgent(agent.agentId, None, FirstCard(cards, agent.agentId)), event)
  }

  /** The agents after an event: each named one advanced, whether known or new, and the others untouched. */
  ghost predicate Informed(agents: seq<Agent>, after: seq<Agent>, event: Event, ids: seq<string>, cards: seq<Card>) {
    |agents| <= |after| && DistinctAgents(after) &&
    (forall i :: 0 <= i < |agents| ==> after[i] == if agents[i].agentId in ids then Advance(agents[i], event)
     else agents[i]) &&
    (forall i :: |agents| <= i < |after| ==> Joined(after[i], event, ids, cards)) &&
    (forall id :: id in ids ==> HasAgent(after, id))
  }

  lemma {:induction false} ConcernAllInforms(agents: seq<Agent>, event: Event, ids: seq<string>, cards: seq<Card>)
    requires DistinctAgents(agents)
    ensures Informed(agents, ConcernAll(agents, event, ids, cards), event, ids, cards)
  {
    if ids != [] {
      var n := |ids| - 1;
      ConcernAllInforms(agents, event, ids[..n], cards);
      assert ids == ids[..n] + [ids[n]];
      ConcernInforms(agents, ConcernAll(agents, event, ids[..n], cards), event, ids[..n], ids[n], cards);
    }
  }

  lemma ConcernInforms(agents: seq<Agent>, middle: seq<Agent>, event: Event, ids: seq<string>, id: string,
                       cards: seq<Card>)
    requires Informed(agents, middle, event, ids, cards)
    ensures Informed(agents, Concern(middle, event, id, cards), event, ids + [id], cards)
  {
    var after, k := Concern(middle, event, id, cards), IndexOf(middle, id);
    assert after[k].agentId == id;
    forall x | x in ids + [id]
      ensures HasAgent(after, x)
    {
      if x != id {
        var i :| 0 <= i < |middle| && middle[i].agentId == x;
        assert after[i].agentId == x;
      }
    }
    if k < |middle| {
      AgainInforms(agents, middle, event, ids, k, cards);
    } else {
      assert Joined(after[k], event, ids + [id], cards);
      forall i | |agents| <= i < |middle|
        ensures Joined(after[i], event, ids + [id], cards)
      {
        assert Joined(middle[i], event, ids, cards);
      }
    }
  }

  lemma AgainInforms(agents: seq<Agent>, middle: seq<Agent>, event: Event, ids: seq<string>, k: nat, cards: seq<Card>)
    requires Informed(agents, middle, event, ids, cards) && k < |middle|
    ensures var after, more := middle[k := Advance(middle[k], event)], ids + [middle[k].agentId];
      DistinctAgents(after) &&
      (forall i :: 0 <= i < |agents| ==> after[i] == if agents[i].agentId in more then Advance(agents[i], event)
       else agents[i]) &&
      (forall i :: |agents| <= i < |after| ==> Joined(after[i], event, more, cards))
  {
    var after, more := middle[k := Advance(middle[k], event)], ids + [middle[k].agentId];
    assert k >= |agents| ==> Joined(middle[k], event, ids, cards);
    if middle[k].agentId in ids { AdvancedAlready(agents, middle, event, ids, k, cards); }
    forall i | 0 <= i < |after|
      ensures after[i].agentId == middle[i].agentId &&
        (i != k ==> after[i] == middle[i] && middle[i].agentId != middle[k].agentId)
    {
    }
    forall i | |agents| <= i < |after|
      ensures Joined(after[i], event, more, cards)
    {
      assert Joined(middle[i], event, ids, cards);
    }
  }

  lemma AdvancedAlready(agents: seq<Agent>, middle: seq<Agent>, event: Event, ids: seq<string>, k: nat,
                        cards: seq<Card>)
    requires Informed(agents, middle, event, ids, cards) && k < |middle| && middle[k].agentId in ids
    ensures Advance(middle[k], event) == middle[k]
  {
    if k < |agents| {
      assert middle[k].agentId == agents[k].agentId;
      AdvanceTwice(agents[k], event);
    } else {
      AdvanceTwice(NewAgent(middle[k].agentId, None, FirstCard(cards, middle[k].agentId)), event);
    }
  }

  lemma {:induction false} HeardBelongs(events: seq<Event>, cards: seq<Card>, p: nat, agentId: string)
    ensures forall e :: e in Heard(events, cards, p, agentId) ==> e in events
  {
    if events != [] {
      var n := |events| - 1;
      HeardBelongs(events[..n], cards, p, agentId);
      assert events == events[..n] + [events[n]];
    }
  }

  /** Every agent shown is what its history calls for, and every history belongs to an agent shown. */
  ghost predicate TellsHistory(events: seq<Event>, cards: seq<Card>, panels: seq<Panel>) {
    (forall p, i :: 0 <= p < |panels| && 0 <= i < |panels[p].agents| ==>
      Faithful(panels[p].agents[i], Heard(events, cards, p, panels[p].agents[i].agentId))) &&
    (forall p: nat, id :: Heard(events, cards, p, id) != [] ==> p < |panels| && HasAgent(panels[p].agents, id))
  }

  lemma RouteTellsHistory(events: seq<Event>, cards: seq<Card>, event: Event)
    requires IsRoute(event) && TellsHistory(events, cards, Fold(events, cards).panels)
    ensures TellsHistory(events, cards, Fold(events, cards).panels + [PanelFromRoute(event, cards)])
  {
    var panels := Fold(events, cards).panels;
    var all := panels + [PanelFromRoute(event, cards)];
    forall p, i | 0 <= p < |all| && 0 <= i < |all[p].agents|
      ensures Faithful(all[p].agents[i], Heard(events, cards, p, all[p].agents[i].agentId))
    {
      if p == |panels| {
        assert Heard(events, cards, p, all[p].agents[i].agentId) == [];
        assert all[p].agents[i].status == Pending && all[p].agents[i].outputs == [];
      }
    }
  }

  lemma JoinedIsNew(before: seq<Agent>, after: seq<Agent>, event: Event, ids: seq<string>, i: nat, cards: seq<Card>)
    requires Informed(before, after, event, ids, cards) && |before| <= i < |after|
    ensures !HasAgent(before, after[i].agentId)
  {
    forall k | 0 <= k < |before|
      ensures before[k].agentId != after[i].agentId
    {
      assert before[k].agentId == after[k].agentId;
    }
  }

  /** The history of the panel an event belongs to, after the event. */
  lemma TouchTellsHistory(events: seq<Event>, cards: seq<Card>, p: nat, before: seq<Agent>, event: Event, i: nat)
    requires forall k :: 0 <= k < |before| ==> Faithful(before[k], Heard(events, cards, p, before[k].agentId))
    requires forall id :: Heard(events, cards, p, id) != [] ==> HasAgent(before, id)
    requires forall e :: e in events ==> e.id != event.id
    requires !IsRoute(event) && DistinctAgents(before)
    requires i < |ConcernAll(before, event, AffectedIds(event), cards)|
    ensures var agent := ConcernAll(before, event, AffectedIds(event), cards)[i];
      var heard := Heard(events, cards, p, agent.agentId);
      Faithful(agent, if agent.agentId in AffectedIds(event) then heard + [event] else heard)
  {
    ConcernAllInforms(before, event, AffectedIds(event), cards);
    var after := ConcernAll(before, event, AffectedIds(event), cards);
    var heard := Heard(events, cards, p, after[i].agentId);
    HeardBelongs(events, cards, p, after[i].agentId);
    if i < |before| {
      assert after[i].agentId == before[i].agentId;
      if before[i].agentId in AffectedIds(event) { AdvanceIsFaithful(before[i], heard, event); }
    } else {
      assert Joined(after[i], event, AffectedIds(event), cards);
      JoinedIsNew(before, after, event, AffectedIds(event), i, cards);
      AdvanceIsFaithful(NewAgent(after[i].agentId, None, FirstCard(cards, after[i].agentId)), [], event);
    }
  }

  lemma EveryoneNamedIsShown(before: seq<Agent>, event: Event, ids: seq<string>, cards: seq<Card>, id: string)
    requires DistinctAgents(before) && (HasAgent(before, id) || id in ids)
    ensures HasAgent(ConcernAll(before, event, ids, cards), id)
  {
    ConcernAllInforms(before, event, ids, cards);
    if id !in ids {
      var k :| 0 <= k < |before| && before[k].agentId == id;
      assert ConcernAll(before, event, ids, cards)[k].agentId == id;
    }
  }

  lemma StepTellsHistory(events: seq<Event>, cards: seq<Card>)
    requires events != [] && DistinctIds(events)
    requires TellsHistory(events[..|events| - 1], cards, Fold(events[..|events| - 1], cards).panels)
    ensures TellsHistory(events, cards, Fold(events, cards).panels)
  {
    var n := |events| - 1;
    var state, target := Fold(events[..n], cards), TargetOf(Fold(events[..n], cards), events[n]);
    FoldIsSound(events[..n], cards);
    if IsRoute(events[n]) {
      RouteTellsHistory(events[..n], cards, events[n]);
      SameHistory(events, cards);
    } else if target.None? || IsSummary(events[n]) {
      IdleTellsHistory(events, cards);
    } else {
      assert SoundPanel(events[..n], state.panels[target.value]);
      assert forall e :: e in events[..n] ==> e.id != events[n].id;
      ConcernTellsHistory(events, cards, target.value);
    }
  }

  lemma IdleTellsHistory(events: seq<Event>, cards: seq<Card>)
    requires events != []
    requires var event := events[|events| - 1];
      !IsRoute(event) && (IsSummary(event) || TargetOf(Fold(events[..|events| - 1], cards), event).None?)
    requires TellsHistory(events[..|events| - 1], cards, Fold(events[..|events| - 1], cards).panels)
    ensures TellsHistory(events, cards, Fold(events, cards).panels)
  {
    var earlier := events[..|events| - 1];
    SameHistory(events, cards);
    IdleKeepsAgents(Fold(earlier, cards), events[|events| - 1], cards);
    SameAgentsTellHistory(earlier, events, cards, Fold(earlier, cards).panels, Fold(events, cards).panels);
  }

  lemma IdleKeepsAgents(state: State, event: Event, cards: seq<Card>)
    requires !IsRoute(event) && (IsSummary(event) || TargetOf(state, event).None?)
    ensures var panels := Step(state, event, cards).panels;
      |panels| == |state.panels| && forall p :: 0 <= p < |panels| ==> panels[p].agents == state.panels[p].agents
  {
  }

  lemma SameAgentsTellHistory(events: seq<Event>, more: seq<Event>, cards: seq<Card>, before: seq<Panel>,
                              after: seq<Panel>)
    requires TellsHistory(events, cards, before)
    requires |before| == |after| && forall p :: 0 <= p < |after| ==> after[p].agents == before[p].agents
    requires forall p: nat, id :: Heard(more, cards, p, id) == Heard(events, cards, p, id)
    ensures TellsHistory(more, cards, after)
  {
    forall p, i | 0 <= p < |after| && 0 <= i < |after[p].agents|
      ensures Faithful(after[p].agents[i], Heard(more, cards, p, after[p].agents[i].agentId))
    {
      assert before[p].agents[i] == after[p].agents[i];
    }
  }

  lemma ConcernTellsHistory(events: seq<Event>, cards: seq<Card>, t: nat)
    requires events != []
    requires var earlier, event := events[..|events| - 1], events[|events| - 1];
      var state := Fold(earlier, cards);
      !IsRoute(event) && !IsSummary(event) && t < |state.panels| && TargetOf(state, event) == Some(t) &&
      DistinctAgents(state.panels[t].agents) && (forall e :: e in earlier ==> e.id != event.id) &&
      TellsHistory(earlier, cards, state.panels)
    ensures TellsHistory(events, cards, Fold(events, cards).panels)
  {
    var earlier, event := events[..|events| - 1], events[|events| - 1];
    var before, after := Fold(earlier, cards).panels, Fold(events, cards).panels;
    var agents := before[t].agents;
    ConcernTouchesOne(Fold(earlier, cards), event, cards, t);
    OtherHistories(events, cards, t);
    forall i | 0 <= i < |after[t].agents|
      ensures Faithful(after[t].agents[i], Heard(events, cards, t, after[t].agents[i].agentId))
    {
      TouchTellsHistory(earlier, cards, t, agents, event, i);
    }
    forall id | Heard(events, cards, t, id) != []
      ensures HasAgent(after[t].agents, id)
    {
      EveryoneNamedIsShown(agents, event, AffectedIds(event), cards, id);
    }
  }

  lemma ConcernTouchesOne(state: State, event: Event, cards: seq<Card>, t: nat)
    requires !IsRoute(event) && !IsSummary(event) && t < |state.panels| && TargetOf(state, event) == Some(t)
    ensures var panels := Step(state, event, cards).panels;
      |panels| == |state.panels| && panels[t].agents ==
        ConcernAll(state.panels[t].agents, event, AffectedIds(event), cards) &&
      forall p :: 0 <= p < |panels| && p != t ==> panels[p] == state.panels[p]
  {
  }

  lemma OtherHistories(events: seq<Event>, cards: seq<Card>, t: nat)
    requires events != [] && TargetOf(Fold(events[..|events| - 1], cards), events[|events| - 1]) == Some(t)
    ensures forall p: nat, id :: p != t ==> Heard(events, cards, p, id) == Heard(events[..|events| - 1], cards, p, id)
  {
  }

  lemma SameHistory(events: seq<Event>, cards: seq<Card>)
    requires events != []
    requires var event := events[|events| - 1];
      IsRoute(event) || IsSummary(event) || TargetOf(Fold(events[..|events| - 1], cards), event).None?
    ensures forall p: nat, id :: Heard(events, cards, p, id) == Heard(events[..|events| - 1], cards, p, id)
  {
  }

  lemma {:induction false} FoldTellsHistory(events: seq<Event>, cards: seq<Card>)
    requires DistinctIds(events)
    ensures TellsHistory(events, cards, Fold(events, cards).panels)
  {
    if events != [] {
      FoldTellsHistory(events[..|events| - 1], cards);
      StepTellsHistory(events, cards);
    }
  }

  /**
    Each agent shown has the strongest status that the events concerning it call for, whatever their order,
    and exactly the outputs that were not out of date when their turn came.
   */
  lemma BuildTellsHistory(le: Order, events: seq<Event>, cards: seq<Card>)
    ensures TellsHistory(InOrder(le, events), cards, Build(le, events, cards))
  {
    InOrderKeepsIds(le, events);
    FoldTellsHistory(InOrder(le, events), cards);
    BuildIsSound(le, events, cards);
  }
}
