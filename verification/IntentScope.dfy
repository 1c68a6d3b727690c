/**
  `assertIntentInvocationScope`: which invocation plans may run under a committed effect scope. The branches
  of the guard each look at a few fields; what an accepted plan can do follows only from all of them together.
 */
module IntentScope {

  import opened Options
  import opened ScriptValues

  datatype EffectKind = Answer | ReadWorkspace | WriteArtifact | ModifySource | RunTests | RunCommand | ExternalWrite
  datatype ResourceKind = Workspace | Source | Artifact | TestRunner | Command | External | Unresolved
  datatype Resource = Resource(kind: ResourceKind, refId: Option<string>)
  datatype Effect = Effect(kind: EffectKind, target: Resource)
  datatype Prohibition = Prohibition(effectKind: EffectKind, target: Resource)
  datatype EffectScope = EffectScope(effects: seq<Effect>, prohibitions: seq<Prohibition>, grantIds: seq<string>,
                                     scopeHash: string)

  datatype Runtime = Mock | GenericLlm | CodeReader | IsolatedTestRunner | Codex | ClaudeCode | McpTool | Human
  datatype WriteMode = NoWrites | ProposeChanges | ProposalOnly | DirectAudited
  datatype Provider = ServerLocal | LocalBridge
  datatype Capability = Read | Write | RunCommands | Test
  datatype AdmissionClass = Business | Routing | Response
  datatype Phase = Discussion | BriefGeneration | BriefRevision | BriefConsultation | TaskAcceptance | TaskExecution |
                   RevisionSynthesis | PostReview | FinalDelivery | UserMessageRouting | UserMessageResponse

  datatype CandidateBinding = CandidateBinding(
    mode: string, authorityId: string, authorityRevision: int, authorityHash: string, sourceResourceId: string,
    grantId: string,
    workspaceId: string, workspaceBindingHash: string, sessionId: string, dataEpoch: string, sessionGeneration: int,
    workItemId: string, taskId: string, intentStepId: string, invocationId: string, operationId: string,
    effectScopeHash: string)

  datatype TestBinding = TestBinding(runnerId: string, resourceId: string, bindingHash: string, workspaceId: string,
                                     imageId: string, script: string)
  datatype ExecutionBinding = ExecutionBinding(sessionGeneration: int, effectScopeHash: string)
  datatype Operation = Operation(id: string, sessionGeneration: int)
  datatype Target = Target(runtimeType: Runtime, writeMode: WriteMode, provider: Provider,
                           requiredCapabilities: seq<Capability>)
  datatype Output = Output(kind: string, schemaVersion: string)

  datatype Plan = Plan(
    sourceCandidateBinding: Option<CandidateBinding>, intentTestBinding: Option<TestBinding>,
    admissionClass: Option<AdmissionClass>,
    intentStepId: Option<string>, dataEpoch: Option<string>, effectScope: Option<EffectScope>,
    executionBinding: Option<ExecutionBinding>,
    invocationId: string, sessionId: string, workItemId: Option<string>, taskId: Option<string>, phase: Phase,
    capabilityIds: seq<string>,
    executionTarget: Target, tools: seq<string>, workspaceId: string, contextSessionId: string, expectedOutput: Output,
    resumes: bool, operation: Option<Operation>)

  datatype ScopeError =
    | CandidateInvocationInvalid | BriefCapabilityUnavailable | ResponseCapabilityUnavailable
    | RoutingCapabilityUnavailable
    | TestScopeRequired | EffectScopeRequired | TestInvocationInvalid | EffectScopeUnsupported
    | SourceWriteNotAuthorized
    | ToolScopeMismatch | EffectScopeHashMismatch

  predicate IsHash(s: string) {
    |s| == 64 && forall i :: 0 <= i < 64 ==> ('a' <= s[i] <= 'f' || '0' <= s[i] <= '9')
  }

  function Count(effects: seq<Effect>, kind: EffectKind): nat {
    if effects == [] then 0 else (if effects[0].kind == kind then 1 else 0) + Count(effects[1..], kind)
  }

  predicate Has(effects: seq<Effect>, kind: EffectKind) {
    exists e :: e in effects && e.kind == kind
  }

  /** `effects.find` of the first effect of a kind. */
  function First(effects: seq<Effect>, kind: EffectKind): Option<Effect> {
    if effects == [] then None else if effects[0].kind == kind then Some(effects[0]) else First(effects[1..], kind)
  }

  // ---------------------------------------------------------------- the guard

  predicate BlankIdentifiers(b: CandidateBinding) {
    Blank(b.authorityId) || Blank(b.sourceResourceId) || Blank(b.grantId) || Blank(b.sessionId) || Blank(b.dataEpoch) ||
    Blank(b.workItemId) || Blank(b.taskId) || Blank(b.intentStepId) || Blank(b.invocationId) || Blank(b.operationId)
  }

  /** `isCandidateDescription`. */
  predicate IsCandidateDescription(scope: EffectScope, workspaceId: string, binding: CandidateBinding) {
    binding.mode == "candidate_only" && binding.workspaceId == workspaceId && !BlankIdentifiers(binding) &&
    SafeInteger(binding.authorityRevision) && binding.authorityRevision >= 1 &&
    SafeInteger(binding.sessionGeneration) && binding.sessionGeneration >= 1 &&
    IsHash(binding.authorityHash) && IsHash(binding.workspaceBindingHash) && IsHash(binding.effectScopeHash) &&
    binding.effectScopeHash == scope.scopeHash && binding.grantId in scope.grantIds &&
    Count(scope.effects, ModifySource) == 1 &&
    First(scope.effects, ModifySource) ==
      Some(Effect(ModifySource, Resource(Source, Some(binding.sourceResourceId)))) &&
    Count(scope.effects, ReadWorkspace) <= 1 &&
    (forall e :: e in scope.effects && e.kind != ModifySource ==>
     e == Effect(ReadWorkspace, Resource(Workspace, Some(workspaceId)))) &&
    !(Has(scope.effects, ReadWorkspace) && forall g :: g in scope.grantIds ==> g == binding.grantId) &&
    !exists ban :: ban in scope.prohibitions && BansCandidate(scope, ban)
  }

  predicate BansCandidate(scope: EffectScope, ban: Prohibition) {
    ban.target.kind == Unresolved || !Given(ban.target.refId) ||
    exists e :: e in scope.effects && e.kind == ban.effectKind && (e.kind == ReadWorkspace || e.target == ban.target)
  }

  predicate Bans(scope: EffectScope, ban: Prohibition) {
    Has(scope.effects, ban.effectKind)
  }

  /** `supportsRestrictedIntentClassification`. */
  predicate SupportsClassification(runtime: Runtime, provider: Provider) {
    runtime == GenericLlm || runtime == Mock || (runtime == ClaudeCode && provider == ServerLocal)
  }

  /** `isReadOnlyAnswerScope`. */
  predicate IsReadOnlyAnswerScope(scope: EffectScope, workspaceId: string) {
    Count(scope.effects, Answer) == 1 && |scope.effects| <= 2 &&
    forall e :: e in scope.effects ==>
      e.kind == Answer || (e == Effect(ReadWorkspace, Resource(Workspace, Some(workspaceId))) && |scope.grantIds| > 0)
  }

  /** The artifact that reports on the isolated runner. */
  predicate ReportsOn(effect: Effect, test: Effect) {
    effect.kind == WriteArtifact && effect.target.kind == Artifact && effect.target.refId.Some? &&
    test.target.refId.Some? &&
    var runner, report := test.target.refId.value, effect.target.refId.value;
    |runner| == 76 && runner[..12] == "test-runner:" && IsHash(runner[12..]) && report == "test-report:" + runner[12..]
  }

  /** `isIsolatedTestScope`. */
  predicate IsIsolatedTestScope(scope: EffectScope) {
    var test := First(scope.effects, RunTests);
    test.Some? && Count(scope.effects, RunTests) == 1 && |scope.effects| <= 2 &&
    test.value.target.kind == TestRunner && |scope.grantIds| > 0 &&
    (forall e :: e in scope.effects ==> e.kind == RunTests || ReportsOn(e, test.value)) &&
    !exists ban :: ban in scope.prohibitions && Bans(scope, ban)
  }

  /** `supportsIntentEffectScope`. */
  predicate SupportsEffectScope(runtime: Runtime, scope: EffectScope, workspaceId: string,
                                binding: Option<CandidateBinding>) {
    if binding.Some? then runtime == GenericLlm && IsCandidateDescription(scope, workspaceId, binding.value)
    else if runtime == IsolatedTestRunner then IsIsolatedTestScope(scope)
    else
      (runtime == GenericLlm || runtime == Mock) &&
      (forall e :: e in scope.effects && e.kind != Answer ==>
       e == Effect(ReadWorkspace, Resource(Workspace, Some(workspaceId)))) &&
      (!exists ban :: ban in scope.prohibitions && Bans(scope, ban)) &&
      forall e :: e in scope.effects ==> e.kind == Answer || |scope.grantIds| > 0
  }

  /** `intentScopeToolNames`. */
  function ScopeToolNames(scope: EffectScope, binding: Option<CandidateBinding>): seq<string> {
    var reading := if Has(scope.effects, ReadWorkspace) then ["read_file", "search_code"] else [];
    if binding.Some? then reading
    else
      reading +
      (if Has(scope.effects, ModifySource) then ["write_file"] else []) +
      (if Has(scope.effects, RunTests) then ["run_test"] else [])
  }

  predicate CandidateInvocation(plan: Plan) {
    plan.sourceCandidateBinding.Some? && plan.effectScope.Some? &&
    var candidate := plan.sourceCandidateBinding.value;
    IsCandidateDescription(plan.effectScope.value, plan.workspaceId, candidate) &&
    plan.admissionClass == Some(Business) && plan.phase == TaskExecution && !plan.resumes &&
    plan.sessionId == candidate.sessionId && plan.dataEpoch == Some(candidate.dataEpoch) &&
    plan.workItemId == Some(candidate.workItemId) &&
    plan.taskId == Some(candidate.taskId) && plan.intentStepId == Some(candidate.intentStepId) &&
    plan.invocationId == candidate.invocationId &&
    plan.contextSessionId == candidate.sessionId &&
    plan.operation == Some(Operation(candidate.operationId, candidate.sessionGeneration)) &&
    plan.executionBinding == Some(ExecutionBinding(candidate.sessionGeneration, candidate.effectScopeHash)) &&
    plan.expectedOutput == Output("intent_source_candidate", "1.0") && plan.executionTarget.runtimeType == GenericLlm &&
    plan.executionTarget.provider == ServerLocal && plan.executionTarget.writeMode == NoWrites &&
    OnlyReads(plan.executionTarget)
  }

  predicate OnlyReads(target: Target) {
    forall c :: c in target.requiredCapabilities ==> c == Read
  }

  predicate Chats(target: Target) {
    (target.runtimeType == GenericLlm || target.runtimeType == Mock) && target.writeMode == NoWrites
  }

  predicate BriefInvocation(plan: Plan) {
    plan.admissionClass == Some(Business) && Given(plan.dataEpoch) && Given(plan.intentStepId) &&
    Given(plan.workItemId) &&
    !Given(plan.taskId) && !plan.resumes && plan.effectScope.Some? && plan.effectScope.value.effects == [] &&
    plan.effectScope.value.grantIds == [] &&
    plan.expectedOutput == Output(if plan.phase == BriefRevision then "agent_message" else "task_brief", "1.0") &&
    Chats(plan.executionTarget) && plan.executionTarget.requiredCapabilities == [] && plan.tools == []
  }

  predicate ResponseInvocation(plan: Plan) {
    plan.phase == UserMessageResponse && Given(plan.dataEpoch) && !Given(plan.taskId) && Given(plan.intentStepId) &&
    plan.executionBinding.Some? &&
    plan.effectScope.Some? && IsReadOnlyAnswerScope(plan.effectScope.value, plan.workspaceId) &&
    plan.expectedOutput.kind == "agent_message" &&
    Chats(plan.executionTarget) && OnlyReads(plan.executionTarget) &&
    if Has(plan.effectScope.value.effects, ReadWorkspace)
    then plan.executionTarget.provider == ServerLocal && "read_file" in plan.tools
    else plan.executionTarget.requiredCapabilities == [] && plan.tools == []
  }

  predicate RoutingInvocation(plan: Plan) {
    plan.phase == UserMessageRouting && Given(plan.dataEpoch) && !Given(plan.taskId) &&
    (plan.expectedOutput.kind == "intent_understanding" || plan.expectedOutput.kind == "intent_routing_decision") &&
    SupportsClassification(plan.executionTarget.runtimeType, plan.executionTarget.provider) &&
    !(plan.executionTarget.runtimeType == ClaudeCode && (plan.resumes || plan.expectedOutput.schemaVersion != "1.0")) &&
    plan.executionTarget.writeMode == NoWrites && plan.executionTarget.requiredCapabilities == [] && plan.tools == []
  }

  predicate TestInvocation(plan: Plan, scope: EffectScope) {
    plan.intentTestBinding.Some? &&
    var binding, test := plan.intentTestBinding.value, First(scope.effects, RunTests);
    binding.runnerId == "docker-npm-tests-v1" && |binding.imageId| == 71 && binding.imageId[..7] == "sha256:" &&
    IsHash(binding.imageId[7..]) &&
    IsHash(binding.bindingHash) && binding.resourceId == "test-runner:" + binding.bindingHash &&
    (binding.script == "test" || binding.script == "test:unit" || binding.script == "test:integration") &&
    binding.workspaceId == plan.workspaceId && test.Some? && test.value.target.refId == Some(binding.resourceId) &&
    plan.phase == TaskExecution &&
    plan.admissionClass == Some(Business) && Given(plan.dataEpoch) && Given(plan.intentStepId) &&
    Given(plan.workItemId) &&
    plan.executionBinding.Some? && !Given(plan.taskId) && plan.executionTarget.runtimeType == IsolatedTestRunner &&
    plan.executionTarget.provider == ServerLocal && plan.executionTarget.writeMode == NoWrites &&
    plan.expectedOutput == Output("task_execution_result", "1.0") &&
    plan.executionTarget.requiredCapabilities == [Test] &&
    "cap-isolated-test" in plan.capabilityIds && plan.tools == ["run_test"]
  }

  /** `assertIntentInvocationScope`: the error it throws, if any. */
  function ScopeErrorOf(plan: Plan): Option<ScopeError> {
    var candidate := plan.sourceCandidateBinding;
    if (candidate.Some? || plan.expectedOutput.kind == "intent_source_candidate") && !CandidateInvocation(plan) then
      Some(CandidateInvocationInvalid)
    else if plan.executionBinding.Some? && (plan.phase == BriefGeneration || plan.phase == BriefRevision) &&
      !BriefInvocation(plan) then
      Some(BriefCapabilityUnavailable)
    else if plan.admissionClass == Some(Response) && !ResponseInvocation(plan) then Some(ResponseCapabilityUnavailable)
    else if plan.admissionClass == Some(Routing) && !RoutingInvocation(plan) then Some(RoutingCapabilityUnavailable)
    else if plan.intentTestBinding.Some? &&
      !(plan.effectScope.Some? && IsIsolatedTestScope(plan.effectScope.value)) then Some(TestScopeRequired)
    else if plan.executionBinding.Some? && plan.effectScope.None? then Some(EffectScopeRequired)
    else if plan.effectScope.None? then None
    else
      var scope := plan.effectScope.value;
      if IsIsolatedTestScope(scope) && !TestInvocation(plan, scope) then Some(TestInvocationInvalid)
      else if !SupportsEffectScope(plan.executionTarget.runtimeType, scope, plan.workspaceId, candidate) then
        Some(EffectScopeUnsupported)
      else if !Has(scope.effects, ModifySource) && plan.executionTarget.writeMode != NoWrites then
        Some(SourceWriteNotAuthorized)
      else if exists tool :: tool in plan.tools && tool !in ScopeToolNames(scope, candidate) then
        Some(ToolScopeMismatch)
      else if plan.executionBinding.Some? && plan.executionBinding.value.effectScopeHash != scope.scopeHash then
        Some(EffectScopeHashMismatch)
      else None
  }

  /** The plan passes the guard, and does so under an effect scope. */
  predicate Admitted(plan: Plan) {
    ScopeErrorOf(plan).None? && plan.effectScope.Some?
  }

  // ---------------------------------------------------------------- what an admitted plan can do

  lemma {:induction false} FirstOfKind(effects: seq<Effect>, kind: EffectKind)
    ensures First(effects, kind).Some? <==> Has(effects, kind)
    ensures First(effects, kind).Some? ==>
      First(effects, kind).value in effects && First(effects, kind).value.kind == kind
    ensures Count(effects, kind) > 0 <==> Has(effects, kind)
  {
    if effects != [] {
      FirstOfKind(effects[1..], kind);
      assert effects[0] in effects;
      assert forall e :: e in effects <==> e == effects[0] || e in effects[1..];
    }
  }

  /** No admitted plan writes: not by its mode, and `write_file` is not among its tools whatever its effects are. */
  lemma AdmittedNeverWrites(plan: Plan)
    requires Admitted(plan)
    ensures plan.executionTarget.writeMode == NoWrites
    ensures "write_file" !in plan.tools
    ensures forall tool :: tool in plan.tools ==> tool == "read_file" || tool == "search_code" || tool == "run_test"
    ensures Has(plan.effectScope.value.effects, ModifySource) ==> plan.sourceCandidateBinding.Some?
  {
    var scope := plan.effectScope.value;
    var names := ScopeToolNames(scope, plan.sourceCandidateBinding);
    if plan.sourceCandidateBinding.None? {
      forall e | e in scope.effects
        ensures e.kind != ModifySource
      {
      }
    }
    forall tool | tool in plan.tools
      ensures tool == "read_file" || tool == "search_code" || tool == "run_test"
    {
      assert tool in names;
    }
  }

  /** `run_test` is the one tool of the isolated runner, and of no other runtime. */
  lemma TestsRunOnlyIsolated(plan: Plan)
    requires Admitted(plan)
    ensures "run_test" in plan.tools <==> plan.executionTarget.runtimeType == IsolatedTestRunner
    ensures "run_test" in plan.tools ==>
      plan.tools == ["run_test"] && plan.intentTestBinding.Some? &&
      plan.intentTestBinding.value.workspaceId == plan.workspaceId
  {
    var scope := plan.effectScope.value;
    FirstOfKind(scope.effects, RunTests);
    if "run_test" in plan.tools {
      assert "run_test" in ScopeToolNames(scope, plan.sourceCandidateBinding);
      assert plan.sourceCandidateBinding.None? && Has(scope.effects, RunTests);
    }
    if IsIsolatedTestScope(scope) { assert plan.tools == ["run_test"] && plan.tools[0] in plan.tools; }
    if plan.executionTarget.runtimeType == IsolatedTestRunner && plan.sourceCandidateBinding.Some? {
      assert false;
    }
  }

  /** The only effect of a kind is the first one of it. */
  lemma {:induction false} OnlyOne(effects: seq<Effect>, e: Effect)
    requires Count(effects, e.kind) == 1 && e in effects
    ensures First(effects, e.kind) == Some(e)
  {
    if effects[0] != e {
      assert e in effects[1..];
      FirstOfKind(effects[1..], e.kind);
      OnlyOne(effects[1..], e);
    }
  }

  /** All that a test run touches carries the hash of its binding: the runner and the report on it. */
  lemma TestsStayOnTheirRunner(plan: Plan, e: Effect)
    requires Admitted(plan) && plan.executionTarget.runtimeType == IsolatedTestRunner &&
      e in plan.effectScope.value.effects
    ensures plan.intentTestBinding.Some? &&
      e.target == Resource(if e.kind == RunTests then TestRunner else Artifact,
                           Some((if e.kind == RunTests then "test-runner:" else "test-report:") +
                                plan.intentTestBinding.value.bindingHash))
  {
    var scope, hash := plan.effectScope.value, plan.intentTestBinding.value.bindingHash;
    var test := First(scope.effects, RunTests).value;
    if e.kind == RunTests {
      OnlyOne(scope.effects, e);
    } else {
      FirstOfKind(scope.effects, RunTests);
      assert ReportsOn(e, test);
      assert ("test-runner:" + hash)[12..] == hash;
    }
  }

  /** A candidate binding admits one invocation: whatever plan is admitted under it is that of its session, step and
      operation. */
  lemma OneInvocationPerCandidate(p: Plan, q: Plan)
    requires Admitted(p) && Admitted(q) && p.sourceCandidateBinding.Some? &&
      p.sourceCandidateBinding == q.sourceCandidateBinding
    ensures p.invocationId == q.invocationId && p.sessionId == q.sessionId && p.contextSessionId == q.contextSessionId
    ensures p.workspaceId == q.workspaceId && p.dataEpoch == q.dataEpoch && p.workItemId == q.workItemId &&
      p.taskId == q.taskId
    ensures p.intentStepId == q.intentStepId && p.operation == q.operation && p.executionBinding == q.executionBinding
    ensures p.effectScope.value.scopeHash == q.effectScope.value.scopeHash
  {
    assert CandidateInvocation(p) && CandidateInvocation(q);
  }

  /** The restricted classes, with or without a scope: routing and versioned briefs have no tools, a response at most
      reads. */
  lemma RestrictedClassesStayRestricted(plan: Plan)
    requires ScopeErrorOf(plan).None?
    requires plan.admissionClass == Some(Routing) || plan.admissionClass == Some(Response) ||
             (plan.executionBinding.Some? && (plan.phase == BriefGeneration || plan.phase == BriefRevision))
    ensures plan.executionTarget.writeMode == NoWrites && OnlyReads(plan.executionTarget)
    ensures plan.admissionClass != Some(Response) ==>
      plan.tools == [] && plan.executionTarget.requiredCapabilities == []
    ensures forall tool :: tool in plan.tools ==> tool == "read_file" || tool == "search_code"
    ensures plan.tools != [] ==> plan.executionTarget.provider == ServerLocal && plan.effectScope.value.grantIds != []
  {
    if plan.admissionClass == Some(Response) {
      var scope := plan.effectScope.value;
      FirstOfKind(scope.effects, RunTests);
      AdmittedNeverWrites(plan);
      forall tool | tool in plan.tools
        ensures tool == "read_file" || tool == "search_code"
      {
        assert tool in ScopeToolNames(scope, plan.sourceCandidateBinding);
      }
      if plan.tools != [] { ReadsAreGranted(plan); }
    }
  }

  /** Nothing that is asked for is forbidden. Outside the candidate path a ban holds whatever its target. */
  lemma ProhibitionsHold(plan: Plan, effect: Effect, ban: Prohibition)
    requires Admitted(plan) && effect in plan.effectScope.value.effects && ban in plan.effectScope.value.prohibitions
    ensures effect.kind == ban.effectKind ==>
      effect.target != ban.target && effect.kind == ModifySource && plan.sourceCandidateBinding.Some?
  {
    var scope := plan.effectScope.value;
    if effect.kind == ban.effectKind {
      assert Bans(scope, ban);
      if plan.sourceCandidateBinding.Some? { assert !BansCandidate(scope, ban); }
    }
  }

  /** Reading is confined to the plan's own workspace, and every tool is covered by a grant. */
  lemma ReadsAreGranted(plan: Plan)
    requires Admitted(plan)
    ensures forall e :: e in plan.effectScope.value.effects && e.kind == ReadWorkspace ==>
      e.target == Resource(Workspace, Some(plan.workspaceId))
    ensures plan.tools != [] ==> plan.effectScope.value.grantIds != []
    ensures plan.sourceCandidateBinding.Some? && plan.tools != [] ==>
      exists g :: g in plan.effectScope.value.grantIds && g != plan.sourceCandidateBinding.value.grantId
  {
    var scope := plan.effectScope.value;
    forall e | e in scope.effects && e.kind == ReadWorkspace
      ensures e.target == Resource(Workspace, Some(plan.workspaceId))
    {
    }
    if plan.tools != [] {
      assert plan.tools[0] in plan.tools && plan.tools[0] in ScopeToolNames(scope, plan.sourceCandidateBinding);
    }
  }

  /**
    The plans of the business path that claim neither a source candidate nor a test run are admitted exactly when a
    chatting runtime that writes nothing asks for answers and granted reads of its own workspace, none of them banned,
    with reading tools for the reads only.
   */
  lemma OrdinaryAdmittedIff(plan: Plan)
    requires plan.sourceCandidateBinding.None? && plan.expectedOutput.kind != "intent_source_candidate" &&
      plan.intentTestBinding.None?
    requires plan.admissionClass == None || plan.admissionClass == Some(Business)
    requires plan.executionBinding.None? || (plan.phase != BriefGeneration && plan.phase != BriefRevision)
    requires plan.effectScope.Some?
    ensures Admitted(plan) <==>
      var scope := plan.effectScope.value;
      Chats(plan.executionTarget) &&
      (forall e :: e in scope.effects ==>
        (e.kind == Answer || (e == Effect(ReadWorkspace, Resource(Workspace, Some(plan.workspaceId))) &&
                              scope.grantIds != [])) &&
        forall ban :: ban in scope.prohibitions ==> ban.effectKind != e.kind) &&
      (forall tool :: tool in plan.tools ==>
       Has(scope.effects, ReadWorkspace) && (tool == "read_file" || tool == "search_code")) &&
      (plan.executionBinding.Some? ==> plan.executionBinding.value.effectScopeHash == scope.scopeHash)
  {
    var scope := plan.effectScope.value;
    FirstOfKind(scope.effects, RunTests);
    if Admitted(plan) {
      forall e, ban | e in scope.effects && ban in scope.prohibitions
        ensures ban.effectKind != e.kind
      {
        if ban.effectKind == e.kind { assert Bans(scope, ban); }
      }
      AdmittedNeverWrites(plan);
      TestsRunOnlyIsolated(plan);
      forall tool | tool in plan.tools
        ensures Has(scope.effects, ReadWorkspace) && (tool == "read_file" || tool == "search_code")
      {
        assert tool in ScopeToolNames(scope, None);
      }
    }
  }

  /**
    What the guard promises stops at scopes and bindings: a plan that writes, or has any other tool, passes it if and
    only if the plan carries neither, asks for no candidate, and is of neither restricted class.
   */
  lemma WritersPassIff(plan: Plan)
    requires plan.executionTarget.writeMode != NoWrites ||
      exists tool :: tool in plan.tools && tool != "read_file" && tool != "search_code" && tool != "run_test"
    ensures ScopeErrorOf(plan).None? <==>
      plan.effectScope.None? && plan.executionBinding.None? && plan.sourceCandidateBinding.None? &&
      plan.intentTestBinding.None? && plan.expectedOutput.kind != "intent_source_candidate" &&
      plan.admissionClass != Some(Response) && plan.admissionClass != Some(Routing)
  {
    if Admitted(plan) {
      AdmittedNeverWrites(plan);
      assert false;
    }
  }
}
