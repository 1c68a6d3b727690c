/**
  Exactly which plans of each class the guard admits, in terms of the effects themselves: which there are, on what,
  under
  which grants and bans, and on which runtime. Together with `IntentScope.OrdinaryAdmittedIff` these cover every plan
  under a scope.
 */
module IntentClasses {

  import opened IntentScope
  import opened Options
  import opened ScriptValues

  /** Reading the plan's own workspace. */
  function OwnRead(plan: Plan): Effect {
    Effect(ReadWorkspace, Resource(Workspace, Some(plan.workspaceId)))
  }

  /** No ban on any of the kinds of effect there are. */
  ghost predicate Unbanned(scope: EffectScope) {
    forall ban, e :: ban in scope.prohibitions && e in scope.effects ==> ban.effectKind != e.kind
  }

  /** The binding of the invocation, if it has one, is to this scope. */
  predicate BoundTo(plan: Plan, scope: EffectScope) {
    plan.executionBinding.Some? ==> plan.executionBinding.value.effectScopeHash == scope.scopeHash
  }

  predicate ReadingTools(tools: seq<string>) {
    forall tool :: tool in tools ==> tool == "read_file" || tool == "search_code"
  }

  predicate Hexadecimal(s: string) {
    |s| == 64 && forall i :: 0 <= i < |s| ==> '0' <= s[i] <= '9' || 'a' <= s[i] <= 'f'
  }

  // ---------------------------------------------------------------- counting effects

  lemma {:induction false} CountIsMultiset(effects: seq<Effect>, kind: EffectKind)
    ensures Count(effects, kind) <= |effects|
    ensures (Count(effects, kind) > 0 <==> exists e :: e in effects && e.kind == kind)
    ensures forall e :: e in effects && e.kind == kind ==> multiset(effects)[e] <= Count(effects, kind)
  {
    if effects != [] {
      CountIsMultiset(effects[1..], kind);
      assert effects == [effects[0]] + effects[1..];
    }
  }

  /** One of them, and perhaps the other: at most two effects, in either order. */
  ghost predicate OneAndPerhaps(effects: seq<Effect>, one: Effect, other: Effect) {
    multiset(effects) == multiset{one} || multiset(effects) == multiset{one, other}
  }

  lemma {:induction false} SingleKind(effects: seq<Effect>, one: Effect)
    requires Count(effects, one.kind) == 1 && one in effects
    requires forall e :: e in effects ==> e.kind == one.kind
    ensures effects == [one]
  {
    if |effects| > 1 {
      CountAll(effects, one.kind);
    }
  }

  lemma {:induction false} CountAll(effects: seq<Effect>, kind: EffectKind)
    requires forall e :: e in effects ==> e.kind == kind
    ensures Count(effects, kind) == |effects|
  {
    if effects != [] { CountAll(effects[1..], kind); }
  }

  lemma CountOfTwo(x: Effect, y: Effect, kind: EffectKind)
    ensures Count([x, y], kind) == (if x.kind == kind then 1 else 0) + (if y.kind == kind then 1 else 0)
    ensures Count([x], kind) == if x.kind == kind then 1 else 0
  {
    assert [x, y][1..] == [y] && [y][1..] == [] && [x][1..] == [];
    assert Count([], kind) == 0;
    assert Count([y], kind) == if y.kind == kind then 1 else 0;
    assert Count([x, y], kind) == (if x.kind == kind then 1 else 0) + Count([y], kind);
  }

  /** Lists of one or two, spelled out. */
  lemma ShortList(effects: seq<Effect>)
    requires |effects| <= 2
    ensures effects == [] || effects == [effects[0]] || effects == [effects[0], effects[1]]
  {
  }

  lemma PairMultiset(effects: seq<Effect>, one: Effect, other: Effect)
    requires OneAndPerhaps(effects, one, other)
    ensures effects == [one] || effects == [one, other] || effects == [other, one]
  {
    assert |effects| == |multiset(effects)|;
    if multiset(effects) == multiset{one} {
      assert effects == [effects[0]];
      assert effects[0] in multiset(effects);
    } else {
      assert effects == [effects[0]] + [effects[1]];
      assert multiset(effects) == multiset{effects[0]} + multiset{effects[1]};
      assert effects[0] in multiset{one, other} && effects[1] in multiset{one, other};
      if effects[0] == effects[1] {
        assert multiset{one, other}[effects[0]] == 2;
        assert one == other;
      }
    }
  }

  // ---------------------------------------------------------------- responses

  /** One answer, and perhaps reading of the own workspace, which takes a grant. */
  ghost predicate AnswersFrom(plan: Plan, scope: EffectScope, reading: bool) {
    (exists answer :: answer in scope.effects && answer.kind == Answer &&
       multiset(scope.effects) == if reading then multiset{answer, OwnRead(plan)} else multiset{answer}) &&
    (reading ==> scope.grantIds != [])
  }

  lemma AnswerScopeReads(plan: Plan, scope: EffectScope)
    ensures IsReadOnlyAnswerScope(scope, plan.workspaceId) <==> exists reading :: AnswersFrom(plan, scope, reading)
    ensures forall reading :: AnswersFrom(plan, scope, reading) ==> (reading <==> Has(scope.effects, ReadWorkspace))
  {
    var effects := scope.effects;
    forall reading | AnswersFrom(plan, scope, reading)
      ensures IsReadOnlyAnswerScope(scope, plan.workspaceId) && (reading <==> Has(effects, ReadWorkspace))
    {
      AnswersAreReadOnly(plan, scope, reading);
    }
    if IsReadOnlyAnswerScope(scope, plan.workspaceId) {
      var reading := ReadOnlyAnswers(plan, scope);
    }
  }

  lemma AnswersAreReadOnly(plan: Plan, scope: EffectScope, reading: bool)
    requires AnswersFrom(plan, scope, reading)
    ensures IsReadOnlyAnswerScope(scope, plan.workspaceId) && (reading <==> Has(scope.effects, ReadWorkspace))
  {
    var effects := scope.effects;
    var answer :| answer in effects && answer.kind == Answer &&
      multiset(effects) == if reading then multiset{answer, OwnRead(plan)} else multiset{answer};
    PairMultiset(effects, answer, OwnRead(plan));
    if reading {
      assert OwnRead(plan) in multiset(effects);
      AnswerAndRead(effects, answer, OwnRead(plan));
    } else {
      assert |effects| == |multiset(effects)| == 1;
      CountOfTwo(answer, answer, Answer);
    }
  }

  lemma AnswerAndRead(effects: seq<Effect>, answer: Effect, read: Effect)
    requires answer.kind == Answer && read.kind == ReadWorkspace
    requires (effects == [answer] || effects == [answer, read] || effects == [read, answer]) && read in effects
    ensures Count(effects, Answer) == 1 && |effects| == 2 && Has(effects, ReadWorkspace)
    ensures forall e :: e in effects ==> e == answer || e == read
  {
    CountOfTwo(answer, read, Answer);
    CountOfTwo(read, answer, Answer);
  }

  lemma ReadOnlyAnswers(plan: Plan, scope: EffectScope) returns (reading: bool)
    requires IsReadOnlyAnswerScope(scope, plan.workspaceId)
    ensures AnswersFrom(plan, scope, reading)
  {
    var effects := scope.effects;
    ShortList(effects);
    if |effects| == 1 {
      CountOfTwo(effects[0], effects[0], Answer);
      assert effects[0] in effects && multiset(effects) == multiset{effects[0]};
      reading := false;
    } else {
      CountOfTwo(effects[0], effects[1], Answer);
      assert effects[0] in effects && effects[1] in effects;
      var answer := if effects[0].kind == Answer then effects[0] else effects[1];
      assert multiset(effects) == multiset{effects[0], effects[1]};
      assert multiset(effects) == multiset{answer, OwnRead(plan)};
      reading := true;
    }
  }

  /**
    A response is admitted if and only if it answers a message, bound to its scope, on a chatting runtime that writes
    nothing; reading takes a grant, the server, the reading tool and no more, and without it there are no tools and no
    capabilities.
   */
  lemma ResponseAdmittedIff(plan: Plan)
    requires plan.admissionClass == Some(Response) && plan.effectScope.Some?
    ensures Admitted(plan) <==>
      var scope, target := plan.effectScope.value, plan.executionTarget;
      plan.sourceCandidateBinding.None? && plan.intentTestBinding.None? && plan.phase == UserMessageResponse &&
      Given(plan.dataEpoch) && Given(plan.intentStepId) && !Given(plan.taskId) &&
      plan.expectedOutput.kind == "agent_message" &&
      plan.executionBinding.Some? && BoundTo(plan, scope) && Unbanned(scope) &&
      (target.runtimeType == GenericLlm || target.runtimeType == Mock) && target.writeMode == NoWrites &&
      ((AnswersFrom(plan, scope, false) && plan.tools == [] && target.requiredCapabilities == []) ||
       (AnswersFrom(plan, scope, true) && target.provider == ServerLocal && "read_file" in plan.tools &&
        ReadingTools(plan.tools) && forall c :: c in target.requiredCapabilities ==> c == Read))
  {
    var scope := plan.effectScope.value;
    AnswerScopeReads(plan, scope);
    UnbannedReads(scope);
    if IsReadOnlyAnswerScope(scope, plan.workspaceId) { AnswersRunNoTests(scope, plan.workspaceId); }
    if plan.sourceCandidateBinding.None? { ToolsRead(plan, scope); }
  }

  lemma UnbannedReads(scope: EffectScope)
    ensures Unbanned(scope) <==> !exists ban :: ban in scope.prohibitions && Bans(scope, ban)
  {
  }

  lemma AnswersRunNoTests(scope: EffectScope, workspaceId: string)
    requires IsReadOnlyAnswerScope(scope, workspaceId)
    ensures !IsIsolatedTestScope(scope) && !Has(scope.effects, ModifySource) && !Has(scope.effects, RunTests)
  {
    FirstOfKind(scope.effects, RunTests);
  }

  /** Which tools a scope without a candidate binding lets through. */
  lemma ToolsRead(plan: Plan, scope: EffectScope)
    ensures (forall tool :: tool in plan.tools ==> tool in ScopeToolNames(scope, None)) <==>
      forall tool :: tool in plan.tools ==>
        (Has(scope.effects, ReadWorkspace) && (tool == "read_file" || tool == "search_code")) ||
        (Has(scope.effects, ModifySource) && tool == "write_file") ||
          (Has(scope.effects, RunTests) && tool == "run_test")
  {
  }

  // ---------------------------------------------------------------- routing

  /** Under a scope, what a plan that reads at most may have in it. */
  ghost predicate ReadsAtMost(plan: Plan, scope: EffectScope) {
    forall e :: e in scope.effects ==> e.kind == Answer || (e == OwnRead(plan) && scope.grantIds != [])
  }

  /**
    A routing decision is admitted under a scope if and only if it is one, on a chatting runtime, without tools,
    capabilities or writes, and the scope asks for answers and granted reading only.
   */
  lemma RoutingAdmittedIff(plan: Plan)
    requires plan.admissionClass == Some(Routing) && plan.effectScope.Some?
    requires plan.executionBinding.None? || (plan.phase != BriefGeneration && plan.phase != BriefRevision)
    ensures Admitted(plan) <==>
      var scope, target := plan.effectScope.value, plan.executionTarget;
      plan.sourceCandidateBinding.None? && plan.intentTestBinding.None? && plan.phase == UserMessageRouting &&
      Given(plan.dataEpoch) && !Given(plan.taskId) &&
      (plan.expectedOutput.kind == "intent_understanding" || plan.expectedOutput.kind == "intent_routing_decision") &&
      (target.runtimeType == GenericLlm || target.runtimeType == Mock) && target.writeMode == NoWrites &&
      target.requiredCapabilities == [] && plan.tools == [] &&
      ReadsAtMost(plan, scope) && Unbanned(scope) && BoundTo(plan, scope)
  {
    var scope := plan.effectScope.value;
    UnbannedReads(scope);
    if ReadsAtMost(plan, scope) { FirstOfKind(scope.effects, RunTests); }
  }

  /** Without a scope, it may also be classified by the isolated command line on the server, from scratch. */
  lemma UnscopedRoutingIff(plan: Plan)
    requires plan.admissionClass == Some(Routing) && plan.effectScope.None?
    requires plan.executionBinding.None? || (plan.phase != BriefGeneration && plan.phase != BriefRevision)
    ensures ScopeErrorOf(plan).None? <==>
      var target := plan.executionTarget;
      plan.sourceCandidateBinding.None? && plan.intentTestBinding.None? && plan.executionBinding.None? &&
      plan.phase == UserMessageRouting && Given(plan.dataEpoch) && !Given(plan.taskId) &&
      (plan.expectedOutput.kind == "intent_understanding" || plan.expectedOutput.kind == "intent_routing_decision") &&
      (target.runtimeType == GenericLlm || target.runtimeType == Mock ||
       (target.runtimeType == ClaudeCode && target.provider == ServerLocal && !plan.resumes &&
        plan.expectedOutput.schemaVersion == "1.0")) &&
      target.writeMode == NoWrites && target.requiredCapabilities == [] && plan.tools == []
  {
  }

  // ---------------------------------------------------------------- briefs

  /** A versioned brief is admitted if and only if it is one, with nothing granted and nothing to do it with. */
  lemma BriefAdmittedIff(plan: Plan)
    requires plan.executionBinding.Some? && (plan.phase == BriefGeneration || plan.phase == BriefRevision)
    requires plan.effectScope.Some?
    ensures Admitted(plan) <==>
      var scope, target := plan.effectScope.value, plan.executionTarget;
      plan.sourceCandidateBinding.None? && plan.intentTestBinding.None? && plan.admissionClass == Some(Business) &&
      Given(plan.dataEpoch) && Given(plan.intentStepId) && Given(plan.workItemId) && !Given(plan.taskId) &&
      !plan.resumes && scope.effects == [] && scope.grantIds == [] && BoundTo(plan, scope) &&
      plan.expectedOutput == Output(if plan.phase == BriefRevision then "agent_message" else "task_brief", "1.0") &&
      (target.runtimeType == GenericLlm || target.runtimeType == Mock) && target.writeMode == NoWrites &&
      target.requiredCapabilities == [] && plan.tools == []
  {
    if plan.effectScope.value.effects == [] { FirstOfKind([], RunTests); }
  }

  // ---------------------------------------------------------------- isolated tests

  function TestEffect(hash: string): Effect {
    Effect(RunTests, Resource(TestRunner, Some("test-runner:" + hash)))
  }

  function ReportEffect(hash: string): Effect {
    Effect(WriteArtifact, Resource(Artifact, Some("test-report:" + hash)))
  }

  ghost predicate Tests(scope: EffectScope, hash: string) {
    OneAndPerhaps(scope.effects, TestEffect(hash), ReportEffect(hash)) && scope.grantIds != [] && Unbanned(scope)
  }

  lemma TestsAreIsolated(scope: EffectScope, hash: string)
    requires Tests(scope, hash) && Hexadecimal(hash)
    ensures IsIsolatedTestScope(scope) && First(scope.effects, RunTests) == Some(TestEffect(hash))
  {
    var effects, test, report := scope.effects, TestEffect(hash), ReportEffect(hash);
    PairMultiset(effects, test, report);
    CountOfTwo(test, report, RunTests);
    CountOfTwo(report, test, RunTests);
    assert [report, test][1..] == [test];
    assert ("test-runner:" + hash)[..12] == "test-runner:" && ("test-runner:" + hash)[12..] == hash;
    assert ReportsOn(report, test);
    UnbannedReads(scope);
  }

  lemma IsolatedAreTests(scope: EffectScope, hash: string)
    requires IsIsolatedTestScope(scope) && First(scope.effects, RunTests) == Some(TestEffect(hash))
    ensures Tests(scope, hash)
  {
    var effects, test := scope.effects, TestEffect(hash);
    FirstOfKind(effects, RunTests);
    ShortList(effects);
    UnbannedReads(scope);
    assert ("test-runner:" + hash)[..12] == "test-runner:" && ("test-runner:" + hash)[12..] == hash;
    if |effects| == 1 {
      assert multiset(effects) == multiset{test};
    } else {
      CountOfTwo(effects[0], effects[1], RunTests);
      assert effects[0] in effects && effects[1] in effects;
      var report := if effects[0] == test then effects[1] else effects[0];
      assert ReportsOn(report, test);
      assert multiset(effects) == multiset{effects[0], effects[1]} == multiset{test, ReportEffect(hash)};
    }
  }

  /**
    A plan that asks for a test run is admitted if and only if it runs the bound tests on the bound isolated runner, and
    perhaps writes its report, under a grant and no ban, with no other capability or tool.
   */
  lemma TestAdmittedIff(plan: Plan)
    requires plan.effectScope.Some? && exists e :: e in plan.effectScope.value.effects && e.kind == RunTests
    ensures Admitted(plan) <==>
      var scope, target := plan.effectScope.value, plan.executionTarget;
      plan.sourceCandidateBinding.None? && plan.intentTestBinding.Some? &&
      var binding := plan.intentTestBinding.value;
      binding.runnerId == "docker-npm-tests-v1" && |binding.imageId| >= 7 && binding.imageId[..7] == "sha256:" &&
      Hexadecimal(binding.imageId[7..]) && Hexadecimal(binding.bindingHash) &&
      binding.resourceId == "test-runner:" + binding.bindingHash && binding.workspaceId == plan.workspaceId &&
      (binding.script == "test" || binding.script == "test:unit" || binding.script == "test:integration") &&
      Tests(scope, binding.bindingHash) && plan.executionBinding.Some? && BoundTo(plan, scope) &&
      plan.phase == TaskExecution && plan.admissionClass == Some(Business) &&
      Given(plan.dataEpoch) && Given(plan.intentStepId) && Given(plan.workItemId) && !Given(plan.taskId) &&
      target.runtimeType == IsolatedTestRunner && target.provider == ServerLocal && target.writeMode == NoWrites &&
      target.requiredCapabilities == [Test] && plan.tools == ["run_test"] &&
      "cap-isolated-test" in plan.capabilityIds &&
      plan.expectedOutput == Output("task_execution_result", "1.0")
  {
    var scope := plan.effectScope.value;
    FirstOfKind(scope.effects, RunTests);
    HashesAgree(plan);
    if plan.intentTestBinding.Some? {
      var hash := plan.intentTestBinding.value.bindingHash;
      if Tests(scope, hash) && Hexadecimal(hash) { TestsAreIsolated(scope, hash); }
      if IsIsolatedTestScope(scope) && First(scope.effects, RunTests) == Some(TestEffect(hash)) {
        IsolatedAreTests(scope, hash);
      }
    }
    if Admitted(plan) { AdmittedTests(plan); }
  }

  lemma HashesAgree(plan: Plan)
    ensures forall s :: IsHash(s) <==> Hexadecimal(s)
  {
  }

  lemma AdmittedTests(plan: Plan)
    requires Admitted(plan) && Has(plan.effectScope.value.effects, RunTests)
    ensures plan.sourceCandidateBinding.None? && IsIsolatedTestScope(plan.effectScope.value)
    ensures plan.intentTestBinding.Some?
    ensures First(plan.effectScope.value.effects, RunTests) ==
      Some(TestEffect(plan.intentTestBinding.value.bindingHash))
  {
    FirstOfKind(plan.effectScope.value.effects, RunTests);
  }

  // ---------------------------------------------------------------- source candidates

  function SourceEffect(binding: CandidateBinding): Effect {
    Effect(ModifySource, Resource(Source, Some(binding.sourceResourceId)))
  }

  /** The bound source is to be modified, and perhaps the own workspace read, which takes another grant;
    every ban is on a
      known object, and none is on the source or on reading. */
  ghost predicate DescribesCandidate(plan: Plan, scope: EffectScope, binding: CandidateBinding) {
    OneAndPerhaps(scope.effects, SourceEffect(binding), OwnRead(plan)) && binding.grantId in scope.grantIds &&
    (OwnRead(plan) in scope.effects ==> exists grant :: grant in scope.grantIds && grant != binding.grantId) &&
    forall ban :: ban in scope.prohibitions ==>
      ban.target.kind != Unresolved && Given(ban.target.refId) &&
      !(ban.effectKind == ModifySource && ban.target == SourceEffect(binding).target) &&
      !(ban.effectKind == ReadWorkspace && OwnRead(plan) in scope.effects)
  }

  /** The binding itself is well formed. */
  predicate WellBound(binding: CandidateBinding) {
    binding.mode == "candidate_only" &&
    !Blank(binding.authorityId) && !Blank(binding.sourceResourceId) && !Blank(binding.grantId) &&
    !Blank(binding.sessionId) && !Blank(binding.dataEpoch) && !Blank(binding.workItemId) && !Blank(binding.taskId) &&
    !Blank(binding.intentStepId) && !Blank(binding.invocationId) && !Blank(binding.operationId) &&
    1 <= binding.authorityRevision <= MAX_SAFE_INTEGER && 1 <= binding.sessionGeneration <= MAX_SAFE_INTEGER &&
    Hexadecimal(binding.authorityHash) && Hexadecimal(binding.workspaceBindingHash) &&
    Hexadecimal(binding.effectScopeHash)
  }

  /** The plan is the very invocation that the binding names. */
  predicate IsBoundInvocation(plan: Plan, binding: CandidateBinding) {
    plan.workspaceId == binding.workspaceId && plan.sessionId == plan.contextSessionId == binding.sessionId &&
    plan.dataEpoch == Some(binding.dataEpoch) && plan.workItemId == Some(binding.workItemId) &&
    plan.taskId == Some(binding.taskId) && plan.intentStepId == Some(binding.intentStepId) &&
    plan.invocationId == binding.invocationId &&
    plan.operation == Some(Operation(binding.operationId, binding.sessionGeneration)) &&
    plan.executionBinding == Some(ExecutionBinding(binding.sessionGeneration, binding.effectScopeHash))
  }

  lemma CandidateScopeReads(plan: Plan, scope: EffectScope, binding: CandidateBinding)
    requires plan.workspaceId == binding.workspaceId
    ensures IsCandidateDescription(scope, plan.workspaceId, binding) <==>
      WellBound(binding) && binding.effectScopeHash == scope.scopeHash && DescribesCandidate(plan, scope, binding)
  {
    HashesAgree(plan);
    if IsCandidateDescription(scope, plan.workspaceId, binding) { CandidateEffects(plan, scope, binding); }
    if DescribesCandidate(plan, scope, binding) { EffectsOfCandidate(plan, scope, binding); }
  }

  lemma {:induction false} OthersAreReads(effects: seq<Effect>, kind: EffectKind, other: EffectKind)
    requires kind != other && forall e :: e in effects ==> e.kind == kind || e.kind == other
    ensures |effects| == Count(effects, kind) + Count(effects, other)
  {
    if effects != [] {
      assert forall e :: e in effects[1..] ==> e in effects;
      OthersAreReads(effects[1..], kind, other);
    }
  }

  lemma CandidateEffects(plan: Plan, scope: EffectScope, binding: CandidateBinding)
    requires IsCandidateDescription(scope, plan.workspaceId, binding)
    ensures DescribesCandidate(plan, scope, binding)
  {
    var effects, source := scope.effects, SourceEffect(binding);
    FirstOfKind(effects, ModifySource);
    OthersAreReads(effects, ModifySource, ReadWorkspace);
    ShortList(effects);
    if |effects| == 1 {
      assert multiset(effects) == multiset{source};
      assert effects[0] == source && OwnRead(plan) !in effects;
    } else {
      CountOfTwo(effects[0], effects[1], ModifySource);
      assert effects[0] in effects && effects[1] in effects;
      assert multiset(effects) == multiset{effects[0], effects[1]} == multiset{source, OwnRead(plan)};
    }
    BansRead(plan, scope, binding);
  }

  lemma EffectsOfCandidate(plan: Plan, scope: EffectScope, binding: CandidateBinding)
    requires DescribesCandidate(plan, scope, binding)
    ensures var effects := scope.effects;
      Count(effects, ModifySource) == 1 && First(effects, ModifySource) == Some(SourceEffect(binding)) &&
      Count(effects, ReadWorkspace) <= 1 &&
      (forall e :: e in effects && e.kind != ModifySource ==> e == OwnRead(plan)) &&
      !(Has(effects, ReadWorkspace) && forall g :: g in scope.grantIds ==> g == binding.grantId) &&
      !exists ban :: ban in scope.prohibitions && BansCandidate(scope, ban)
  {
    var effects, source, read := scope.effects, SourceEffect(binding), OwnRead(plan);
    PairMultiset(effects, source, read);
    CountOfTwo(source, read, ModifySource);
    CountOfTwo(read, source, ModifySource);
    CountOfTwo(source, read, ReadWorkspace);
    CountOfTwo(read, source, ReadWorkspace);
    assert [read, source][1..] == [source];
    BansRead(plan, scope, binding);
  }

  lemma BansRead(plan: Plan, scope: EffectScope, binding: CandidateBinding)
    requires OneAndPerhaps(scope.effects, SourceEffect(binding), OwnRead(plan))
    ensures forall ban :: BansCandidate(scope, ban) <==>
      ban.target.kind == Unresolved || !Given(ban.target.refId) ||
      (ban.effectKind == ModifySource && ban.target == SourceEffect(binding).target) ||
      (ban.effectKind == ReadWorkspace && OwnRead(plan) in scope.effects)
  {
    PairMultiset(scope.effects, SourceEffect(binding), OwnRead(plan));
    assert SourceEffect(binding) in scope.effects;
    assert forall e :: e in scope.effects ==> e == SourceEffect(binding) || e == OwnRead(plan);
  }

  /**
    A plan that asks for a source candidate, or is bound to one, is admitted if and only if it is the very invocation of
    a well-formed binding to this scope, executing its task from scratch on the language model of the server, without
    writes, and with reading tools at most where the scope reading.
   */
  lemma CandidateAdmittedIff(plan: Plan)
    requires plan.effectScope.Some?
    requires plan.sourceCandidateBinding.Some? || plan.expectedOutput.kind == "intent_source_candidate"
    ensures Admitted(plan) <==>
      var scope, target := plan.effectScope.value, plan.executionTarget;
      plan.sourceCandidateBinding.Some? && plan.intentTestBinding.None? &&
      var binding := plan.sourceCandidateBinding.value;
      WellBound(binding) && IsBoundInvocation(plan, binding) && binding.effectScopeHash == scope.scopeHash &&
      DescribesCandidate(plan, scope, binding) && plan.phase == TaskExecution &&
      plan.admissionClass == Some(Business) && !plan.resumes &&
      plan.expectedOutput == Output("intent_source_candidate", "1.0") &&
      target.runtimeType == GenericLlm && target.provider == ServerLocal && target.writeMode == NoWrites &&
      (forall c :: c in target.requiredCapabilities ==> c == Read) &&
      if OwnRead(plan) in scope.effects then ReadingTools(plan.tools) else plan.tools == []
  {
    var scope := plan.effectScope.value;
    if plan.sourceCandidateBinding.Some? && plan.workspaceId == plan.sourceCandidateBinding.value.workspaceId {
      var binding := plan.sourceCandidateBinding.value;
      CandidateScopeReads(plan, scope, binding);
      if DescribesCandidate(plan, scope, binding) {
        CandidateRunsNoTests(plan, scope, binding);
        CandidateTools(plan, scope, binding);
      }
    }
  }

  lemma CandidateRunsNoTests(plan: Plan, scope: EffectScope, binding: CandidateBinding)
    requires DescribesCandidate(plan, scope, binding)
    ensures !IsIsolatedTestScope(scope) && Has(scope.effects, ModifySource)
  {
    PairMultiset(scope.effects, SourceEffect(binding), OwnRead(plan));
    FirstOfKind(scope.effects, RunTests);
    assert SourceEffect(binding) in scope.effects;
  }

  lemma CandidateTools(plan: Plan, scope: EffectScope, binding: CandidateBinding)
    requires DescribesCandidate(plan, scope, binding)
    ensures (forall tool :: tool in plan.tools ==> tool in ScopeToolNames(scope, Some(binding))) <==>
      if OwnRead(plan) in scope.effects then ReadingTools(plan.tools) else plan.tools == []
  {
    PairMultiset(scope.effects, SourceEffect(binding), OwnRead(plan));
    assert Has(scope.effects, ReadWorkspace) <==> OwnRead(plan) in scope.effects;
    if plan.tools != [] { assert plan.tools[0] in plan.tools; }
  }

  // ---------------------------------------------------------------- the errors

  /** What each error says of the plan it refuses: what is wrong with the kind of invocation it is. */
  lemma ErrorNamesInvocation(plan: Plan)
    requires ScopeErrorOf(plan).Some?
    ensures match ScopeErrorOf(plan).value
      case CandidateInvocationInvalid =>
        plan.sourceCandidateBinding.Some? || plan.expectedOutput.kind == "intent_source_candidate"
      case BriefCapabilityUnavailable =>
        plan.executionBinding.Some? && (plan.phase == BriefGeneration || plan.phase == BriefRevision)
      case ResponseCapabilityUnavailable => plan.admissionClass == Some(Response)
      case RoutingCapabilityUnavailable => plan.admissionClass == Some(Routing)
      case TestScopeRequired => plan.intentTestBinding.Some?
      case EffectScopeRequired => plan.executionBinding.Some? && plan.effectScope.None?
      case _ => plan.effectScope.Some?
  {
  }

  /** Or what is wrong with its scope: what is asked of it, */
  lemma ErrorNamesScope(plan: Plan)
    requires ScopeErrorOf(plan).Some? && plan.effectScope.Some?
    ensures var effects := plan.effectScope.value.effects;
      match ScopeErrorOf(plan).value
      case TestInvocationInvalid => Has(effects, RunTests)
      case SourceWriteNotAuthorized => plan.executionTarget.writeMode != NoWrites && !Has(effects, ModifySource)
      case EffectScopeHashMismatch => !BoundTo(plan, plan.effectScope.value)
      case _ => true
  {
    if ScopeErrorOf(plan) == Some(TestInvocationInvalid) { FirstOfKind(plan.effectScope.value.effects, RunTests); }
  }

  /** an effect that the runtime cannot be held to, */
  lemma UnsupportedNamesEffect(plan: Plan)
    requires ScopeErrorOf(plan) == Some(EffectScopeUnsupported)
    ensures plan.effectScope.Some?
    ensures plan.effectScope.value.effects != [] ||
      !(plan.executionTarget.runtimeType == GenericLlm || plan.executionTarget.runtimeType == Mock)
  {
  }

  /** or a tool that none of the effects calls for. */
  lemma MismatchNamesTool(plan: Plan) returns (tool: string)
    requires ScopeErrorOf(plan) == Some(ToolScopeMismatch)
    ensures plan.effectScope.Some? && tool in plan.tools && Unwanted(plan.effectScope.value.effects, tool)
  {
    tool :| tool in plan.tools && tool !in ScopeToolNames(plan.effectScope.value, plan.sourceCandidateBinding);
  }

  /** None of the effects calls for the tool. */
  ghost predicate Unwanted(effects: seq<Effect>, tool: string) {
    (tool == "read_file" || tool == "search_code" ==> forall e :: e in effects ==> e.kind != ReadWorkspace) &&
    (tool == "run_test" ==> forall e :: e in effects ==> e.kind != RunTests)
  }
}
