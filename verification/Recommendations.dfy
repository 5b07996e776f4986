/**
  Governance of AI recommendations: the policy resolver, the risk gate and the lifecycle
  (ai-layer-service/src/ai/ai-governance-policy-resolver.service.ts,
  risk-threshold-evaluator.service.ts and ai-recommendation.service.ts).

  Service calls are serial and saves succeed; the call that executes a reallocation may fail.
  The suspicious-phrase detector is an arbitrary function from text to flags.
 */
module Recommendations {
  import opened Basics
  import opened Confidence

  // ----- Governance policy -----

  datatype AutonomyLevel = SuggestOnly | ApproveRequired | AutoExecuteLowRisk
  datatype Policy = Policy(level: AutonomyLevel, riskConfig: map<string, Json>)
  datatype PolicyKey = PolicyKey(tenant: string, actionType: string)
  type Policies = map<PolicyKey, Policy>

  const DEFAULT_ACTION_TYPE := "default"
  const REALLOCATION := "reallocation"

  /** Exact match, then the tenant's default row, then the platform default. */
  function ResolvePolicy(policies: Policies, tenant: string, actionType: string): Policy {
    if PolicyKey(tenant, actionType) in policies then policies[PolicyKey(tenant, actionType)]
    else if actionType != DEFAULT_ACTION_TYPE && PolicyKey(tenant, DEFAULT_ACTION_TYPE) in policies then
      policies[PolicyKey(tenant, DEFAULT_ACTION_TYPE)]
    else Policy(SuggestOnly, map[])
  }

  /** Anything more permissive than suggesting was configured by that very tenant. */
  lemma PermissionIsExplicit(policies: Policies, tenant: string, actionType: string)
    ensures var p := ResolvePolicy(policies, tenant, actionType);
            p.level != SuggestOnly ==>
              exists t :: PolicyKey(tenant, t) in policies && policies[PolicyKey(tenant, t)] == p
                          && (t == actionType
                              || (t == DEFAULT_ACTION_TYPE && PolicyKey(tenant, actionType) !in policies))
  {
  }

  // ----- The risk gate -----

  datatype FailedCriterion = TooManyEmployees | ConfidenceTooLow | NoRecognizedCriterion

  ghost predicate Configured(config: map<string, Json>, criterion: string) {
    criterion in config && config[criterion].Num?
  }

  /** What `auto_execute_low_risk` promises: some threshold is set, and every threshold set is met. */
  ghost predicate LowRisk(config: map<string, Json>, employees: nat, confidence: Option<real>) {
    && (Configured(config, "maxAffectedEmployees") || Configured(config, "minConfidenceIndicator"))
    && (Configured(config, "maxAffectedEmployees") ==> employees as real <= config["maxAffectedEmployees"].value)
    && (Configured(config, "minConfidenceIndicator") ==>
          confidence.Some? && confidence.value >= config["minConfidenceIndicator"].value)
  }

  method EvaluateRisk(config: map<string, Json>, employees: nat, confidence: Option<real>)
    returns (passed: bool, failed: seq<FailedCriterion>)
    ensures passed <==> LowRisk(config, employees, confidence)
    ensures passed <==> failed == []
    ensures NoRecognizedCriterion in failed <==>
            !Configured(config, "maxAffectedEmployees") && !Configured(config, "minConfidenceIndicator")
    ensures TooManyEmployees in failed <==>
            Configured(config, "maxAffectedEmployees") && employees as real > config["maxAffectedEmployees"].value
    ensures ConfidenceTooLow in failed <==>
            Configured(config, "minConfidenceIndicator")
            && (confidence.None? || confidence.value < config["minConfidenceIndicator"].value)
  {
    failed := [];
    var anyRecognized := false;
    if "maxAffectedEmployees" in config && config["maxAffectedEmployees"].Num? {
      anyRecognized := true;
      if employees as real > config["maxAffectedEmployees"].value {
        failed := failed + [TooManyEmployees];
      }
    }
    if "minConfidenceIndicator" in config && config["minConfidenceIndicator"].Num? {
      anyRecognized := true;
      if confidence.None? || confidence.value < config["minConfidenceIndicator"].value {
        failed := failed + [ConfidenceTooLow];
      }
    }
    if !anyRecognized {
      failed := failed + [NoRecognizedCriterion];
    }
    passed := |failed| == 0;
  }

  // ----- Interactions and recommendations -----

  datatype InteractionType = ReallocationRationale | OtherInteraction

  datatype Interaction = Interaction(
    tenant: string, kind: InteractionType, context: Json, output: Option<string>,
    confidence: Option<real>, degraded: bool)

  datatype SourceModule = Scheduling | Forecasting | Intraday
  datatype Status = Suggested | Approved | Rejected | AutoExecuted

  datatype Recommendation = Recommendation(
    tenant: string, sourceModule: SourceModule, rationale: string, context: Json, status: Status,
    requiresHumanApproval: bool, flags: seq<string>, level: AutonomyLevel,
    decidedBy: Option<string>, interactionId: string)

  /** `context[key]`, `Null` where JavaScript says `undefined`. */
  function Get(context: Json, key: string): Json {
    if context.Obj? then GetField(context.fields, key) else Null
  }

  function GetField(fields: seq<Field>, key: string): Json {
    if fields == [] then Null
    else if fields[0].key == key then fields[0].value
    else GetField(fields[1..], key)
  }

  function AffectedEmployees(context: Json): nat {
    var ids := Get(context, "affectedEmployeeIds");
    if ids.Arr? then |ids.items| else 0
  }

  /** The `k`-th field is the first of that name. */
  ghost predicate IsFirstField(fields: seq<Field>, k: nat, key: string) {
    k < |fields| && fields[k].key == key && forall j :: 0 <= j < k ==> fields[j].key != key
  }

  lemma {:induction false} FirstFieldIsGot(fields: seq<Field>, k: nat, key: string)
    requires IsFirstField(fields, k, key)
    ensures GetField(fields, key) == fields[k].value
  {
    if k > 0 {
      assert fields[0].key != key;
      FirstFieldIsGot(fields[1..], k - 1, key);
    }
  }

  lemma {:induction false} SomeFieldIsFirst(fields: seq<Field>, key: string) returns (k: nat)
    ensures if k < |fields| then IsFirstField(fields, k, key) else GetField(fields, key) == Null
    ensures k >= |fields| ==> forall j :: 0 <= j < |fields| ==> fields[j].key != key
  {
    if fields == [] || fields[0].key == key {
      k := 0;
    } else {
      k := SomeFieldIsFirst(fields[1..], key);
      k := k + 1;
    }
  }

  /** The context lists `n` affected employees: as many as its array of that name has, none without one. */
  ghost predicate Affects(context: Json, n: nat) {
    || (context.Obj? && exists k: nat ::
          && IsFirstField(context.fields, k, "affectedEmployeeIds")
          && context.fields[k].value.Arr? && n == |context.fields[k].value.items|)
    || (n == 0 && (context.Obj? ==> forall k: nat ::
          IsFirstField(context.fields, k, "affectedEmployeeIds") ==> !context.fields[k].value.Arr?))
  }

  lemma AffectedAreCounted(context: Json, n: nat)
    requires Affects(context, n)
    ensures AffectedEmployees(context) == n
  {
    if context.Obj? {
      var k := SomeFieldIsFirst(context.fields, "affectedEmployeeIds");
      forall l: nat | IsFirstField(context.fields, l, "affectedEmployeeIds")
        ensures Get(context, "affectedEmployeeIds") == context.fields[l].value
      {
        FirstFieldIsGot(context.fields, l, "affectedEmployeeIds");
      }
    }
  }

  lemma AffectedCount(context: Json) returns (n: nat)
    ensures Affects(context, n)
  {
    n := AffectedEmployees(context);
    if context.Obj? {
      var k := SomeFieldIsFirst(context.fields, "affectedEmployeeIds");
      if k < |context.fields| {
        FirstFieldIsGot(context.fields, k, "affectedEmployeeIds");
      }
    }
  }

  type Detector = string -> seq<string>

  /** What must hold for a recommendation to execute with no human in the loop. */
  ghost predicate MayAutoExecute(policies: Policies, detect: Detector, i: Interaction) {
    var policy := ResolvePolicy(policies, i.tenant, REALLOCATION);
    && policy.level == AutoExecuteLowRisk
    && LowRisk(policy.riskConfig, AffectedEmployees(i.context), i.confidence)
    && i.output.Some? && detect(i.output.value) == []
  }

  /** The policy row that governs a tenant's reallocations: its own for them, else its default. */
  ghost predicate Governing(policies: Policies, tenant: string, actionType: string) {
    && PolicyKey(tenant, actionType) in policies
    && (actionType == "reallocation"
        || (actionType == "default" && PolicyKey(tenant, "reallocation") !in policies))
  }

  /** A threshold that a policy's configuration sets to `x`. */
  ghost predicate Sets(config: map<string, Json>, threshold: string, x: real) {
    threshold in config && config[threshold] == Num(x)
  }

  /**
    The gate, said of the stored rows: the governing policy's level and thresholds
    against the interaction's own fields.
   */
  ghost predicate IsLowRisk(policy: Policy, detect: Detector, i: Interaction, affected: nat) {
    && policy.level == AutoExecuteLowRisk
    && (exists x ::
      Sets(policy.riskConfig, "maxAffectedEmployees", x) || Sets(policy.riskConfig, "minConfidenceIndicator", x))
    && (forall x :: Sets(policy.riskConfig, "maxAffectedEmployees", x) ==> affected as real <= x)
    && (forall x :: Sets(policy.riskConfig, "minConfidenceIndicator", x) ==>
      i.confidence.Some? && i.confidence.value >= x)
    && i.output.Some? && detect(i.output.value) == []
  }

  lemma GateIsExact(policies: Policies, detect: Detector, i: Interaction, actionType: string, affected: nat)
    requires Governing(policies, i.tenant, actionType) && Affects(i.context, affected)
    ensures MayAutoExecute(policies, detect, i)
            <==> IsLowRisk(policies[PolicyKey(i.tenant, actionType)], detect, i, affected)
  {
    AffectedAreCounted(i.context, affected);
    assert ResolvePolicy(policies, i.tenant, REALLOCATION) == policies[PolicyKey(i.tenant, actionType)];
    ThresholdsAreRead(policies[PolicyKey(i.tenant, actionType)].riskConfig, affected, i.confidence);
  }

  lemma ThresholdsAreRead(config: map<string, Json>, affected: nat, confidence: Option<real>)
    ensures LowRisk(config, affected, confidence) <==>
            && (exists x :: Sets(config, "maxAffectedEmployees", x) || Sets(config, "minConfidenceIndicator", x))
            && (forall x :: Sets(config, "maxAffectedEmployees", x) ==> affected as real <= x)
            && (forall x :: Sets(config, "minConfidenceIndicator", x) ==> confidence.Some? && confidence.value >= x)
  {
    ThresholdIsConfigured(config, "maxAffectedEmployees");
    ThresholdIsConfigured(config, "minConfidenceIndicator");
  }

  lemma ThresholdIsConfigured(config: map<string, Json>, threshold: string)
    ensures Configured(config, threshold) <==> exists x :: Sets(config, threshold, x)
    ensures Configured(config, threshold) ==> Sets(config, threshold, config[threshold].value)
  {
    if Configured(config, threshold) {
      assert Sets(config, threshold, config[threshold].value);
    }
  }

  /** The action named first in the context, if it names one. */
  ghost predicate IsActionOf(context: Json, action: Json) {
    context.Obj? ==> forall k: nat ::
      IsFirstField(context.fields, k, "reallocationActionId") ==> action == context.fields[k].value
  }

  lemma ActionIsNamed(context: Json)
    ensures IsActionOf(context, Get(context, "reallocationActionId"))
  {
    if context.Obj? {
      forall k: nat | IsFirstField(context.fields, k, "reallocationActionId")
        ensures Get(context, "reallocationActionId") == context.fields[k].value
      {
        FirstFieldIsGot(context.fields, k, "reallocationActionId");
      }
    }
  }

  /** One call of the reallocation API of the owning module. */
  datatype ExecutionCall = ExecutionCall(recommendationId: string, tenant: string, action: Json, succeeded: bool)

  datatype State = State(
    interactions: map<string, Interaction>, policies: Policies,
    recommendations: map<string, Recommendation>, calls: seq<ExecutionCall>)

  function Initial(): State {
    State(map[], map[], map[], [])
  }

  datatype Outcome =
    | Done(recommendation: Recommendation)
    | InteractionNotFound | NotRecommendable | InteractionDegraded
    | RecommendationNotFound | NotDecidable(status: Status)
    | NoExecutionPathway | ExecutionFailed

  // ----- The lifecycle on values -----

  function NewRecommendation(
    i: Interaction, interactionId: string, level: AutonomyLevel, flags: seq<string>, approval: bool): Recommendation
    requires i.output.Some?
  {
    Recommendation(
      i.tenant, Intraday, i.output.value, i.context, Suggested, approval, flags, level, None, interactionId)
  }

  /** `execute`: the row is saved only if the call went through. */
  function AfterExecute(
    s: State, id: string, r: Recommendation, decider: Option<string>, final: Status, succeeds: bool): State
  {
    if r.sourceModule != Intraday then s
    else
      var called :=
        s.(calls := s.calls + [ExecutionCall(id, r.tenant, Get(r.context, "reallocationActionId"), succeeds)]);
      if succeeds then called.(recommendations := s.recommendations[id := r.(status := final, decidedBy := decider)])
      else called
  }

  ghost predicate Recommendable(s: State, tenant: string, interactionId: string) {
    && interactionId in s.interactions
    && var i := s.interactions[interactionId];
       i.tenant == tenant && i.kind.ReallocationRationale? && !i.degraded && i.output.Some? && i.output.value != ""
  }

  ghost function AfterCreate(
    s: State, detect: Detector, tenant: string, interactionId: string, id: string, succeeds: bool): State
  {
    if !Recommendable(s, tenant, interactionId) then s
    else
      var i := s.interactions[interactionId];
      var auto := MayAutoExecute(s.policies, detect, i);
      var level := ResolvePolicy(s.policies, tenant, REALLOCATION).level;
      var r := NewRecommendation(i, interactionId, level, detect(i.output.value), !auto);
      var saved := s.(recommendations := s.recommendations[id := r]);
      if auto then AfterExecute(saved, id, r, None, AutoExecuted, succeeds) else saved
  }

  /** The row carries its interaction: the rationale with what is suspicious about it, and the context. */
  ghost predicate IsAbout(r: Recommendation, i: Interaction, interactionId: string, detect: Detector) {
    && r.tenant == i.tenant && r.interactionId == interactionId && r.context == i.context
    && i.output == Some(r.rationale) && r.flags == detect(r.rationale) && r.sourceModule == Intraday
  }

  /** From `s` to `t` the owning module was called once, for the action that the row is about. */
  ghost predicate OneCallMore(s: State, t: State, id: string, succeeds: bool) {
    && |t.calls| == |s.calls| + 1 && t.calls[..|s.calls|] == s.calls
    && var call := t.calls[|s.calls|];
       && id in t.recommendations && IsActionOf(t.recommendations[id].context, call.action)
       && call == ExecutionCall(id, t.recommendations[id].tenant, call.action, succeeds)
  }

  /**
    Creating a recommendation under a policy row: it may execute without a human if and only
    if that row's level and thresholds allow it; otherwise it waits for approval and no call
    is made.  A list of affected employees above the configured maximum is such a case.
   */
  lemma CreationRespectsGate(
    s: State, detect: Detector, tenant: string, interactionId: string, id: string, succeeds: bool,
    actionType: string, affected: nat)
    requires Recommendable(s, tenant, interactionId)
    requires Governing(s.policies, tenant, actionType) && Affects(s.interactions[interactionId].context, affected)
    ensures var policy := s.policies[PolicyKey(tenant, actionType)];
            var t := AfterCreate(s, detect, tenant, interactionId, id, succeeds);
            && id in t.recommendations && t.recommendations[id].level == policy.level
            && IsAbout(t.recommendations[id], s.interactions[interactionId], interactionId, detect)
            && (t.recommendations[id].requiresHumanApproval
                <==> !IsLowRisk(policy, detect, s.interactions[interactionId], affected))
            && if t.recommendations[id].requiresHumanApproval
               then t.calls == s.calls && t.recommendations[id].status == Suggested
               else OneCallMore(s, t, id, succeeds)
                    && t.recommendations[id].status == if succeeds then AutoExecuted else Suggested
  {
    ActionIsNamed(s.interactions[interactionId].context);
    GateIsExact(s.policies, detect, s.interactions[interactionId], actionType, affected);
    assert ResolvePolicy(s.policies, tenant, REALLOCATION) == s.policies[PolicyKey(tenant, actionType)];
  }

  /** Without a policy row of its own a tenant's recommendations only ever suggest. */
  lemma UngovernedIsHeld(
    s: State, detect: Detector, tenant: string, interactionId: string, id: string, succeeds: bool)
    requires Recommendable(s, tenant, interactionId)
    requires forall actionType :: !Governing(s.policies, tenant, actionType)
    ensures var t := AfterCreate(s, detect, tenant, interactionId, id, succeeds);
            && t.calls == s.calls && id in t.recommendations
            && t.recommendations[id].requiresHumanApproval && t.recommendations[id].level == SuggestOnly
  {
    assert !Governing(s.policies, tenant, "reallocation");
    assert !Governing(s.policies, tenant, "default");
  }

  datatype Decision = Approve | Reject

  function AfterDecide(
    s: State, tenant: string, user: Option<string>, id: string, decision: Decision, succeeds: bool): State
  {
    if id !in s.recommendations || s.recommendations[id].tenant != tenant then s
    else
      var r := s.recommendations[id];
      if r.status != Suggested then s
      else if decision.Reject? then
        s.(recommendations := s.recommendations[id := r.(status := Rejected, decidedBy := user)])
      else if r.level == SuggestOnly then
        s.(recommendations := s.recommendations[id := r.(status := Approved, decidedBy := user)])
      else AfterExecute(s, id, r, user, Approved, succeeds)
  }

  /**
    A decision on an undecided row of the tenant: only an approval above suggest-only calls
    the owning module, once and for the row's action, and only if that call fails does the
    row stay as it was.  Any other decision changes nothing.
   */
  lemma DecisionTakesEffect(
    s: State, tenant: string, user: Option<string>, id: string, decision: Decision, succeeds: bool)
    ensures var t := AfterDecide(s, tenant, user, id, decision, succeeds);
            if id in s.recommendations && s.recommendations[id].tenant == tenant
               && s.recommendations[id].status == Suggested
               && (s.recommendations[id].sourceModule == Intraday || s.recommendations[id].level == SuggestOnly
                   || decision == Reject)
            then
              && t.policies == s.policies && t.interactions == s.interactions
              && t.recommendations.Keys == s.recommendations.Keys
              && (forall other | other in s.recommendations && other != id ::
                    t.recommendations[other] == s.recommendations[other])
              && var calls := decision == Approve && s.recommendations[id].level != SuggestOnly;
                 && (if calls then OneCallMore(s, t, id, succeeds) else t.calls == s.calls)
                 && t.recommendations[id] ==
                    if calls && !succeeds then s.recommendations[id]
                    else s.recommendations[id].(
                      status := if decision == Approve then Approved else Rejected, decidedBy := user)
            else t == s
  {
    if id in s.recommendations {
      ActionIsNamed(s.recommendations[id].context);
    }
  }

  // ----- The service -----

  class Service {
    const detect: Detector
    var interactions: map<string, Interaction>
    var policies: Policies
    var recommendations: map<string, Recommendation>
    var calls: seq<ExecutionCall>

    function Snapshot(): State
      reads this
    {
      State(interactions, policies, recommendations, calls)
    }

    constructor (detect: Detector)
      ensures this.detect == detect && Snapshot() == Initial()
    {
      this.detect := detect;
      interactions, policies, recommendations, calls := map[], map[], map[], [];
    }

    /** `id` is the fresh UUID; `succeeds` is what the owning module answers if it is called. */
    method CreateFromInteraction(
      tenant: string, interactionId: string, id: string, succeeds: bool)
      returns (outcome: Outcome)
      requires id !in recommendations
      modifies this
      ensures Snapshot() == AfterCreate(old(Snapshot()), detect, tenant, interactionId, id, succeeds)
      ensures outcome.InteractionNotFound? <==>
              interactionId !in interactions || interactions[interactionId].tenant != tenant
      ensures outcome.NotRecommendable? <==>
              && interactionId in interactions && interactions[interactionId].tenant == tenant
              && !interactions[interactionId].kind.ReallocationRationale?
      ensures outcome.InteractionDegraded? <==>
              && interactionId in interactions && interactions[interactionId].tenant == tenant
              && interactions[interactionId].kind.ReallocationRationale?
              && (interactions[interactionId].degraded || interactions[interactionId].output in {None, Some("")})
      ensures outcome.Done? <==>
              && Recommendable(old(Snapshot()), tenant, interactionId)
              && (MayAutoExecute(policies, detect, interactions[interactionId]) ==> succeeds)
      ensures outcome.Done? ==> id in recommendations && outcome.recommendation == recommendations[id]
    {
      if interactionId !in interactions || interactions[interactionId].tenant != tenant {
        return InteractionNotFound;
      }
      var interaction := interactions[interactionId];
      if interaction.kind != ReallocationRationale {
        return NotRecommendable;
      }
      if interaction.degraded || interaction.output.None? || interaction.output.value == "" {
        return InteractionDegraded;
      }
      var affected := AffectedEmployees(interaction.context);
      var governance := ResolvePolicy(policies, tenant, REALLOCATION);
      var requiresHumanApproval := governance.level != AutoExecuteLowRisk;
      if governance.level == AutoExecuteLowRisk {
        var passed, _ := EvaluateRisk(governance.riskConfig, affected, interaction.confidence);
        if !passed {
          requiresHumanApproval := true;
        }
      }
      var flags := detect(interaction.output.value);
      if |flags| > 0 && !requiresHumanApproval {
        requiresHumanApproval := true;
      }
      var recommendation := Recommendation(
        tenant, Intraday, interaction.output.value, interaction.context, Suggested,
        requiresHumanApproval, flags, governance.level, None, interactionId);
      recommendations := recommendations[id := recommendation];
      if requiresHumanApproval {
        return Done(recommendation);
      }
      outcome := Execute(id, recommendation, None, AutoExecuted, succeeds);
    }

    method DecideRecommendation(tenant: string, user: Option<string>, id: string, decision: Decision, succeeds: bool)
      returns (outcome: Outcome)
      modifies this
      ensures Snapshot() == AfterDecide(old(Snapshot()), tenant, user, id, decision, succeeds)
      ensures outcome.Done? <==>
              && id in old(recommendations) && old(recommendations)[id].tenant == tenant
              && old(recommendations)[id].status == Suggested
              && (decision.Reject? || old(recommendations)[id].level == SuggestOnly
                  || (old(recommendations)[id].sourceModule == Intraday && succeeds))
      ensures outcome.Done? ==> id in recommendations && outcome.recommendation == recommendations[id]
      ensures outcome.RecommendationNotFound? <==>
              id !in old(recommendations) || old(recommendations)[id].tenant != tenant
      ensures outcome.NotDecidable? <==>
              && id in old(recommendations) && old(recommendations)[id].tenant == tenant
              && old(recommendations)[id].status != Suggested
    {
      if id !in recommendations || recommendations[id].tenant != tenant {
        return RecommendationNotFound;
      }
      var recommendation := recommendations[id];
      if recommendation.status != Suggested {
        return NotDecidable(recommendation.status);
      }
      if decision.Reject? {
        recommendation := recommendation.(status := Rejected, decidedBy := user);
        recommendations := recommendations[id := recommendation];
        return Done(recommendation);
      }
      if recommendation.level == SuggestOnly {
        recommendation := recommendation.(status := Approved, decidedBy := user);
        recommendations := recommendations[id := recommendation];
        return Done(recommendation);
      }
      recommendation := recommendation.(decidedBy := user);
      outcome := Execute(id, recommendation, user, Approved, succeeds);
    }

    method Execute(
      id: string, r: Recommendation, decider: Option<string>, final: Status, succeeds: bool)
      returns (outcome: Outcome)
      modifies this
      ensures Snapshot() == AfterExecute(old(Snapshot()), id, r, decider, final, succeeds)
      ensures outcome.Done? <==> r.sourceModule == Intraday && succeeds
      ensures outcome.Done? ==> id in recommendations && outcome.recommendation == recommendations[id]
      ensures !outcome.NotDecidable? && !outcome.RecommendationNotFound?
      ensures !outcome.InteractionNotFound? && !outcome.NotRecommendable? && !outcome.InteractionDegraded?
    {
      if r.sourceModule != Intraday {
        return NoExecutionPathway;
      }
      calls := calls + [ExecutionCall(id, r.tenant, Get(r.context, "reallocationActionId"), succeeds)];
      if !succeeds {
        return ExecutionFailed;
      }
      var saved := r.(status := final, decidedBy := decider);
      recommendations := recommendations[id := saved];
      return Done(saved);
    }
  }

  // ----- Runs -----

  datatype Event =
    | Create(tenant: string, interactionId: string, id: string, succeeds: bool)
    | Decide(tenant: string, user: Option<string>, id: string, decision: Decision, succeeds: bool)
    | SetPolicy(key: PolicyKey, policy: Policy)
    | RecordInteraction(interactionId: string, interaction: Interaction)
    | ImportRow(id: string, row: Recommendation)

  /** Ids are fresh; rows that come from other modules are undecided and not executable here. */
  predicate Enabled(s: State, e: Event) {
    match e
    case Create(_, _, id, _) => id !in s.recommendations
    case Decide(_, _, _, _, _) => true
    case SetPolicy(_, _) => true
    case RecordInteraction(id, _) => id !in s.interactions
    case ImportRow(id, row) => id !in s.recommendations && row.status == Suggested && row.sourceModule != Intraday
  }

  ghost function Step(detect: Detector, s: State, e: Event): State {
    match e
    case Create(tenant, interactionId, id, succeeds) => AfterCreate(s, detect, tenant, interactionId, id, succeeds)
    case Decide(tenant, user, id, decision, succeeds) => AfterDecide(s, tenant, user, id, decision, succeeds)
    case SetPolicy(key, policy) => s.(policies := s.policies[key := policy])
    case RecordInteraction(id, interaction) => s.(interactions := s.interactions[id := interaction])
    case ImportRow(id, row) => s.(recommendations := s.recommendations[id := row])
  }

  ghost predicate IsRun(detect: Detector, states: seq<State>, events: seq<Event>) {
    && |states| == |events| + 1
    && states[0] == Initial()
    && forall i {:trigger events[i]} :: 0 <= i < |events| ==>
         Enabled(states[i], events[i]) && states[i + 1] == Step(detect, states[i], events[i])
  }

  lemma RunExtends(detect: Detector, states: seq<State>, events: seq<Event>, e: Event)
    requires IsRun(detect, states, events) && Enabled(states[|events|], e)
    ensures IsRun(detect, states + [Step(detect, states[|events|], e)], events + [e])
  {
  }

  /** Whatever happened before, an undecided row above suggest-only can still be approved and executed. */
  lemma ApprovalIsPossible(
    detect: Detector, states: seq<State>, events: seq<Event>, user: Option<string>, id: string)
    returns (t: State, e: Event)
    requires IsRun(detect, states, events) && id in states[|events|].recommendations
    requires var r := states[|events|].recommendations[id];
             r.status == Suggested && r.level != SuggestOnly && r.sourceModule == Intraday
    ensures IsRun(detect, states + [t], events + [e]) && e.Decide? && OneCallMore(states[|events|], t, id, true)
    ensures id in t.recommendations && t.recommendations[id].status == Approved
            && t.recommendations[id].decidedBy == user
  {
    var s := states[|events|];
    e := Decide(s.recommendations[id].tenant, user, id, Approve, true);
    RunExtends(detect, states, events, e);
    DecisionTakesEffect(s, e.tenant, user, id, Approve, true);
    t := Step(detect, s, e);
  }

  /** A policy, an interaction that it takes for low risk, and a recommendation: the run executes it unattended. */
  lemma LowRiskRunExecutes(detect: Detector, policy: Policy, i: Interaction, affected: nat, id: string)
    returns (states: seq<State>, events: seq<Event>)
    requires i.kind.ReallocationRationale? && !i.degraded && i.output.Some? && i.output.value != ""
    requires Affects(i.context, affected) && IsLowRisk(policy, detect, i, affected)
    ensures IsRun(detect, states, events) && |events| == 3
    ensures OneCallMore(Initial(), states[3], id, true) && states[3].recommendations[id].status == AutoExecuted
  {
    var key := PolicyKey(i.tenant, "reallocation");
    events := [SetPolicy(key, policy), RecordInteraction(id, i), Create(i.tenant, id, id, true)];
    var s1 := Step(detect, Initial(), events[0]);
    var s2 := Step(detect, s1, events[1]);
    CreationRespectsGate(s2, detect, i.tenant, id, id, true, "reallocation", affected);
    states := [Initial(), s1, s2, Step(detect, s2, events[2])];
  }

  // ----- No unauthorised execution -----

  /**
    The call is for the very action the recommendation was about, and either the automatic
    gate was open for its interaction in this state, or this event is an approval of an
    undecided row whose level lets one close the loop.  Who approves may be unnamed: the
    source takes a null user.
   */
  ghost predicate Authorised(detect: Detector, s: State, e: Event, call: ExecutionCall) {
    || (e.Create? && Recommendable(s, e.tenant, e.interactionId)
        && var i := s.interactions[e.interactionId];
           MayAutoExecute(s.policies, detect, i)
           && call == ExecutionCall(e.id, e.tenant, Get(i.context, "reallocationActionId"), e.succeeds))
    || (e.Decide? && e.decision.Approve? && e.id in s.recommendations
        && var r := s.recommendations[e.id];
           r.tenant == e.tenant && r.status == Suggested && r.level != SuggestOnly && r.sourceModule == Intraday
           && call == ExecutionCall(e.id, e.tenant, Get(r.context, "reallocationActionId"), e.succeeds))
  }

  lemma StepIsAuthorised(detect: Detector, s: State, e: Event)
    ensures var after := Step(detect, s, e).calls;
            || after == s.calls
            || (|after| == |s.calls| + 1 && after[..|s.calls|] == s.calls
                && Authorised(detect, s, e, after[|s.calls|]))
  {
  }

  lemma RunStepIsAuthorised(detect: Detector, states: seq<State>, events: seq<Event>, n: nat)
    requires IsRun(detect, states, events) && n < |events|
    ensures var calls, after := states[n].calls, states[n + 1].calls;
            || after == calls
            || (|after| == |calls| + 1 && after[..|calls|] == calls
                && Authorised(detect, states[n], events[n], after[|calls|]))
  {
    StepIsAuthorised(detect, states[n], events[n]);
  }

  /** Every call of every run was authorised by the event that made it, in the state it was made in. */
  lemma {:induction false} EveryCallIsAuthorised(
    detect: Detector, states: seq<State>, events: seq<Event>, n: nat, k: nat)
    returns (i: nat)
    requires IsRun(detect, states, events) && n <= |events| && k < |states[n].calls|
    ensures i < n && states[i].calls == states[n].calls[..k]
    ensures Authorised(detect, states[i], events[i], states[n].calls[k])
  {
    RunStepIsAuthorised(detect, states, events, n - 1);
    if k < |states[n - 1].calls| {
      i := EveryCallIsAuthorised(detect, states, events, n - 1, k);
      assert states[n].calls[..k] == states[n - 1].calls[..k];
    } else {
      i := n - 1;
    }
  }

  // ----- At most once, and the status tells the truth -----

  ghost predicate Executed(r: Recommendation) {
    r.status == AutoExecuted || (r.status == Approved && r.level != SuggestOnly)
  }

  ghost predicate SucceededFor(calls: seq<ExecutionCall>, id: string) {
    exists k :: 0 <= k < |calls| && calls[k].succeeded && calls[k].recommendationId == id
  }

  ghost predicate SucceedsOnce(calls: seq<ExecutionCall>) {
    forall k, l :: 0 <= k < l < |calls| && calls[k].succeeded && calls[l].succeeded ==>
      calls[k].recommendationId != calls[l].recommendationId
  }

  ghost predicate Inv(s: State) {
    && SucceedsOnce(s.calls)
    && (forall k :: 0 <= k < |s.calls| ==> s.calls[k].recommendationId in s.recommendations)
    && (forall id :: id in s.recommendations ==> (Executed(s.recommendations[id]) <==> SucceededFor(s.calls, id)))
    && (forall id :: id in s.recommendations && s.recommendations[id].status == AutoExecuted ==>
          && !s.recommendations[id].requiresHumanApproval
          && s.recommendations[id].flags == []
          && s.recommendations[id].level == AutoExecuteLowRisk)
  }

  lemma SuccessGrows(calls: seq<ExecutionCall>, call: ExecutionCall, id: string)
    ensures SucceededFor(calls + [call], id)
            <==> SucceededFor(calls, id) || (call.succeeded && call.recommendationId == id)
  {
    var grown := calls + [call];
    if SucceededFor(calls, id) {
      var k :| 0 <= k < |calls| && calls[k].succeeded && calls[k].recommendationId == id;
      assert grown[k] == calls[k];
    }
    if call.succeeded && call.recommendationId == id {
      assert grown[|calls|] == call;
    }
  }

  /** `execute` on an undecided row, saved already, keeps the invariant. */
  lemma ExecuteKeeps(s: State, id: string, decider: Option<string>, final: Status, succeeds: bool)
    requires Inv(s) && id in s.recommendations && s.recommendations[id].status == Suggested
    requires || (final == Approved && s.recommendations[id].level != SuggestOnly)
             || (final == AutoExecuted && !s.recommendations[id].requiresHumanApproval
                 && s.recommendations[id].flags == [] && s.recommendations[id].level == AutoExecuteLowRisk)
    ensures Inv(AfterExecute(s, id, s.recommendations[id], decider, final, succeeds))
  {
    var r := s.recommendations[id];
    if r.sourceModule == Intraday {
      var after := AfterExecute(s, id, r, decider, final, succeeds);
      var call := after.calls[|s.calls|];
      assert !SucceededFor(s.calls, id);
      forall other | other in after.recommendations
        ensures Executed(after.recommendations[other]) <==> SucceededFor(after.calls, other)
      {
        SuccessGrows(s.calls, call, other);
      }
    }
  }

  lemma FreshRowKeeps(s: State, id: string, row: Recommendation)
    requires Inv(s) && id !in s.recommendations && row.status == Suggested
    ensures Inv(s.(recommendations := s.recommendations[id := row]))
  {
  }

  lemma CreateKeeps(s: State, detect: Detector, tenant: string, interactionId: string, id: string, succeeds: bool)
    requires Inv(s) && id !in s.recommendations && Recommendable(s, tenant, interactionId)
    ensures Inv(AfterCreate(s, detect, tenant, interactionId, id, succeeds))
  {
    var i := s.interactions[interactionId];
    var auto := MayAutoExecute(s.policies, detect, i);
    var level := ResolvePolicy(s.policies, tenant, REALLOCATION).level;
    var r := NewRecommendation(i, interactionId, level, detect(i.output.value), !auto);
    FreshRowKeeps(s, id, r);
    if auto {
      ExecuteKeeps(s.(recommendations := s.recommendations[id := r]), id, None, AutoExecuted, succeeds);
    }
  }

  lemma DecideKeeps(s: State, tenant: string, user: Option<string>, id: string, decision: Decision, succeeds: bool)
    requires Inv(s)
    ensures Inv(AfterDecide(s, tenant, user, id, decision, succeeds))
  {
    if id in s.recommendations && s.recommendations[id].status == Suggested && decision.Approve?
       && s.recommendations[id].level != SuggestOnly {
      ExecuteKeeps(s, id, user, Approved, succeeds);
    }
  }

  lemma StepKeeps(detect: Detector, s: State, e: Event)
    requires Inv(s) && Enabled(s, e)
    ensures Inv(Step(detect, s, e))
  {
    match e {
      case Create(tenant, interactionId, id, succeeds) =>
        if Recommendable(s, tenant, interactionId) {
          CreateKeeps(s, detect, tenant, interactionId, id, succeeds);
        }
      case Decide(tenant, user, id, decision, succeeds) => DecideKeeps(s, tenant, user, id, decision, succeeds);
      case ImportRow(id, row) => FreshRowKeeps(s, id, row);
      case _ =>
    }
  }

  lemma {:induction false} RunKeeps(detect: Detector, states: seq<State>, events: seq<Event>, n: nat)
    requires IsRun(detect, states, events) && n <= |events|
    ensures Inv(states[n])
  {
    if n > 0 {
      RunKeeps(detect, states, events, n - 1);
      StepKeeps(detect, states[n - 1], events[n - 1]);
    }
  }

  /**
    In every run, each recommendation is executed successfully at most once, and its status
    says exactly whether it was.
   */
  lemma ExecutedAtMostOnce(detect: Detector, states: seq<State>, events: seq<Event>, n: nat, id: string)
    requires IsRun(detect, states, events) && n <= |events|
    ensures SucceedsOnce(states[n].calls)
    ensures id in states[n].recommendations ==>
              (Executed(states[n].recommendations[id]) <==> SucceededFor(states[n].calls, id))
  {
    RunKeeps(detect, states, events, n);
  }

  /** The same row, but for who decided it and how. */
  ghost predicate SameProposal(a: Recommendation, b: Recommendation) {
    a.(status := Suggested, decidedBy := None) == b.(status := Suggested, decidedBy := None)
  }

  lemma RowAfterCreate(
    detect: Detector, s: State, tenant: string, interactionId: string, created: string, succeeds: bool, id: string)
    requires created !in s.recommendations && id in s.recommendations
    ensures var after := AfterCreate(s, detect, tenant, interactionId, created, succeeds).recommendations;
            id in after && after[id] == s.recommendations[id]
  {
  }

  lemma RowAfterDecide(
    s: State, tenant: string, user: Option<string>, decided: string, decision: Decision, succeeds: bool, id: string)
    requires id in s.recommendations
    ensures var after := AfterDecide(s, tenant, user, decided, decision, succeeds).recommendations;
            && id in after
            && (s.recommendations[id].status != Suggested ==> after[id] == s.recommendations[id])
            && SameProposal(after[id], s.recommendations[id])
  {
    DecisionTakesEffect(s, tenant, user, decided, decision, succeeds);
    if id != decided {
      assert id in AfterDecide(s, tenant, user, decided, decision, succeeds).recommendations;
    }
  }

  /** What an event does to a row: nothing once it is decided, and never more than decide it. */
  lemma RowAfterStep(detect: Detector, s: State, e: Event, id: string)
    requires Enabled(s, e) && id in s.recommendations
    ensures var after := Step(detect, s, e).recommendations;
            && id in after
            && (s.recommendations[id].status != Suggested ==> after[id] == s.recommendations[id])
            && SameProposal(after[id], s.recommendations[id])
  {
    match e {
      case Create(tenant, interactionId, created, succeeds) =>
        RowAfterCreate(detect, s, tenant, interactionId, created, succeeds, id);
      case Decide(tenant, user, decided, decision, succeeds) =>
        RowAfterDecide(s, tenant, user, decided, decision, succeeds, id);
      case _ =>
    }
  }

  /** A decided row never changes again. */
  lemma {:induction false} DecisionsAreFinal(
    detect: Detector, states: seq<State>, events: seq<Event>, m: nat, n: nat, id: string)
    requires IsRun(detect, states, events) && m <= n <= |events|
    requires id in states[m].recommendations && states[m].recommendations[id].status != Suggested
    ensures id in states[n].recommendations && states[n].recommendations[id] == states[m].recommendations[id]
  {
    if m < n {
      DecisionsAreFinal(detect, states, events, m, n - 1, id);
      RowAfterStep(detect, states[n - 1], events[n - 1], id);
    }
  }

  /** The event created the row, from an interaction of its tenant and at the level the tenant's policy gave then. */
  ghost predicate Governs(detect: Detector, s: State, e: Event, id: string, r: Recommendation) {
    && e.Create? && e.id == id && e.tenant == r.tenant && Recommendable(s, e.tenant, e.interactionId)
    && r.level == ResolvePolicy(s.policies, r.tenant, REALLOCATION).level
    && r.context == s.interactions[e.interactionId].context
    && (r.requiresHumanApproval <==> !MayAutoExecute(s.policies, detect, s.interactions[e.interactionId]))
  }

  lemma NewRowIsGoverned(detect: Detector, s: State, e: Event, id: string)
    requires Enabled(s, e) && id !in s.recommendations && id in Step(detect, s, e).recommendations
    requires Step(detect, s, e).recommendations[id].sourceModule == Intraday
    ensures Governs(detect, s, e, id, Step(detect, s, e).recommendations[id])
  {
  }

  /** Every row this service can execute was created here under the policy of its tenant. */
  lemma {:induction false} RowsWereGoverned(
    detect: Detector, states: seq<State>, events: seq<Event>, n: nat, id: string)
    returns (i: nat)
    requires IsRun(detect, states, events) && n <= |events|
    requires id in states[n].recommendations && states[n].recommendations[id].sourceModule == Intraday
    ensures i < n && Governs(detect, states[i], events[i], id, states[n].recommendations[id])
  {
    if id in states[n - 1].recommendations {
      RowAfterStep(detect, states[n - 1], events[n - 1], id);
      i := RowsWereGoverned(detect, states, events, n - 1, id);
    } else {
      NewRowIsGoverned(detect, states[n - 1], events[n - 1], id);
      i := n - 1;
    }
  }

  /** A row of the tenant's own policy table that lets recommendations of this kind be executed. */
  ghost predicate IsPermittedBy(policies: Policies, tenant: string, actionType: string) {
    && PolicyKey(tenant, actionType) in policies && policies[PolicyKey(tenant, actionType)].level != SuggestOnly
    && (actionType == REALLOCATION
        || (actionType == DEFAULT_ACTION_TYPE && PolicyKey(tenant, REALLOCATION) !in policies))
  }

  /**
    Every execution call of every run, traced back to its beginning: event `c` created the
    recommendation for the caller's tenant, from an interaction about the very action that
    is executed and at a time when a row of the tenant's own policy table permitted it; and
    either that event made the call itself, through the open automatic gate, or the later
    event `i` did, an approval by that tenant of the still undecided recommendation.
   */
  lemma EveryCallIsTraced(detect: Detector, states: seq<State>, events: seq<Event>, n: nat, k: nat)
    returns (c: nat, i: nat, actionType: string)
    requires IsRun(detect, states, events) && n <= |events| && k < |states[n].calls|
    ensures c <= i < n && states[i].calls == states[n].calls[..k]
    ensures var call, e := states[n].calls[k], events[c];
            && e.Create? && e.id == call.recommendationId && e.tenant == call.tenant
            && Recommendable(states[c], call.tenant, e.interactionId)
            && call.action == Get(states[c].interactions[e.interactionId].context, "reallocationActionId")
            && IsActionOf(states[c].interactions[e.interactionId].context, call.action)
            && IsPermittedBy(states[c].policies, call.tenant, actionType)
            && (c == i ==> MayAutoExecute(states[c].policies, detect, states[c].interactions[e.interactionId]))
            && (c < i ==>
                  && events[i].Decide? && events[i].decision.Approve?
                  && events[i].id == call.recommendationId && events[i].tenant == call.tenant
                  && call.recommendationId in states[i].recommendations
                  && states[i].recommendations[call.recommendationId].status == Suggested)
  {
    i := EveryCallIsAuthorised(detect, states, events, n, k);
    var call := states[n].calls[k];
    if events[i].Create? {
      c := i;
    } else {
      c := RowsWereGoverned(detect, states, events, i, call.recommendationId);
    }
    ActionIsNamed(states[c].interactions[events[c].interactionId].context);
    PermissionIsExplicit(states[c].policies, call.tenant, REALLOCATION);
    var p := ResolvePolicy(states[c].policies, call.tenant, REALLOCATION);
    assert p.level != SuggestOnly;
    var policies := states[c].policies;
    actionType :|
      && PolicyKey(call.tenant, actionType) in policies && policies[PolicyKey(call.tenant, actionType)] == p
      && (actionType == REALLOCATION
          || (actionType == DEFAULT_ACTION_TYPE && PolicyKey(call.tenant, REALLOCATION) !in policies));
  }

  /**
    A call that nobody approved: its recommendation was created, then and there, under a
    governing policy row for automatic execution, all of whose thresholds the interaction
    met.  In particular the context listed no more affected employees than the row allows.
   */
  lemma UnapprovedCallsAreLowRisk(
    detect: Detector, states: seq<State>, events: seq<Event>, n: nat, k: nat)
    returns (c: nat, actionType: string, affected: nat)
    requires IsRun(detect, states, events) && n <= |events| && k < |states[n].calls|
    requires forall j :: 0 <= j < n && events[j].Decide? && events[j].decision.Approve? ==>
               events[j].id != states[n].calls[k].recommendationId
    ensures c < n && events[c].Create? && events[c].id == states[n].calls[k].recommendationId
    ensures var call, s := states[n].calls[k], states[c];
            && events[c].interactionId in s.interactions && Governing(s.policies, call.tenant, actionType)
            && Affects(s.interactions[events[c].interactionId].context, affected)
            && IsLowRisk(s.policies[PolicyKey(call.tenant, actionType)], detect,
                         s.interactions[events[c].interactionId], affected)
  {
    var i;
    c, i, actionType := EveryCallIsTraced(detect, states, events, n, k);
    assert c == i;
    affected := AffectedCount(states[c].interactions[events[c].interactionId].context);
    GateIsExact(states[c].policies, detect, states[c].interactions[events[c].interactionId], actionType, affected);
  }

  // ----- Every status has its reason -----

  /** The event that decided a row, and what it says of it. */
  ghost predicate IsReason(e: Event, id: string, r: Recommendation) {
    match r.status
    case Suggested => false
    case Approved => e.Decide? && e.id == id && e.tenant == r.tenant && e.decision.Approve? && r.decidedBy == e.user
    case Rejected => e.Decide? && e.id == id && e.tenant == r.tenant && e.decision.Reject? && r.decidedBy == e.user
    case AutoExecuted => e.Create? && e.id == id && e.tenant == r.tenant && r.decidedBy == None
  }

  lemma StepHasReason(detect: Detector, s: State, e: Event, id: string)
    requires Enabled(s, e) && id in Step(detect, s, e).recommendations
    requires Step(detect, s, e).recommendations[id].status != Suggested
    requires id in s.recommendations ==> s.recommendations[id].status == Suggested
    ensures IsReason(e, id, Step(detect, s, e).recommendations[id])
  {
    if e.Create? {
      assert e.id == id || id in s.recommendations;
    }
  }

  /**
    Every decided row was decided by an event that said just that: approved, rejected,
    or executed as it was created.
   */
  lemma {:induction false} DecisionsHaveReasons(
    detect: Detector, states: seq<State>, events: seq<Event>, n: nat, id: string) returns (j: nat)
    requires IsRun(detect, states, events) && n <= |events|
    requires id in states[n].recommendations && states[n].recommendations[id].status != Suggested
    ensures j < n && IsReason(events[j], id, states[n].recommendations[id])
  {
    var s, e := states[n - 1], events[n - 1];
    if id in s.recommendations && s.recommendations[id].status != Suggested {
      j := DecisionsHaveReasons(detect, states, events, n - 1, id);
      RowAfterStep(detect, s, e, id);
    } else {
      j := n - 1;
      StepHasReason(detect, s, e, id);
    }
  }

  // ----- Untrusted text cannot open the gate -----

  /** The interaction that explaining a reallocation stores (reallocation-rationale.service.ts). */
  function Explained(
    tenant: string, context: Json, output: string, selfReported: real, stringify: Json -> string): (i: Interaction)
    ensures !i.degraded && i.confidence.Some? && 0.0 <= i.confidence.value <= 1.0
  {
    Interaction(tenant, ReallocationRationale, context, Some(output),
                Some(Indicator(selfReported, output, context, stringify) as real / 100.0), false)
  }

  lemma {:induction false} TrustedFieldsAgree(fs: seq<Field>, gs: seq<Field>, key: string)
    requires |fs| == |gs| && !IsUntrusted(key)
    requires forall i :: 0 <= i < |fs| ==> FieldsAgree(fs[i], gs[i])
    ensures AgreeOutsideUntrusted(GetField(fs, key), GetField(gs, key))
  {
    if fs != [] {
      assert FieldsAgree(fs[0], gs[0]);
      if fs[0].key != key {
        TrustedFieldsAgree(fs[1..], gs[1..], key);
      }
    }
  }

  /**
    For the same model output, two contexts that differ only beneath `reason` or `question`
    keys get the same verdict from the automatic gate, and so the same approval flag.
   */
  lemma GateIgnoresUntrustedText(
    policies: Policies, detect: Detector, tenant: string, a: Json, b: Json,
    output: string, selfReported: real, stringify: Json -> string)
    requires AgreeOutsideUntrusted(a, b)
    ensures MayAutoExecute(policies, detect, Explained(tenant, a, output, selfReported, stringify))
            <==> MayAutoExecute(policies, detect, Explained(tenant, b, output, selfReported, stringify))
  {
    UntrustedTextIsPowerless(a, b, selfReported, output, stringify);
    if a.Obj? {
      TrustedFieldsAgree(a.fields, b.fields, "affectedEmployeeIds");
    }
    assert AffectedEmployees(a) == AffectedEmployees(b);
  }
}
