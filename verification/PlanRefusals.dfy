/** What each refusal of plan validation says: the first check that fails, in the order of
    shared/plan_validation.py:325-484. */
module PlanRefusals {
  import opened Foundations
  import opened CanonicalJson
  import opened JsonObjects
  import opened ManagedPlans
  import opened PlanValidation

  /** The plan names the policy by its hash. */
  ghost predicate NamesPolicy(w: World, plan: AnalysisPlan, policy: ExecutionPolicy) {
    w.hash.policy(policy) == Some(plan.executionPolicyHash)
  }

  ghost predicate IsPackaged(w: World, policy: ExecutionPolicy) {
    w.packagedPolicy(policy.policyId) == Some(policy)
  }

  ghost predicate AllowsProfile(plan: AnalysisPlan, policy: ExecutionPolicy) {
    exists rule :: rule in policy.components && rule.profileId == plan.step.profileId
  }

  lemma {:induction false} NoRuleIff(rules: seq<ManagedRule>, profileId: Text, component: ComponentRef)
    ensures FirstRuleOf(rules, profileId, component).Some? <==>
              exists rule :: rule in rules && rule.profileId == profileId && rule.component == component
  {
    if rules != [] {
      NoRuleIff(rules[1..], profileId, component);
      assert rules == [rules[0]] + rules[1..];
      assert rules[0] in rules;
      assert forall rule :: rule in rules <==> rule == rules[0] || rule in rules[1..];
    }
  }

  lemma {:induction false} HasProfileIff(rules: seq<ManagedRule>, profileId: Text)
    ensures HasProfile(rules, profileId) <==> exists rule :: rule in rules && rule.profileId == profileId
  {
    if rule :| rule in rules && rule.profileId == profileId {
      var i :| 0 <= i < |rules| && rules[i] == rule;
    }
  }

  /** The checks that look at the policy alone. */
  lemma {:induction false} PolicyRefusals(w: World, plan: AnalysisPlan, policy: ExecutionPolicy)
    requires w.hash.plan(plan).Some? && w.hash.policy(policy).Some?
    ensures var r, h := MatchRule(w, plan, policy), w.hash.plan(plan).value;
      && (r == Err(Blocked(h, Issue(PlanPolicyMismatch, ExecutionPolicyHashField))) <==> !NamesPolicy(w, plan, policy))
      && (r == Err(Blocked(h, Issue(ExecutionScopeDenied, ExecutionPolicyHashField))) <==>
            NamesPolicy(w, plan, policy) && !IsPackaged(w, policy))
      && (r == Err(Blocked(h, Issue(ExecutionScopeDenied, ProfileIdField))) <==>
            NamesPolicy(w, plan, policy) && IsPackaged(w, policy) && !AllowsProfile(plan, policy))
      && (r == Err(Blocked(h, Issue(PlanComponentIdentityMismatch, ComponentField))) <==>
            && NamesPolicy(w, plan, policy) && IsPackaged(w, policy) && AllowsProfile(plan, policy)
            && forall rule :: !Allows(plan, policy, rule))
      && (r.Ok? ==> NamesPolicy(w, plan, policy) && IsPackaged(w, policy) && Allows(plan, policy, r.value))
      && (r.Err? ==> r.error.Blocked? && r.error.planHash == h)
  {
    HasProfileIff(policy.components, plan.step.profileId);
    NoRuleIff(policy.components, plan.step.profileId, plan.step.component);
    FirstRuleAllows(policy.components, plan.step.profileId, plan.step.component);
    var found := FirstRuleOf(policy.components, plan.step.profileId, plan.step.component);
    if found.Some? {
      assert Allows(plan, policy, found.value);
      assert found.value in policy.components;
    }
    assert found.None? ==> forall rule :: !Allows(plan, policy, rule);
  }

  lemma {:induction false} FirstRuleAllows(rules: seq<ManagedRule>, profileId: Text, component: ComponentRef)
    ensures var r := FirstRuleOf(rules, profileId, component);
      r.Some? ==> r.value in rules && r.value.profileId == profileId && r.value.component == component
  {
    if rules != [] {
      FirstRuleAllows(rules[1..], profileId, component);
      assert rules == [rules[0]] + rules[1..];
    }
  }

  /** The installed component has the plan's version and subject hash. */
  ghost predicate IsInstalled(w: World, c: ComponentRef) {
    var found := w.component(c.id);
    found.Some? && found.value.version == c.version && found.value.subjectHash == Some(c.subjectHash)
  }

  /** The component is there and answers for itself, but it is another version or another subject. */
  ghost predicate IsAnother(w: World, c: ComponentRef) {
    var found := w.component(c.id);
    && found.Some?
    && (found.value.version != c.version
        || (found.value.subjectHash.Some? && found.value.subjectHash.value != c.subjectHash))
  }

  ghost predicate LifecycleAllowed(plan: AnalysisPlan, rule: ManagedRule, installed: Lifecycle) {
    && installed == plan.step.lifecycle && installed == rule.allowedLifecycle
    && (rule.requireExplicitOptIn ==> plan.step.explicitDraftOptIn)
  }

  /** The checks that look at the installed component. */
  lemma {:induction false} InstalledRefusals(w: World, plan: AnalysisPlan, rule: ManagedRule)
    requires w.hash.plan(plan).Some?
    ensures var r, h, c := MatchInstalled(w, plan, rule), w.hash.plan(plan).value, plan.step.component;
      && (r == Err(Blocked(h, Issue(PlanComponentIdentityMismatch, ComponentField))) <==> IsAnother(w, c))
      && (r == Err(Blocked(h, Issue(ComponentContractError, ComponentField))) <==>
            !IsAnother(w, c) && !IsInstalled(w, c))
      && (r == Err(Blocked(h, Issue(ComponentContractError, ComponentLifecycleField))) <==>
            IsInstalled(w, c) && w.component(c.id).value.lifecycle.None?)
      && (r == Err(Blocked(h, Issue(PlanComponentLifecycleDenied, ComponentLifecycleField))) <==>
            && IsInstalled(w, c) && w.component(c.id).value.lifecycle.Some?
            && !LifecycleAllowed(plan, rule, w.component(c.id).value.lifecycle.value))
      && (r == Err(Blocked(h, Issue(ComponentContractError, NoField))) <==>
            && IsInstalled(w, c) && w.component(c.id).value.lifecycle.Some?
            && LifecycleAllowed(plan, rule, w.component(c.id).value.lifecycle.value)
            && w.component(c.id).value.questions.None?)
      && (forall raw :: r == Ok(raw) <==> InstalledMatches(w, plan, rule, raw))
  {
  }

  /** Policy, rule and installed component are in order: the rule and the contract's questions. */
  ghost predicate Identified(w: World, plan: AnalysisPlan, policy: ExecutionPolicy, rule: ManagedRule,
                             raw: RawQuestions) {
    && NamesPolicy(w, plan, policy) && IsPackaged(w, policy) && Allows(plan, policy, rule)
    && InstalledMatches(w, plan, rule, raw)
  }

  /** The issue names the first requirement that the input does not meet, under its own failure code. */
  ghost predicate NamesFirstUnmet(issue: Issue, input: Object, requirements: seq<InputRequirement>) {
    exists i: nat ::
      && i < |requirements| && !RequirementMet(input, requirements[i])
      && (forall j: nat :: j < i ==> RequirementMet(input, requirements[j]))
      && issue.field == Named(requirements[i].field)
      && issue.code == if requirements[i].failureCode == ManagedTimestampRequired then TimestampRequired
                       else RequiredInputMissing
  }

  lemma {:induction false} MissingIssue(input: Object, requirements: seq<InputRequirement>)
    requires FirstMissing(input, requirements).Some?
    ensures var r := FirstMissing(input, requirements).value;
      NamesFirstUnmet(Issue(RequirementIssue(r.failureCode), Named(r.field)), input, requirements)
  {
    MissingIsFirst(input, requirements);
  }

  /** From the input on: what stands in the way of a plan whose rule and questions are in order. */
  lemma {:induction false} InputRefusals(w: World, plan: AnalysisPlan, policy: ExecutionPolicy, rule: ManagedRule,
                                         raw: RawQuestions)
    requires ProfilesDiffer(policy.components) && Identified(w, plan, policy, rule, raw)
    requires QuestionsSettled(plan, raw) && w.hash.plan(plan).Some?
    ensures var r, h := ValidatePlan(w, plan, policy), w.hash.plan(plan).value;
      var id, input := plan.step.component.id, plan.step.dataset.input;
      var met := RequirementsMet(input, rule.requirements);
      && (!met ==> r.Blocked? && r.planHash == h && NamesFirstUnmet(r.issue, input, rule.requirements))
      && (r == Blocked(h, Issue(InvalidComponentInput, InputField)) <==>
            met && w.checkInput(id, input) == SchemaMismatch)
      && (r == Blocked(h, Issue(ComponentConstraintViolation, NoField)) <==>
            met && w.checkInput(id, input) == InputAccepted && w.preflight(id, input) == Violated)
      && (r.NeedsInformation? ==>
            && met && w.checkInput(id, input) == InputAccepted && w.preflight(id, input).Ambiguous?
            && var asked := w.preflight(id, input).questions;
               asked.Entries? && AllGood(asked.items) && r.questions == Questions(asked.items) && r.questions != [])
  {
    MatchRuleIff(w, plan, policy, rule);
    SettledIff(w, plan, raw);
    NoneMissingIff(plan.step.dataset.input, rule.requirements);
    if FirstMissing(plan.step.dataset.input, rule.requirements).Some? {
      MissingIssue(plan.step.dataset.input, rule.requirements);
    }
    InputIff(w, plan);
  }

  lemma {:induction false} InputIff(w: World, plan: AnalysisPlan)
    requires w.hash.plan(plan).Some?
    ensures var r, h := CheckInput(w, plan), w.hash.plan(plan).value;
      var id, input := plan.step.component.id, plan.step.dataset.input;
      && (r == Some(Blocked(h, Issue(InvalidComponentInput, InputField))) <==>
            w.checkInput(id, input) == SchemaMismatch)
      && (r == Some(Blocked(h, Issue(ComponentConstraintViolation, NoField))) <==>
            w.checkInput(id, input) == InputAccepted && w.preflight(id, input) == Violated)
      && (r.Some? && r.value.NeedsInformation? ==>
            && w.checkInput(id, input) == InputAccepted && w.preflight(id, input).Ambiguous?
            && var asked := w.preflight(id, input).questions;
               && asked.Entries? && AllGood(asked.items) && r.value.questions == Questions(asked.items)
               && r.value.questions != [])
  {
  }

  /** A refusal of the policy, of the component or of the questions is the refusal of the plan, and each
      comes only after the ones before it have passed. */
  lemma {:induction false} FirstFailureDecides(w: World, plan: AnalysisPlan, policy: ExecutionPolicy)
    requires ProfilesDiffer(policy.components) && w.hash.plan(plan).Some? && w.hash.policy(policy).Some?
    ensures var r, matched := ValidatePlan(w, plan, policy), MatchRule(w, plan, policy);
      && (matched.Err? ==> r == matched.error)
      && (forall rule :: matched == Ok(rule) && MatchInstalled(w, plan, rule).Err? ==>
            r == MatchInstalled(w, plan, rule).error)
      && (forall rule, raw :: Identified(w, plan, policy, rule, raw) && !QuestionsSettled(plan, raw) ==>
            Some(r) == CheckQuestions(w, plan, raw))
  {
    forall rule, raw | Identified(w, plan, policy, rule, raw) && !QuestionsSettled(plan, raw)
      ensures Some(ValidatePlan(w, plan, policy)) == CheckQuestions(w, plan, raw)
    {
      MatchRuleIff(w, plan, policy, rule);
      SettledIff(w, plan, raw);
    }
  }
}
