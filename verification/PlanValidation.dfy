/** Plan validation and the authorization chain (shared/plan_validation.py). */
module PlanValidation {
  import opened Foundations
  import Utf8
  import opened CanonicalJson
  import opened CanonicalHash
  import opened JsonObjects
  import opened ManagedPlans

  // ----- outcomes -----

  datatype IssueCode =
    | ExecutionScopeDenied
    | PlanPolicyMismatch
    | PlanComponentIdentityMismatch
    | PlanComponentLifecycleDenied
    | PlanRequiredQuestionUnresolved
    | PlanResolvedQuestionMismatch
    | RequiredInputMissing
    | TimestampRequired
    | InvalidComponentInput
    | ComponentConstraintViolation
    | ComponentContractError

  datatype IssueField =
    | NoField
    | ExecutionPolicyHashField
    | ProfileIdField
    | ComponentField
    | ComponentLifecycleField
    | InputField
    | Named(field: Text)

  datatype Issue = Issue(code: IssueCode, field: IssueField)

  datatype Question = Question(id: Text, targetField: Text, prompt: Text, materiality: Text)

  /** `Raises` is an exception that leaves the function. */
  datatype Outcome =
    | Validated(receipt: ValidationReceipt)
    | Blocked(planHash: Text, issue: Issue)
    | NeedsInformation(planHash: Text, issues: seq<Issue>, questions: seq<Question>)
    | Raises

  // ----- the installed world -----

  datatype RawQuestion = NotAnObject | BadQuestion | GoodQuestion(question: Question)

  /** A list from contract metadata, or something that is not a list. */
  datatype RawQuestions = NotAList | Entries(items: seq<RawQuestion>)

  /** `subjectHash` is None where hashing the installed subject raises; `lifecycle` and `questions`
      are None where the contract's field has the wrong type. */
  datatype InstalledComponent = InstalledComponent(version: Text, subjectHash: Option<Text>,
                                                   lifecycle: Option<Lifecycle>,
                                                   questions: Option<RawQuestions>)

  datatype InputCheck = InputAccepted | SchemaMismatch | ModelUnavailable

  datatype Preflight = Passed | Ambiguous(questions: RawQuestions) | Unevaluable | Violated | Unavailable

  /** The canonical hashes of the records, behind names of their own. */
  datatype Hashes = Hashes(
    plan: AnalysisPlan -> Option<Text>, dataset: DatasetBinding -> Option<Text>,
    policy: ExecutionPolicy -> Option<Text>, receipt: ValidationReceipt -> Option<Text>,
    approval: ApprovalRecord -> Option<Text>)

  function HashesOf(sha256: Bytes -> Text): Hashes {
    Hashes((p: AnalysisPlan) => PlanHash(sha256, p), (d: DatasetBinding) => DatasetHash(sha256, d),
           (p: ExecutionPolicy) => PolicyHash(sha256, p), (r: ValidationReceipt) => ReceiptHash(sha256, r),
           (a: ApprovalRecord) => ApprovalHash(sha256, a))
  }

  /** The hashes, packaged policies, installed contracts, and their input models and constraints. */
  datatype World = World(
    hash: Hashes,
    packagedPolicy: Text -> Option<ExecutionPolicy>,
    component: Text -> Option<InstalledComponent>,
    checkInput: (Text, Object) -> InputCheck,
    preflight: (Text, Object) -> Preflight)

  function Block(w: World, plan: AnalysisPlan, code: IssueCode, field: IssueField): Outcome {
    match w.hash.plan(plan)
    case None => Raises
    case Some(h) => Blocked(h, Issue(code, field))
  }

  // ----- required questions -----

  predicate SameCanonical(a: Json, b: Json) {
    CanonicalJsonBytes(a) == CanonicalJsonBytes(b)
  }

  /** The resolution of a question, by id and target. */
  function ResolutionOf(resolved: seq<ResolvedQuestion>, q: Question): Option<ResolvedQuestion> {
    if resolved == [] then None
    else
      var last := resolved[|resolved| - 1];
      if last.questionId == q.id && last.targetField == q.targetField then Some(last)
      else ResolutionOf(resolved[..|resolved| - 1], q)
  }

  predicate IsConfirmed(plan: AnalysisPlan, q: Question) {
    var r := ResolutionOf(plan.resolvedQuestions, q); r.Some? && r.value.callerConfirmed
  }

  /** The bound input holds the confirmed answer under the question's target. */
  predicate AnswerIsBound(plan: AnalysisPlan, q: Question)
    requires IsConfirmed(plan, q)
  {
    var bound := Lookup(plan.step.dataset.input.members, q.targetField);
    bound.Some? && SameCanonical(bound.value, ResolutionOf(plan.resolvedQuestions, q).value.answer)
  }

  predicate IsMisbound(plan: AnalysisPlan, q: Question) {
    IsConfirmed(plan, q) && !AnswerIsBound(plan, q)
  }

  function FirstWhere(p: Question -> bool, questions: seq<Question>): Option<Question> {
    if questions == [] then None
    else if p(questions[0]) then Some(questions[0])
    else FirstWhere(p, questions[1..])
  }

  function AllWhere(p: Question -> bool, questions: seq<Question>): seq<Question> {
    if questions == [] then [] else (if p(questions[0]) then [questions[0]] else []) + AllWhere(p, questions[1..])
  }

  function Misbound(plan: AnalysisPlan): Question -> bool {
    (q: Question) => IsMisbound(plan, q)
  }

  function Waiting(plan: AnalysisPlan): Question -> bool {
    (q: Question) => !IsConfirmed(plan, q)
  }

  function FirstMisbound(plan: AnalysisPlan, questions: seq<Question>): Option<Question> {
    FirstWhere(Misbound(plan), questions)
  }

  /** The questions still waiting for the caller, in contract order. */
  function Unconfirmed(plan: AnalysisPlan, questions: seq<Question>): seq<Question> {
    AllWhere(Waiting(plan), questions)
  }

  function UnresolvedIssues(questions: seq<Question>): seq<Issue> {
    if questions == [] then []
    else [Issue(PlanRequiredQuestionUnresolved, Named(questions[0].targetField))] + UnresolvedIssues(questions[1..])
  }

  predicate QuestionsDiffer(questions: seq<Question>) {
    forall i, j :: 0 <= i < j < |questions| ==>
      questions[i].id != questions[j].id && questions[i].targetField != questions[j].targetField
  }

  /** `ValidationFailure` with questions, whose own validator refuses repeated ones. */
  function Ask(w: World, plan: AnalysisPlan, questions: seq<Question>): Outcome {
    match w.hash.plan(plan)
    case None => Raises
    case Some(h) =>
      if QuestionsDiffer(questions) then NeedsInformation(h, UnresolvedIssues(questions), questions) else Raises
  }

  function Questions(items: seq<RawQuestion>): (questions: seq<Question>)
    requires forall i :: 0 <= i < |items| ==> items[i].GoodQuestion?
    ensures |questions| == |items|
  {
    seq(|items|, i requires 0 <= i < |items| => items[i].question)
  }

  predicate AllGood(items: seq<RawQuestion>) {
    forall i :: 0 <= i < |items| ==> items[i].GoodQuestion?
  }

  predicate IsDeclared(r: ResolvedQuestion, questions: seq<Question>) {
    exists i :: 0 <= i < |questions| && questions[i].id == r.questionId && questions[i].targetField == r.targetField
  }

  predicate OnlyDeclared(plan: AnalysisPlan, questions: seq<Question>) {
    forall i :: 0 <= i < |plan.resolvedQuestions| ==> IsDeclared(plan.resolvedQuestions[i], questions)
  }

  /** `_validate_required_questions`: None when nothing stands in the way. */
  function CheckQuestions(w: World, plan: AnalysisPlan, raw: RawQuestions): Option<Outcome> {
    if raw.NotAList? || !AllGood(raw.items) then Some(Block(w, plan, ComponentContractError, NoField))
    else
      var questions := Questions(raw.items);
      if !OnlyDeclared(plan, questions) then Some(Block(w, plan, PlanResolvedQuestionMismatch, NoField))
      else
        match FirstMisbound(plan, questions)
        case Some(q) => Some(Block(w, plan, PlanResolvedQuestionMismatch, Named(q.targetField)))
        case None =>
          var missing := Unconfirmed(plan, questions);
          if missing == [] then None else Some(Ask(w, plan, missing))
  }

  /** One pass over the required questions: stop at the first misbound answer, collect the rest. */
  method CheckAnswers(questions: seq<Question>, waiting: Question -> bool, misbound: Question -> bool)
      returns (stop: Option<Question>, missing: seq<Question>)
    requires forall q :: misbound(q) ==> !waiting(q)
    ensures stop == FirstWhere(misbound, questions)
    ensures stop.None? ==> missing == AllWhere(waiting, questions)
  {
    missing := [];
    ghost var first, all := FirstWhere(misbound, questions), AllWhere(waiting, questions);
    for i := 0 to |questions|
      invariant first == FirstWhere(misbound, questions[i..])
      invariant all == missing + AllWhere(waiting, questions[i..])
    {
      assert questions[i..][1..] == questions[i + 1..];
      if waiting(questions[i]) {
        missing := missing + [questions[i]];
      } else if misbound(questions[i]) {
        return Some(questions[i]), missing;
      }
    }
    stop := None;
  }

  method ValidateRequiredQuestions(w: World, plan: AnalysisPlan, raw: RawQuestions) returns (r: Option<Outcome>)
    ensures r == CheckQuestions(w, plan, raw)
  {
    if raw.NotAList? || !AllGood(raw.items) {
      return Some(Block(w, plan, ComponentContractError, NoField));
    }
    var questions := Questions(raw.items);
    if !OnlyDeclared(plan, questions) {
      return Some(Block(w, plan, PlanResolvedQuestionMismatch, NoField));
    }
    var misbound, missing := CheckAnswers(questions, Waiting(plan), Misbound(plan));
    if misbound.Some? {
      return Some(Block(w, plan, PlanResolvedQuestionMismatch, Named(misbound.value.targetField)));
    }
    r := if missing == [] then None else Some(Ask(w, plan, missing));
  }

  // ----- what the question check decides -----

  /** Of the resolutions with the question's id and target the one at place k is the last. */
  ghost predicate LastResolution(resolved: seq<ResolvedQuestion>, q: Question, k: nat) {
    && k < |resolved| && resolved[k].questionId == q.id && resolved[k].targetField == q.targetField
    && forall l: nat :: k < l < |resolved| ==>
         resolved[l].questionId != q.id || resolved[l].targetField != q.targetField
  }

  /** The caller has confirmed an answer to the question. */
  ghost predicate Confirmed(plan: AnalysisPlan, q: Question, answer: Json) {
    exists k: nat :: LastResolution(plan.resolvedQuestions, q, k)
                     && plan.resolvedQuestions[k].callerConfirmed && plan.resolvedQuestions[k].answer == answer
  }

  /** The input holds a value under the question's target that is the answer, as a canonical value. */
  ghost predicate Bound(plan: AnalysisPlan, q: Question, answer: Json) {
    exists value :: (q.targetField, value) in plan.step.dataset.input.members
                    && CanonicalJsonBytes(value) == CanonicalJsonBytes(answer)
  }

  ghost predicate Open(plan: AnalysisPlan, q: Question) {
    forall answer :: !Confirmed(plan, q, answer)
  }

  ghost predicate Contradicted(plan: AnalysisPlan, q: Question) {
    exists answer :: Confirmed(plan, q, answer) && !Bound(plan, q, answer)
  }

  ghost predicate Settled(plan: AnalysisPlan, q: Question) {
    exists answer :: Confirmed(plan, q, answer) && Bound(plan, q, answer)
  }

  lemma {:induction false} ResolutionIsLast(resolved: seq<ResolvedQuestion>, q: Question)
    ensures forall k: nat :: LastResolution(resolved, q, k) ==> ResolutionOf(resolved, q) == Some(resolved[k])
    ensures ResolutionOf(resolved, q).Some? ==> exists k: nat :: LastResolution(resolved, q, k)
  {
    if resolved != [] {
      var n := |resolved| - 1;
      var last := resolved[n];
      if last.questionId == q.id && last.targetField == q.targetField {
        assert LastResolution(resolved, q, n);
      } else {
        ResolutionIsLast(resolved[..n], q);
        forall k: nat ensures LastResolution(resolved, q, k) <==> LastResolution(resolved[..n], q, k) {
          if LastResolution(resolved[..n], q, k) {
            forall l: nat | k < l < |resolved|
              ensures resolved[l].questionId != q.id || resolved[l].targetField != q.targetField
            {
              assert l < n ==> resolved[..n][l] == resolved[l];
            }
          }
        }
      }
    }
  }

  lemma {:induction false} LookupIff(members: seq<(Text, Json)>, key: Text, value: Json)
    requires DistinctKeys(members)
    ensures Lookup(members, key) == Some(value) <==> (key, value) in members
  {
    if members != [] {
      LookupIff(members[1..], key, value);
      assert members == [members[0]] + members[1..];
      forall i | 0 <= i < |members[1..]| ensures members[1..][i].0 != members[0].0 {
        assert members[1..][i] == members[i + 1];
      }
    }
  }

  lemma {:induction false} AnswerIff(plan: AnalysisPlan, q: Question, answer: Json)
    ensures Confirmed(plan, q, answer) <==>
              IsConfirmed(plan, q) && ResolutionOf(plan.resolvedQuestions, q).value.answer == answer
    ensures IsConfirmed(plan, q) && ResolutionOf(plan.resolvedQuestions, q).value.answer == answer ==>
              (Bound(plan, q, answer) <==> AnswerIsBound(plan, q))
  {
    ResolutionIsLast(plan.resolvedQuestions, q);
    var members := plan.step.dataset.input.members;
    assert WellFormed(plan.step.dataset.input);
    forall value ensures Lookup(members, q.targetField) == Some(value) <==> (q.targetField, value) in members {
      LookupIff(members, q.targetField, value);
    }
    if Lookup(members, q.targetField).Some? {
      assert (q.targetField, Lookup(members, q.targetField).value) in members;
    }
  }

  /** Every question is open, settled, or contradicted by the input, and the check's tests say which. */
  lemma {:induction false} QuestionStates(plan: AnalysisPlan, q: Question)
    ensures Open(plan, q) <==> !IsConfirmed(plan, q)
    ensures Settled(plan, q) <==> IsConfirmed(plan, q) && AnswerIsBound(plan, q)
    ensures Contradicted(plan, q) <==> IsMisbound(plan, q)
  {
    forall answer
      ensures Confirmed(plan, q, answer) <==>
                IsConfirmed(plan, q) && ResolutionOf(plan.resolvedQuestions, q).value.answer == answer
      ensures IsConfirmed(plan, q) && ResolutionOf(plan.resolvedQuestions, q).value.answer == answer ==>
                (Bound(plan, q, answer) <==> AnswerIsBound(plan, q))
    {
      AnswerIff(plan, q, answer);
    }
    if IsConfirmed(plan, q) {
      assert Confirmed(plan, q, ResolutionOf(plan.resolvedQuestions, q).value.answer);
    }
  }

  /** What passing the question check means: every required question is answered by the caller, and
      the answers are the ones bound in the input. */
  lemma {:induction false} PassedQuestionsAreBound(w: World, plan: AnalysisPlan, items: seq<RawQuestion>)
    ensures CheckQuestions(w, plan, Entries(items)).None? <==>
              && AllGood(items)
              && OnlyDeclared(plan, Questions(items))
              && forall i :: 0 <= i < |items| ==> Settled(plan, Questions(items)[i])
  {
    if AllGood(items) {
      AllBoundIff(plan, Questions(items));
    }
  }

  lemma {:induction false} AllBoundIff(plan: AnalysisPlan, questions: seq<Question>)
    ensures FirstMisbound(plan, questions).None? && Unconfirmed(plan, questions) == [] <==>
            forall i :: 0 <= i < |questions| ==> Settled(plan, questions[i])
  {
    NoneWhereIff(Misbound(plan), questions);
    NoneWhereIff(Waiting(plan), questions);
    forall q: Question ensures !Misbound(plan)(q) && !Waiting(plan)(q) <==> Settled(plan, q) {
      QuestionStates(plan, q);
    }
  }

  /** `chosen` holds the questions that stand at the places `at` of `all`, in their order. */
  ghost predicate StandAt(all: seq<Question>, chosen: seq<Question>, at: seq<nat>) {
    && |at| == |chosen|
    && (forall k :: 0 <= k < |at| ==> at[k] < |all| && chosen[k] == all[at[k]])
    && (forall k, l :: 0 <= k < l < |at| ==> at[k] < at[l])
  }

  lemma {:induction false} Shift(at: seq<nat>) returns (shifted: seq<nat>)
    ensures |shifted| == |at| && forall k :: 0 <= k < |at| ==> shifted[k] == at[k] + 1
    ensures forall i: nat :: i in shifted <==> i > 0 && i - 1 in at
  {
    shifted := seq(|at|, k requires 0 <= k < |at| => at[k] + 1);
    forall i: nat | i > 0 && i - 1 in at ensures i in shifted {
      var k :| 0 <= k < |at| && at[k] == i - 1;
      assert shifted[k] == i;
    }
  }

  lemma {:induction false} StandAfterFirst(all: seq<Question>, chosen: seq<Question>, at: seq<nat>,
                                           shifted: seq<nat>)
    requires all != [] && StandAt(all[1..], chosen, at)
    requires |shifted| == |at| && forall k :: 0 <= k < |at| ==> shifted[k] == at[k] + 1
    ensures StandAt(all, chosen, shifted) && StandAt(all, [all[0]] + chosen, [0] + shifted)
  {
  }

  lemma {:induction false} AllWhereSelects(p: Question -> bool, questions: seq<Question>) returns (at: seq<nat>)
    ensures StandAt(questions, AllWhere(p, questions), at)
    ensures forall i: nat :: i < |questions| ==> (i in at <==> p(questions[i]))
  {
    if questions == [] {
      at := [];
    } else {
      var rest := AllWhereSelects(p, questions[1..]);
      var shifted := Shift(rest);
      StandAfterFirst(questions, AllWhere(p, questions[1..]), rest, shifted);
      at := if p(questions[0]) then [0] + shifted else shifted;
      forall i: nat | i < |questions| ensures i in at <==> p(questions[i]) {
        assert i > 0 ==> questions[1..][i - 1] == questions[i];
      }
    }
  }

  lemma {:induction false} FirstWhereIsFirst(p: Question -> bool, questions: seq<Question>)
    requires FirstWhere(p, questions).Some?
    ensures exists i: nat :: i < |questions| && FirstWhere(p, questions) == Some(questions[i]) && p(questions[i])
                             && forall j: nat :: j < i ==> !p(questions[j])
  {
    if p(questions[0]) {
      assert FirstWhere(p, questions) == Some(questions[0]);
    } else {
      FirstWhereIsFirst(p, questions[1..]);
      var i: nat :| i < |questions[1..]| && FirstWhere(p, questions[1..]) == Some(questions[1..][i])
                    && p(questions[1..][i]) && forall j: nat :: j < i ==> !p(questions[1..][j]);
      assert questions[1..][i] == questions[i + 1];
      forall j: nat | j < i + 1 ensures !p(questions[j]) {
        assert j > 0 ==> questions[1..][j - 1] == questions[j];
      }
    }
  }

  lemma {:induction false} IssuesAre(questions: seq<Question>)
    ensures |UnresolvedIssues(questions)| == |questions|
    ensures forall k :: 0 <= k < |questions| ==>
              UnresolvedIssues(questions)[k] == Issue(PlanRequiredQuestionUnresolved, Named(questions[k].targetField))
  {
    if questions != [] {
      IssuesAre(questions[1..]);
    }
  }

  lemma {:induction false} TestsSayState(plan: AnalysisPlan)
    ensures forall q :: Waiting(plan)(q) <==> Open(plan, q)
    ensures forall q :: Misbound(plan)(q) <==> Contradicted(plan, q)
  {
    forall q: Question
      ensures Waiting(plan)(q) <==> Open(plan, q)
      ensures Misbound(plan)(q) <==> Contradicted(plan, q)
    {
      QuestionStates(plan, q);
    }
  }

  lemma {:induction false} MisboundBlocks(w: World, plan: AnalysisPlan, items: seq<RawQuestion>)
    requires AllGood(items) && OnlyDeclared(plan, Questions(items)) && w.hash.plan(plan).Some?
    ensures var r, first := CheckQuestions(w, plan, Entries(items)), FirstMisbound(plan, Questions(items));
      && (r.Some? && r.value.Blocked? <==> first.Some?)
      && (first.Some? ==> r == Some(Blocked(w.hash.plan(plan).value,
                                            Issue(PlanResolvedQuestionMismatch, Named(first.value.targetField)))))
  {
  }

  ghost predicate FirstContradicted(plan: AnalysisPlan, questions: seq<Question>, i: nat) {
    && i < |questions| && Contradicted(plan, questions[i])
    && forall j: nat :: j < i ==> !Contradicted(plan, questions[j])
  }

  lemma {:induction false} MisboundIsContradicted(plan: AnalysisPlan, questions: seq<Question>)
    ensures var first := FirstMisbound(plan, questions);
      && (first.None? <==> forall i: nat :: i < |questions| ==> !Contradicted(plan, questions[i]))
      && (first.Some? ==> exists i: nat :: FirstContradicted(plan, questions, i) && first.value == questions[i])
  {
    NoneWhereIff(Misbound(plan), questions);
    TestsSayState(plan);
    if FirstMisbound(plan, questions).Some? {
      FirstWhereIsFirst(Misbound(plan), questions);
      var i: nat :| i < |questions| && FirstMisbound(plan, questions) == Some(questions[i])
                    && Misbound(plan)(questions[i]) && forall j: nat :: j < i ==> !Misbound(plan)(questions[j]);
      assert FirstContradicted(plan, questions, i);
    }
  }

  /** The first question whose confirmed answer is not the one in the input blocks the plan. */
  lemma {:induction false} ContradictionBlocks(w: World, plan: AnalysisPlan, items: seq<RawQuestion>)
    requires AllGood(items) && OnlyDeclared(plan, Questions(items)) && w.hash.plan(plan).Some?
    ensures var questions, r, h := Questions(items), CheckQuestions(w, plan, Entries(items)), w.hash.plan(plan).value;
      && (r.Some? && r.value.Blocked? <==> exists i: nat :: i < |questions| && Contradicted(plan, questions[i]))
      && (r.Some? && r.value.Blocked? ==>
            exists i: nat :: FirstContradicted(plan, questions, i)
              && r == Some(Blocked(h, Issue(PlanResolvedQuestionMismatch, Named(questions[i].targetField)))))
  {
    MisboundBlocks(w, plan, items);
    MisboundIsContradicted(plan, Questions(items));
  }

  /** The caller is asked exactly the open questions, in contract order, each with its issue. */
  lemma {:induction false} OpenQuestionsAreAsked(w: World, plan: AnalysisPlan, items: seq<RawQuestion>)
    returns (at: seq<nat>)
    requires AllGood(items)
    requires var r := CheckQuestions(w, plan, Entries(items)); r.Some? && r.value.NeedsInformation?
    ensures var questions, asked := Questions(items), CheckQuestions(w, plan, Entries(items)).value;
      && Some(asked.planHash) == w.hash.plan(plan)
      && StandAt(questions, asked.questions, at)
      && (forall i: nat :: i < |items| ==> (i in at <==> Open(plan, questions[i])))
      && |asked.issues| == |asked.questions|
      && forall k :: 0 <= k < |asked.issues| ==>
           asked.issues[k] == Issue(PlanRequiredQuestionUnresolved, Named(asked.questions[k].targetField))
  {
    var questions := Questions(items);
    at := AllWhereSelects(Waiting(plan), questions);
    IssuesAre(Unconfirmed(plan, questions));
    TestsSayState(plan);
  }

  lemma {:induction false} NoneWhereIff(p: Question -> bool, questions: seq<Question>)
    ensures FirstWhere(p, questions).None? <==> forall i :: 0 <= i < |questions| ==> !p(questions[i])
    ensures AllWhere(p, questions) == [] <==> forall i :: 0 <= i < |questions| ==> !p(questions[i])
  {
    if questions != [] {
      NoneWhereIff(p, questions[1..]);
      assert questions == [questions[0]] + questions[1..];
    }
  }

  // ----- managed requirements -----

  predicate IsEmptyValue(v: Json) {
    match v
    case Str(s) => s == []
    case Arr(items) => items == []
    case Obj(members) => members == []
    case _ => false
  }

  predicate IsMissing(input: Object, r: InputRequirement) {
    match Lookup(input.members, r.field)
    case None => true
    case Some(v) => v.Null? || (r.requireNonEmpty && IsEmptyValue(v))
  }

  function FirstMissing(input: Object, requirements: seq<InputRequirement>): Option<InputRequirement> {
    if requirements == [] then None
    else if IsMissing(input, requirements[0]) then Some(requirements[0])
    else FirstMissing(input, requirements[1..])
  }

  function RequirementIssue(f: RequirementFailure): IssueCode {
    match f case ManagedRequiredInputMissing => RequiredInputMissing case ManagedTimestampRequired => TimestampRequired
  }

  // ----- validate_plan -----

  function FirstRuleOf(rules: seq<ManagedRule>, profileId: Text, component: ComponentRef): Option<ManagedRule> {
    if rules == [] then None
    else if rules[0].profileId == profileId && rules[0].component == component then Some(rules[0])
    else FirstRuleOf(rules[1..], profileId, component)
  }

  predicate HasProfile(rules: seq<ManagedRule>, profileId: Text) {
    exists i :: 0 <= i < |rules| && rules[i].profileId == profileId
  }

  function VALIDATOR(): Validator {
    Validator(Lit("managed_plan_validator"), Lit("0.1.0"))
  }

  function PASSED_CHECKS(): seq<Text> {
    [Lit("policy_binding"), Lit("component_identity"), Lit("lifecycle_opt_in"), Lit("required_questions"),
     Lit("managed_input_requirements"), Lit("component_input_schema"), Lit("component_constraints")]
  }

  /** The checks before the plan meets the installed component: the rule, or the outcome. */
  function MatchRule(w: World, plan: AnalysisPlan, policy: ExecutionPolicy): Result<ManagedRule, Outcome> {
    match w.hash.policy(policy)
    case None => Err(Raises)
    case Some(policyHash) =>
      if plan.executionPolicyHash != policyHash
      then Err(Block(w, plan, PlanPolicyMismatch, ExecutionPolicyHashField))
      else if w.packagedPolicy(policy.policyId) != Some(policy)
      then Err(Block(w, plan, ExecutionScopeDenied, ExecutionPolicyHashField))
      else if !HasProfile(policy.components, plan.step.profileId)
      then Err(Block(w, plan, ExecutionScopeDenied, ProfileIdField))
      else
        match FirstRuleOf(policy.components, plan.step.profileId, plan.step.component)
        case None => Err(Block(w, plan, PlanComponentIdentityMismatch, ComponentField))
        case Some(rule) => Ok(rule)
  }

  /** The checks of the installed component's identity and lifecycle. */
  function MatchInstalled(w: World, plan: AnalysisPlan, rule: ManagedRule): Result<RawQuestions, Outcome> {
    var component := plan.step.component;
    match w.component(component.id)
    case None => Err(Block(w, plan, ComponentContractError, ComponentField))
    case Some(installed) =>
      if installed.version == component.version && installed.subjectHash.None?
      then Err(Block(w, plan, ComponentContractError, ComponentField))
      else if installed.version != component.version || installed.subjectHash != Some(component.subjectHash)
      then Err(Block(w, plan, PlanComponentIdentityMismatch, ComponentField))
      else if installed.lifecycle.None?
      then Err(Block(w, plan, ComponentContractError, ComponentLifecycleField))
      else if plan.step.lifecycle != installed.lifecycle.value || installed.lifecycle.value != rule.allowedLifecycle
              || (rule.requireExplicitOptIn && !plan.step.explicitDraftOptIn)
      then Err(Block(w, plan, PlanComponentLifecycleDenied, ComponentLifecycleField))
      else if installed.questions.None? then Err(Block(w, plan, ComponentContractError, NoField))
      else Ok(installed.questions.value)
  }

  function CheckInput(w: World, plan: AnalysisPlan): Option<Outcome> {
    match w.checkInput(plan.step.component.id, plan.step.dataset.input)
    case SchemaMismatch => Some(Block(w, plan, InvalidComponentInput, InputField))
    case ModelUnavailable => Some(Block(w, plan, ComponentContractError, ComponentField))
    case InputAccepted =>
      match w.preflight(plan.step.component.id, plan.step.dataset.input)
      case Passed => None
      case Ambiguous(raw) =>
        if raw.NotAList? || raw.items == [] || !AllGood(raw.items)
        then Some(Block(w, plan, ComponentContractError, NoField))
        else Some(Ask(w, plan, Questions(raw.items)))
      case Violated => Some(Block(w, plan, ComponentConstraintViolation, NoField))
      case _ => Some(Block(w, plan, ComponentContractError, NoField))
  }

  function IssueReceipt(w: World, plan: AnalysisPlan, policy: ExecutionPolicy): Outcome {
    var planHash, policyHash := w.hash.plan(plan), w.hash.policy(policy);
    var datasetHash := w.hash.dataset(plan.step.dataset);
    if planHash.None? || policyHash.None? || datasetHash.None? then Raises
    else
      Validated(ValidationReceipt(planHash.value, policyHash.value, plan.step.component, datasetHash.value,
                                  VALIDATOR(), PASSED_CHECKS()))
  }

  /** `validate_plan`. */
  function ValidatePlan(w: World, plan: AnalysisPlan, policy: ExecutionPolicy): Outcome {
    match MatchRule(w, plan, policy)
    case Err(outcome) => outcome
    case Ok(rule) =>
      match MatchInstalled(w, plan, rule)
      case Err(outcome) => outcome
      case Ok(raw) =>
        match CheckQuestions(w, plan, raw)
        case Some(outcome) => outcome
        case None =>
          match FirstMissing(plan.step.dataset.input, rule.requirements)
          case Some(r) => Block(w, plan, RequirementIssue(r.failureCode), Named(r.field))
          case None =>
            match CheckInput(w, plan)
            case Some(outcome) => outcome
            case None => IssueReceipt(w, plan, policy)
  }

  // ----- the chain -----

  const MAX_APPROVER: nat := 160
  const MAX_NOTE: nat := 500

  /** A length-constrained string field: the record's validator refuses lone surrogates as well. */
  predicate FieldText(t: Text, maximum: nat) {
    1 <= |t| <= maximum && Utf8.Encodable(t)
  }

  predicate ApprovalFields(approvedBy: Text, note: Option<Text>) {
    FieldText(approvedBy, MAX_APPROVER) && (note.Some? ==> FieldText(note.value, MAX_NOTE))
  }

  /** `create_manual_approval`: None where hashing the receipt or building the record raises. */
  function CreateManualApproval(w: World, receipt: ValidationReceipt, approvedBy: Text, approvedAt: TimeText,
                                note: Option<Text>): Option<ApprovalRecord>
  {
    match w.hash.receipt(receipt)
    case None => None
    case Some(h) =>
      if ApprovalFields(approvedBy, note) then Some(ApprovalRecord(receipt.planHash, h, approvedBy, approvedAt, note))
      else None
  }

  /** `create_authorization_binding`: None where the source raises ValueError. */
  function CreateBinding(w: World, plan: AnalysisPlan, receipt: ValidationReceipt, approval: ApprovalRecord)
      : Option<AuthorizationBinding>
  {
    var planHash, receiptHash := w.hash.plan(plan), w.hash.receipt(receipt);
    var approvalHash, datasetHash := w.hash.approval(approval), w.hash.dataset(plan.step.dataset);
    if planHash.None? || receipt.planHash != planHash.value || approval.planHash != planHash.value then None
    else if receiptHash.None? || approval.validationReceiptHash != receiptHash.value then None
    else if approvalHash.None? || datasetHash.None? then None
    else
      Some(AuthorizationBinding(planHash.value, receiptHash.value, approvalHash.value, plan.step.component,
                                datasetHash.value))
  }

  datatype AuthorizationError =
    | PlanRevisionStale
    | ValidationReceiptMismatch
    | ApprovalBindingMismatch
    | ComponentBindingMismatch
    | DatasetBindingMismatch
    | PolicyBindingMismatch
    | AuthorizationBindingMismatch

  datatype Authorization =
    | Authorized(binding: AuthorizationBinding)
    | Refused(code: AuthorizationError)
    | RaisesException

  /** The chain a caller presents. */
  datatype Chain = Chain(plan: AnalysisPlan, receipt: ValidationReceipt, approval: ApprovalRecord,
                         binding: AuthorizationBinding, policy: ExecutionPolicy)

  /** Component, dataset, policy and plan: the first root that changed. */
  function CheckRoots(w: World, c: Chain): Option<AuthorizationError> {
    var datasetHash := w.hash.dataset(c.plan.step.dataset);
    var policyHash, planHash := w.hash.policy(c.policy), w.hash.plan(c.plan);
    if c.binding.component != c.plan.step.component || c.receipt.component != c.plan.step.component
    then Some(ComponentBindingMismatch)
    else if Some(c.binding.datasetHash) != datasetHash || Some(c.receipt.datasetHash) != datasetHash
    then Some(DatasetBindingMismatch)
    else if Some(c.plan.executionPolicyHash) != policyHash || Some(c.receipt.policyHash) != policyHash
    then Some(PolicyBindingMismatch)
    else if Some(c.binding.planHash) != planHash || Some(c.receipt.planHash) != planHash
    then Some(PlanRevisionStale)
    else None
  }

  function CheckApproval(w: World, c: Chain): Option<AuthorizationError> {
    if Some(c.approval.planHash) != w.hash.plan(c.plan)
       || Some(c.approval.validationReceiptHash) != w.hash.receipt(c.receipt)
    then Some(ApprovalBindingMismatch)
    else if Some(c.binding.approvalHash) != w.hash.approval(c.approval) then Some(ApprovalBindingMismatch)
    else None
  }

  /** `verify_authorization`. */
  function VerifyAuthorization(w: World, c: Chain): Authorization {
    match CheckRoots(w, c)
    case Some(code) => Refused(code)
    case None =>
      if Some(c.binding.validationReceiptHash) != w.hash.receipt(c.receipt) then Refused(ValidationReceiptMismatch)
      else
        var current := ValidatePlan(w, c.plan, c.policy);
        if current.Raises? then RaisesException
        else if current != Validated(c.receipt) then Refused(ValidationReceiptMismatch)
        else
          match CheckApproval(w, c)
          case Some(code) => Refused(code)
          case None =>
            match CreateBinding(w, c.plan, c.receipt, c.approval)
            case None => RaisesException
            case Some(expected) =>
              if c.binding != expected then Refused(AuthorizationBindingMismatch) else Authorized(c.binding)
  }

  // ----- main results -----

  lemma {:induction false} ChecksDoNotValidate(w: World, plan: AnalysisPlan)
    ensures forall raw :: CheckQuestions(w, plan, raw).Some? ==> !CheckQuestions(w, plan, raw).value.Validated?
    ensures CheckInput(w, plan).Some? ==> !CheckInput(w, plan).value.Validated?
    ensures forall rule :: MatchInstalled(w, plan, rule).Err? ==> !MatchInstalled(w, plan, rule).error.Validated?
    ensures forall policy :: MatchRule(w, plan, policy).Err? ==> !MatchRule(w, plan, policy).error.Validated?
  {
  }

  lemma {:induction false} ValidatedIsIssued(w: World, plan: AnalysisPlan, policy: ExecutionPolicy)
    requires ValidatePlan(w, plan, policy).Validated?
    ensures MatchRule(w, plan, policy).Ok? && ValidatePlan(w, plan, policy) == IssueReceipt(w, plan, policy)
  {
    ChecksDoNotValidate(w, plan);
  }

  /** A receipt says what was validated: the plan, the policy, the component and the input. */
  lemma {:induction false} ReceiptBindsPlan(w: World, plan: AnalysisPlan, policy: ExecutionPolicy)
    requires ValidatePlan(w, plan, policy).Validated?
    ensures var r := ValidatePlan(w, plan, policy).receipt;
      && w.hash.plan(plan) == Some(r.planHash)
      && w.hash.policy(policy) == Some(r.policyHash) && plan.executionPolicyHash == r.policyHash
      && r.component == plan.step.component
      && w.hash.dataset(plan.step.dataset) == Some(r.datasetHash)
  {
    ValidatedIsIssued(w, plan, policy);
  }

  /** The binding names the plan, the receipt, the approval and the dataset by their hashes, and the
      component outright; the approval names the plan and the receipt by the same hashes. */
  ghost predicate Linked(w: World, c: Chain) {
    && w.hash.plan(c.plan) == Some(c.binding.planHash)
    && w.hash.receipt(c.receipt) == Some(c.binding.validationReceiptHash)
    && w.hash.approval(c.approval) == Some(c.binding.approvalHash)
    && w.hash.dataset(c.plan.step.dataset) == Some(c.binding.datasetHash)
    && c.binding.component == c.plan.step.component
    && c.approval.planHash == c.binding.planHash && c.receipt.planHash == c.binding.planHash
    && c.approval.validationReceiptHash == c.binding.validationReceiptHash
  }

  /** Verification accepts exactly the chains that the constructors make: the receipt is what
      validating the plan now gives, and the binding is what binding the three records gives, which is
      the one record that links the others. */
  lemma {:induction false} AuthorizedIff(w: World, c: Chain)
    ensures VerifyAuthorization(w, c) == Authorized(c.binding) <==>
              && ValidatePlan(w, c.plan, c.policy) == Validated(c.receipt)
              && CreateBinding(w, c.plan, c.receipt, c.approval) == Some(c.binding)
    ensures VerifyAuthorization(w, c) == Authorized(c.binding) <==>
              ValidatePlan(w, c.plan, c.policy) == Validated(c.receipt) && Linked(w, c)
  {
    if ValidatePlan(w, c.plan, c.policy) == Validated(c.receipt) {
      ReceiptBindsPlan(w, c.plan, c.policy);
    }
  }

  /** Digests are texts without lone surrogates, as hexadecimal digits are. */
  ghost predicate DigestsEncodable(sha256: Bytes -> Text) {
    forall b :: Utf8.Encodable(sha256(b))
  }

  lemma {:induction false} ConstantsEncodable()
    ensures Utf8.Encodable(VALIDATOR().name) && Utf8.Encodable(VALIDATOR().version)
    ensures forall i :: 0 <= i < |PASSED_CHECKS()| ==> Utf8.Encodable(PASSED_CHECKS()[i])
  {
  }

  lemma {:induction false} IssuedReceiptHasHash(sha256: Bytes -> Text, w: World, plan: AnalysisPlan,
                                                policy: ExecutionPolicy, receipt: ValidationReceipt)
    requires w.hash == HashesOf(sha256) && DigestsEncodable(sha256)
    requires IssueReceipt(w, plan, policy) == Validated(receipt)
    ensures w.hash.receipt(receipt).Some?
  {
    HashedPlanNamesComponent(sha256, plan);
    ConstantsEncodable();
    ReceiptHashExists(sha256, receipt);
  }

  lemma {:induction false} MadeApprovalHasHash(sha256: Bytes -> Text, w: World, receipt: ValidationReceipt,
                                               approvedBy: Text, approvedAt: TimeText, note: Option<Text>)
    requires w.hash == HashesOf(sha256) && DigestsEncodable(sha256) && Utf8.Encodable(receipt.planHash)
    ensures var approval := CreateManualApproval(w, receipt, approvedBy, approvedAt, note);
      approval.Some? ==> w.hash.approval(approval.value).Some?
  {
    var approval := CreateManualApproval(w, receipt, approvedBy, approvedAt, note);
    if approval.Some? {
      ApprovalHashIff(sha256, approval.value);
    }
  }

  /** An approval can be made of a receipt exactly when the receipt can be hashed and the actor and the note
      are texts in range; it names the plan and the receipt, and holds what it was given. */
  lemma {:induction false} ApprovalIff(w: World, receipt: ValidationReceipt, approvedBy: Text, approvedAt: TimeText,
                                       note: Option<Text>)
    ensures forall a :: CreateManualApproval(w, receipt, approvedBy, approvedAt, note) == Some(a) <==>
              && a.planHash == receipt.planHash && w.hash.receipt(receipt) == Some(a.validationReceiptHash)
              && a.approvedBy == approvedBy && a.approvedAt == approvedAt && a.note == note
              && 1 <= |approvedBy| <= 160 && Utf8.Encodable(approvedBy)
              && (note.Some? ==> 1 <= |note.value| <= 500 && Utf8.Encodable(note.value))
  {
  }

  /** For a validated plan an approval can be made exactly when its actor and note are texts in range,
      and then the binding can be made as well and the chain is accepted while the installed world is
      unchanged, whoever approved it and when. */
  lemma {:induction false} ConstructedChainsVerify(sha256: Bytes -> Text, w: World, plan: AnalysisPlan,
                                                   policy: ExecutionPolicy, approvedBy: Text, approvedAt: TimeText,
                                                   note: Option<Text>)
    requires w.hash == HashesOf(sha256) && DigestsEncodable(sha256)
    requires ValidatePlan(w, plan, policy).Validated?
    ensures var receipt := ValidatePlan(w, plan, policy).receipt;
      var approval := CreateManualApproval(w, receipt, approvedBy, approvedAt, note);
      && (approval.Some? <==> ApprovalFields(approvedBy, note))
      && (approval.Some? ==>
            var bound := CreateBinding(w, plan, receipt, approval.value);
            && bound.Some?
            && VerifyAuthorization(w, Chain(plan, receipt, approval.value, bound.value, policy))
               == Authorized(bound.value))
  {
    ReceiptBindsPlan(w, plan, policy);
    ValidatedIsIssued(w, plan, policy);
    var receipt := ValidatePlan(w, plan, policy).receipt;
    IssuedReceiptHasHash(sha256, w, plan, policy, receipt);
    var approval := CreateManualApproval(w, receipt, approvedBy, approvedAt, note);
    if approval.Some? {
      MadeApprovalHasHash(sha256, w, receipt, approvedBy, approvedAt, note);
      var bound := CreateBinding(w, plan, receipt, approval.value);
      AuthorizedIff(w, Chain(plan, receipt, approval.value, bound.value, policy));
    }
  }

  /** One authorization digest accepts one authorization: chains accepted under equal authorization
      hashes, in whatever worlds, hold the same receipt, approval, binding and policy, and plans of the
      same meaning. */
  lemma {:induction false} BindingPinsChain(sha256: Bytes -> Text, w: World, v: World, c: Chain, d: Chain)
    requires CollisionFree(sha256) && w.hash == HashesOf(sha256) && v.hash == HashesOf(sha256)
    requires DigestsEncodable(sha256)
    requires AuthorizationHash(sha256, c.binding) == AuthorizationHash(sha256, d.binding)
    requires VerifyAuthorization(w, c) == Authorized(c.binding) && VerifyAuthorization(v, d) == Authorized(d.binding)
    ensures SameMeaning(c.plan, d.plan)
    ensures c == d.(plan := c.plan)
  {
    AuthorizedIff(w, c);
    AuthorizedIff(v, d);
    ReceiptBindsPlan(w, c.plan, c.policy);
    ReceiptBindsPlan(v, d.plan, d.policy);
    AcceptedBindingHasHash(sha256, w, c);
    AuthorizationHashPins(sha256, c.binding, d.binding);
    PlanHashIff(sha256, c.plan, d.plan);
    ReceiptHashPins(sha256, c.receipt, d.receipt);
    ApprovalHashPins(sha256, c.approval, d.approval);
    PolicyHashPins(sha256, c.policy, d.policy);
  }

  /** An accepted chain has an authorization hash. */
  lemma {:induction false} AcceptedBindingHasHash(sha256: Bytes -> Text, w: World, c: Chain)
    requires w.hash == HashesOf(sha256) && DigestsEncodable(sha256)
    requires VerifyAuthorization(w, c) == Authorized(c.binding)
    ensures AuthorizationHash(sha256, c.binding).Some?
  {
    AuthorizedIff(w, c);
    HashedPlanNamesComponent(sha256, c.plan);
    AuthorizationHashExists(sha256, c.binding);
  }

  lemma {:induction false} ResolutionIgnoresTimes(p: seq<ResolvedQuestion>, q: seq<ResolvedQuestion>,
                                                  question: Question)
    requires |p| == |q| && forall i :: 0 <= i < |p| ==> q[i] == p[i].(resolvedAt := q[i].resolvedAt)
    ensures ResolutionOf(p, question).Some? <==> ResolutionOf(q, question).Some?
    ensures ResolutionOf(p, question).Some? ==>
              ResolutionOf(q, question).value
              == ResolutionOf(p, question).value.(resolvedAt := ResolutionOf(q, question).value.resolvedAt)
  {
    if p != [] {
      ResolutionIgnoresTimes(p[..|p| - 1], q[..|q| - 1], question);
    }
  }

  lemma {:induction false} QuestionsIgnoreTimes(p: AnalysisPlan, q: AnalysisPlan, questions: seq<Question>)
    requires SameButTimes(p, q)
    ensures OnlyDeclared(p, questions) <==> OnlyDeclared(q, questions)
    ensures FirstMisbound(p, questions) == FirstMisbound(q, questions)
    ensures Unconfirmed(p, questions) == Unconfirmed(q, questions)
  {
    forall i | 0 <= i < |p.resolvedQuestions|
      ensures IsDeclared(p.resolvedQuestions[i], questions) <==> IsDeclared(q.resolvedQuestions[i], questions) {}
    forall question: Question
      ensures Misbound(p)(question) == Misbound(q)(question) && Waiting(p)(question) == Waiting(q)(question)
    {
      ResolutionIgnoresTimes(p.resolvedQuestions, q.resolvedQuestions, question);
    }
    SameWhere(Misbound(p), Misbound(q), questions);
    SameWhere(Waiting(p), Waiting(q), questions);
  }

  lemma {:induction false} SameWhere(a: Question -> bool, b: Question -> bool, questions: seq<Question>)
    requires forall q :: a(q) == b(q)
    ensures FirstWhere(a, questions) == FirstWhere(b, questions) && AllWhere(a, questions) == AllWhere(b, questions)
  {
    if questions != [] {
      SameWhere(a, b, questions[1..]);
    }
  }

  lemma {:induction false} ChecksIgnoreTimes(w: World, p: AnalysisPlan, q: AnalysisPlan, raw: RawQuestions)
    requires SameButTimes(p, q) && w.hash.plan(p) == w.hash.plan(q)
    ensures CheckQuestions(w, p, raw) == CheckQuestions(w, q, raw)
  {
    if raw.Entries? && AllGood(raw.items) {
      QuestionsIgnoreTimes(p, q, Questions(raw.items));
    }
  }

  lemma {:induction false} MatchingIgnoresTimes(w: World, p: AnalysisPlan, q: AnalysisPlan, policy: ExecutionPolicy)
    requires SameButTimes(p, q) && w.hash.plan(p) == w.hash.plan(q)
    ensures MatchRule(w, p, policy) == MatchRule(w, q, policy)
    ensures forall rule :: MatchInstalled(w, p, rule) == MatchInstalled(w, q, rule)
    ensures CheckInput(w, p) == CheckInput(w, q)
    ensures IssueReceipt(w, p, policy) == IssueReceipt(w, q, policy)
  {
  }

  lemma {:induction false} ValidationIgnoresTimes(w: World, p: AnalysisPlan, q: AnalysisPlan, policy: ExecutionPolicy)
    requires SameButTimes(p, q) && w.hash.plan(p) == w.hash.plan(q)
    ensures ValidatePlan(w, p, policy) == ValidatePlan(w, q, policy)
  {
    MatchingIgnoresTimes(w, p, q, policy);
    var matched := MatchRule(w, p, policy);
    if matched.Ok? && MatchInstalled(w, p, matched.value).Ok? {
      ChecksIgnoreTimes(w, p, q, MatchInstalled(w, p, matched.value).value);
    }
  }

  lemma {:induction false} VerificationIgnoresTimes(w: World, c: Chain, q: AnalysisPlan)
    requires SameButTimes(c.plan, q) && w.hash.plan(c.plan) == w.hash.plan(q)
    ensures VerifyAuthorization(w, c) == VerifyAuthorization(w, c.(plan := q))
  {
    ValidationIgnoresTimes(w, c.plan, q, c.policy);
    var d := c.(plan := q);
    assert CheckRoots(w, c) == CheckRoots(w, d);
    assert CheckApproval(w, c) == CheckApproval(w, d);
    assert CreateBinding(w, c.plan, c.receipt, c.approval) == CreateBinding(w, q, c.receipt, c.approval);
  }

  /** When a question was resolved makes no difference: neither to validation nor to verification. */
  lemma {:induction false} TimesDoNotMatter(sha256: Bytes -> Text, w: World, c: Chain, q: AnalysisPlan)
    requires w.hash == HashesOf(sha256) && SameButTimes(c.plan, q)
    ensures ValidatePlan(w, c.plan, c.policy) == ValidatePlan(w, q, c.policy)
    ensures VerifyAuthorization(w, c) == VerifyAuthorization(w, c.(plan := q))
  {
    TimesAreNotMeaning(c.plan, q);
    ValidationIgnoresTimes(w, c.plan, q, c.policy);
    VerificationIgnoresTimes(w, c, q);
  }

  // ----- what validation requires, and what a refusal says -----

  ghost predicate ProfilesDiffer(rules: seq<ManagedRule>) {
    forall i, j :: 0 <= i < j < |rules| ==> rules[i].profileId != rules[j].profileId
  }

  /** The policy allows the plan's exact component under its profile by this rule. */
  ghost predicate Allows(plan: AnalysisPlan, policy: ExecutionPolicy, rule: ManagedRule) {
    rule in policy.components && rule.profileId == plan.step.profileId && rule.component == plan.step.component
  }

  lemma {:induction false} FirstRuleIsTheRule(rules: seq<ManagedRule>, profileId: Text, component: ComponentRef)
    requires ProfilesDiffer(rules)
    ensures FirstRuleOf(rules, profileId, component).Some? ==> HasProfile(rules, profileId)
    ensures forall rule :: FirstRuleOf(rules, profileId, component) == Some(rule) <==>
              rule in rules && rule.profileId == profileId && rule.component == component
  {
    if rules != [] {
      FirstRuleIsTheRule(rules[1..], profileId, component);
      assert rules == [rules[0]] + rules[1..];
      forall rule | rule in rules[1..] ensures rule.profileId != rules[0].profileId {
        var j :| 0 <= j < |rules[1..]| && rules[1..][j] == rule;
        assert rules[j + 1] == rule;
      }
      assert forall rule :: rule in rules <==> rule == rules[0] || rule in rules[1..];
      if HasProfile(rules[1..], profileId) {
        var i :| 0 <= i < |rules[1..]| && rules[1..][i].profileId == profileId;
        assert rules[i + 1].profileId == profileId;
      }
    }
  }

  /** The installed component is the plan's, in an allowed lifecycle, with a usable contract. */
  ghost predicate InstalledMatches(w: World, plan: AnalysisPlan, rule: ManagedRule, raw: RawQuestions) {
    var found := w.component(plan.step.component.id);
    && found.Some?
    && found.value.version == plan.step.component.version
    && found.value.subjectHash == Some(plan.step.component.subjectHash)
    && found.value.lifecycle == Some(plan.step.lifecycle)
    && rule.allowedLifecycle == plan.step.lifecycle
    && (rule.requireExplicitOptIn ==> plan.step.explicitDraftOptIn)
    && found.value.questions == Some(raw)
  }

  /** The input holds a value other than null under the requirement's field, and not an empty text, list
      or object where the requirement says so. */
  ghost predicate RequirementMet(input: Object, r: InputRequirement) {
    exists value :: (r.field, value) in input.members && value != Null
                    && (r.requireNonEmpty ==> value != Str([]) && value != Arr([]) && value != Obj([]))
  }

  ghost predicate RequirementsMet(input: Object, requirements: seq<InputRequirement>) {
    forall i :: 0 <= i < |requirements| ==> RequirementMet(input, requirements[i])
  }

  lemma {:induction false} MissingIff(input: Object, r: InputRequirement)
    ensures IsMissing(input, r) <==> !RequirementMet(input, r)
  {
    assert WellFormed(input);
    forall value ensures Lookup(input.members, r.field) == Some(value) <==> (r.field, value) in input.members {
      LookupIff(input.members, r.field, value);
    }
    if Lookup(input.members, r.field).Some? {
      assert (r.field, Lookup(input.members, r.field).value) in input.members;
    }
  }

  /** The requirement that stops the plan is the first unmet one. */
  lemma {:induction false} MissingIsFirst(input: Object, requirements: seq<InputRequirement>)
    requires FirstMissing(input, requirements).Some?
    ensures exists i: nat :: i < |requirements| && FirstMissing(input, requirements) == Some(requirements[i])
                             && !RequirementMet(input, requirements[i])
                             && forall j: nat :: j < i ==> RequirementMet(input, requirements[j])
  {
    MissingIff(input, requirements[0]);
    if IsMissing(input, requirements[0]) {
      assert FirstMissing(input, requirements) == Some(requirements[0]);
    } else {
      MissingIsFirst(input, requirements[1..]);
      var i: nat :| i < |requirements[1..]| && FirstMissing(input, requirements[1..]) == Some(requirements[1..][i])
                    && !RequirementMet(input, requirements[1..][i])
                    && forall j: nat :: j < i ==> RequirementMet(input, requirements[1..][j]);
      assert requirements[1..][i] == requirements[i + 1];
      forall j: nat | j < i + 1 ensures RequirementMet(input, requirements[j]) {
        assert j > 0 ==> requirements[1..][j - 1] == requirements[j];
      }
    }
  }

  lemma {:induction false} NoneMissingIff(input: Object, requirements: seq<InputRequirement>)
    ensures FirstMissing(input, requirements).None? <==> RequirementsMet(input, requirements)
  {
    if requirements != [] {
      NoneMissingIff(input, requirements[1..]);
      MissingIff(input, requirements[0]);
      assert requirements == [requirements[0]] + requirements[1..];
      assert RequirementsMet(input, requirements) <==>
             !IsMissing(input, requirements[0]) && RequirementsMet(input, requirements[1..]);
    }
  }

  ghost predicate QuestionsSettled(plan: AnalysisPlan, raw: RawQuestions) {
    && raw.Entries? && AllGood(raw.items)
    && OnlyDeclared(plan, Questions(raw.items))
    && forall i :: 0 <= i < |raw.items| ==> Settled(plan, Questions(raw.items)[i])
  }

  /** Everything a plan must satisfy under one rule and one contract. */
  ghost predicate MayBeAuthorized(w: World, plan: AnalysisPlan, policy: ExecutionPolicy, rule: ManagedRule,
                                  raw: RawQuestions) {
    && w.hash.policy(policy) == Some(plan.executionPolicyHash)
    && w.packagedPolicy(policy.policyId) == Some(policy)
    && Allows(plan, policy, rule)
    && InstalledMatches(w, plan, rule, raw)
    && QuestionsSettled(plan, raw)
    && RequirementsMet(plan.step.dataset.input, rule.requirements)
    && w.checkInput(plan.step.component.id, plan.step.dataset.input) == InputAccepted
    && w.preflight(plan.step.component.id, plan.step.dataset.input) == Passed
    && w.hash.plan(plan).Some? && w.hash.dataset(plan.step.dataset).Some?
  }

  lemma {:induction false} MatchRuleIff(w: World, plan: AnalysisPlan, policy: ExecutionPolicy, rule: ManagedRule)
    requires ProfilesDiffer(policy.components)
    ensures MatchRule(w, plan, policy) == Ok(rule) <==>
              && w.hash.policy(policy) == Some(plan.executionPolicyHash)
              && w.packagedPolicy(policy.policyId) == Some(policy)
              && Allows(plan, policy, rule)
  {
    FirstRuleIsTheRule(policy.components, plan.step.profileId, plan.step.component);
  }

  lemma {:induction false} SettledIff(w: World, plan: AnalysisPlan, raw: RawQuestions)
    ensures CheckQuestions(w, plan, raw).None? <==> QuestionsSettled(plan, raw)
  {
    if raw.Entries? {
      PassedQuestionsAreBound(w, plan, raw.items);
    }
  }

  lemma {:induction false} ValidatedPasses(w: World, plan: AnalysisPlan, policy: ExecutionPolicy)
    returns (rule: ManagedRule, raw: RawQuestions)
    requires ValidatePlan(w, plan, policy).Validated?
    ensures MatchRule(w, plan, policy) == Ok(rule) && MatchInstalled(w, plan, rule) == Ok(raw)
    ensures CheckQuestions(w, plan, raw).None?
    ensures FirstMissing(plan.step.dataset.input, rule.requirements).None?
    ensures CheckInput(w, plan).None? && IssueReceipt(w, plan, policy).Validated?
  {
    ChecksDoNotValidate(w, plan);
    rule := MatchRule(w, plan, policy).value;
    raw := MatchInstalled(w, plan, rule).value;
  }

  lemma {:induction false} PassingMeets(w: World, plan: AnalysisPlan, policy: ExecutionPolicy,
                                        rule: ManagedRule, raw: RawQuestions)
    requires ProfilesDiffer(policy.components)
    requires MatchRule(w, plan, policy) == Ok(rule) && MatchInstalled(w, plan, rule) == Ok(raw)
    requires CheckQuestions(w, plan, raw).None?
    requires FirstMissing(plan.step.dataset.input, rule.requirements).None?
    requires CheckInput(w, plan).None? && IssueReceipt(w, plan, policy).Validated?
    ensures MayBeAuthorized(w, plan, policy, rule, raw)
  {
    MatchRuleIff(w, plan, policy, rule);
    SettledIff(w, plan, raw);
    NoneMissingIff(plan.step.dataset.input, rule.requirements);
  }

  lemma {:induction false} MeetingValidates(w: World, plan: AnalysisPlan, policy: ExecutionPolicy,
                                            rule: ManagedRule, raw: RawQuestions)
    requires ProfilesDiffer(policy.components)
    requires MayBeAuthorized(w, plan, policy, rule, raw)
    ensures ValidatePlan(w, plan, policy).Validated?
  {
    MatchRuleIff(w, plan, policy, rule);
    SettledIff(w, plan, raw);
    NoneMissingIff(plan.step.dataset.input, rule.requirements);
  }

  /** A plan gets a receipt exactly when it satisfies every requirement of its policy's rule and of
      the installed contract. */
  lemma {:induction false} ValidatedIff(w: World, plan: AnalysisPlan, policy: ExecutionPolicy)
    requires ProfilesDiffer(policy.components)
    ensures ValidatePlan(w, plan, policy).Validated? <==>
              exists rule, raw :: MayBeAuthorized(w, plan, policy, rule, raw)
  {
    if ValidatePlan(w, plan, policy).Validated? {
      var rule, raw := ValidatedPasses(w, plan, policy);
      PassingMeets(w, plan, policy, rule, raw);
    }
    if rule, raw :| MayBeAuthorized(w, plan, policy, rule, raw) {
      MeetingValidates(w, plan, policy, rule, raw);
    }
  }

  /** Starting from an accepted chain, changing one record is refused under the code that names it. */
  lemma {:induction false} ChangesAreNamed(w: World, c: Chain, plan: AnalysisPlan, policy: ExecutionPolicy,
                                           receipt: ValidationReceipt, approval: ApprovalRecord)
    requires VerifyAuthorization(w, c) == Authorized(c.binding)
    ensures plan.step.component != c.plan.step.component ==>
              VerifyAuthorization(w, c.(plan := plan)) == Refused(ComponentBindingMismatch)
    ensures plan.step.component == c.plan.step.component
            && w.hash.dataset(plan.step.dataset) != w.hash.dataset(c.plan.step.dataset) ==>
              VerifyAuthorization(w, c.(plan := plan)) == Refused(DatasetBindingMismatch)
    ensures plan.step == c.plan.step && plan.executionPolicyHash == c.plan.executionPolicyHash
            && w.hash.plan(plan) != w.hash.plan(c.plan) ==>
              VerifyAuthorization(w, c.(plan := plan)) == Refused(PlanRevisionStale)
    ensures w.hash.policy(policy) != w.hash.policy(c.policy) ==>
              VerifyAuthorization(w, c.(policy := policy)) == Refused(PolicyBindingMismatch)
    ensures receipt == c.receipt.(validator := receipt.validator, checks := receipt.checks)
            && w.hash.receipt(receipt) != w.hash.receipt(c.receipt) ==>
              VerifyAuthorization(w, c.(receipt := receipt)) == Refused(ValidationReceiptMismatch)
    ensures w.hash.approval(approval) != w.hash.approval(c.approval) ==>
              VerifyAuthorization(w, c.(approval := approval)) == Refused(ApprovalBindingMismatch)
  {
    AuthorizedIff(w, c);
    ReceiptBindsPlan(w, c.plan, c.policy);
  }
}
