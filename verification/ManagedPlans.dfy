/** Atomic managed plans, receipts, approvals and bindings (protocol/plan.py, protocol/policy.py,
    protocol/authorization.py) with their canonical projections, and what equal hashes pin. */
module ManagedPlans {
  import opened Foundations
  import Utf8
  import opened Binary64
  import opened CanonicalJson
  import opened CanonicalHash
  import opened JsonObjects

  datatype ComponentRef = ComponentRef(id: Text, version: Text, subjectHash: Text)

  datatype Lifecycle = Draft | Published | Deprecated

  function LifecycleName(l: Lifecycle): string {
    match l case Draft => "draft" case Published => "published" case Deprecated => "deprecated"
  }

  /** `resolvedAt` is audit metadata and takes no part in the plan's meaning. */
  datatype ResolvedQuestion = ResolvedQuestion(questionId: Text, targetField: Text, answer: Value, suppliedBy: Text,
                                               callerConfirmed: bool, resolvedAt: Text)

  datatype DatasetBinding = DatasetBinding(datasetId: Text, input: Object)

  datatype PlanStep = PlanStep(stepId: Text, profileId: Text, component: ComponentRef, lifecycle: Lifecycle,
                               explicitDraftOptIn: bool, dataset: DatasetBinding)

  datatype AnalysisPlan = AnalysisPlan(
    protocolVersion: Text, planId: Text, revision: nat, parentPlanHash: Option<Text>, objective: Text,
    resolvedQuestions: seq<ResolvedQuestion>, step: PlanStep, expectedOutputs: seq<Text>, stopConditions: seq<Text>,
    executionPolicyHash: Text)

  datatype RequirementFailure = ManagedRequiredInputMissing | ManagedTimestampRequired

  function RequirementName(f: RequirementFailure): string {
    match f
    case ManagedRequiredInputMissing => "managed_required_input_missing"
    case ManagedTimestampRequired => "managed_timestamp_required"
  }

  datatype InputRequirement = InputRequirement(field: Text, failureCode: RequirementFailure, requireNonEmpty: bool)

  datatype ManagedRule = ManagedRule(profileId: Text, component: ComponentRef, allowedLifecycle: Lifecycle,
                                     requireExplicitOptIn: bool, requirements: seq<InputRequirement>)

  datatype ExecutionPolicy = ExecutionPolicy(policyId: Text, version: Text, components: seq<ManagedRule>)

  datatype Validator = Validator(name: Text, version: Text)

  datatype ValidationReceipt = ValidationReceipt(planHash: Text, policyHash: Text, component: ComponentRef,
                                                 datasetHash: Text, validator: Validator, checks: seq<Text>)

  /** An aware time in the ISO form its JSON dump has. */
  type TimeText = t: Text | forall i :: 0 <= i < |t| ==> t[i] < 0x80 witness []

  datatype ApprovalRecord = ApprovalRecord(planHash: Text, validationReceiptHash: Text, approvedBy: Text,
                                           approvedAt: TimeText, note: Option<Text>)

  datatype AuthorizationBinding = AuthorizationBinding(planHash: Text, validationReceiptHash: Text, approvalHash: Text,
                                                       component: ComponentRef, datasetHash: Text)

  // ----- projections -----

  lemma {:induction false} SmallNames()
    ensures DistinctNames(["schema_version", "dataset_id", "verification_status", "input"])
    ensures DistinctNames(["name", "version"]) && DistinctNames(["check_id", "status"])
    ensures DistinctNames(["field", "failure_code", "require_non_null", "require_non_empty"])
  {
    DistinctByMark(["schema_version", "dataset_id", "verification_status", "input"]);
    DistinctByMark(["name", "version"]);
    DistinctByMark(["check_id", "status"]);
    DistinctByMark(["field", "failure_code", "require_non_null", "require_non_empty"]);
  }

  const QUESTION_NAMES: seq<string> := [
    "schema_version", "question_id", "target_field", "answer", "supplied_by", "verification_status"]

  lemma {:induction false} QuestionNames()
    ensures DistinctNames(QUESTION_NAMES)
  {
    DistinctByMark(QUESTION_NAMES);
  }

  const STEP_NAMES: seq<string> := [
    "schema_version", "step_id", "profile_id", "component", "component_lifecycle", "explicit_draft_opt_in", "dataset"]

  const PLAN_NAMES: seq<string> := [
    "schema_version", "protocol_version", "plan_id", "revision", "parent_plan_hash", "objective",
    "resolved_questions", "step", "expected_outputs", "stop_conditions", "execution_policy_hash"]

  const RULE_NAMES: seq<string> := [
    "profile_id", "component", "allowed_lifecycle", "require_explicit_opt_in", "requirements"]

  const POLICY_NAMES: seq<string> := ["schema_version", "policy_id", "version", "components"]

  const RECEIPT_NAMES: seq<string> := [
    "schema_version", "status", "plan_hash", "policy_hash", "component", "dataset_hash", "validator", "checks"]

  const APPROVAL_NAMES: seq<string> := [
    "schema_version", "authorization_kind", "plan_hash", "validation_receipt_hash", "approved_by", "approved_at",
    "note"]

  const AUTHORIZATION_NAMES: seq<string> := [
    "schema_version", "plan_hash", "validation_receipt_hash", "approval_hash", "component", "dataset_hash"]

  lemma {:induction false} StepNames()
    ensures DistinctNames(STEP_NAMES)
  {
    var n := STEP_NAMES;
    assert Mark(n[0]) == (14, 's', 'n') && Mark(n[1]) == (7, 's', 'd')
        && Mark(n[2]) == (10, 'p', 'd') && Mark(n[3]) == (9, 'c', 't')
        && Mark(n[4]) == (19, 'c', 'e') && Mark(n[5]) == (21, 'e', 'n')
        && Mark(n[6]) == (7, 'd', 't');
    DistinctByMark(n);
  }

  lemma {:induction false} PlanNames()
    ensures DistinctNames(PLAN_NAMES)
  {
    var n := PLAN_NAMES;
    assert Mark(n[0]) == (14, 's', 'n') && Mark(n[1]) == (16, 'p', 'n')
        && Mark(n[2]) == (7, 'p', 'd') && Mark(n[3]) == (8, 'r', 'n')
        && Mark(n[4]) == (16, 'p', 'h') && Mark(n[5]) == (9, 'o', 'e')
        && Mark(n[6]) == (18, 'r', 's') && Mark(n[7]) == (4, 's', 'p')
        && Mark(n[8]) == (16, 'e', 's') && Mark(n[9]) == (15, 's', 's')
        && Mark(n[10]) == (21, 'e', 'h');
    DistinctByMark(n);
  }

  lemma {:induction false} RuleNames()
    ensures DistinctNames(RULE_NAMES)
  {
    var n := RULE_NAMES;
    assert Mark(n[0]) == (10, 'p', 'd') && Mark(n[1]) == (9, 'c', 't')
        && Mark(n[2]) == (17, 'a', 'e') && Mark(n[3]) == (23, 'r', 'n')
        && Mark(n[4]) == (12, 'r', 's');
    DistinctByMark(n);
  }

  lemma {:induction false} PolicyNames()
    ensures DistinctNames(POLICY_NAMES)
  {
    var n := POLICY_NAMES;
    assert Mark(n[0]) == (14, 's', 'n') && Mark(n[1]) == (9, 'p', 'd')
        && Mark(n[2]) == (7, 'v', 'n') && Mark(n[3]) == (10, 'c', 's');
    DistinctByMark(n);
  }

  lemma {:induction false} ReceiptNames()
    ensures DistinctNames(RECEIPT_NAMES)
  {
    var n := RECEIPT_NAMES;
    assert Mark(n[0]) == (14, 's', 'n') && Mark(n[1]) == (6, 's', 's')
        && Mark(n[2]) == (9, 'p', 'h') && Mark(n[3]) == (11, 'p', 'h')
        && Mark(n[4]) == (9, 'c', 't') && Mark(n[5]) == (12, 'd', 'h')
        && Mark(n[6]) == (9, 'v', 'r') && Mark(n[7]) == (6, 'c', 's');
    DistinctByMark(n);
  }

  lemma {:induction false} ApprovalNames()
    ensures DistinctNames(APPROVAL_NAMES)
  {
    var n := APPROVAL_NAMES;
    assert Mark(n[0]) == (14, 's', 'n') && Mark(n[1]) == (18, 'a', 'd')
        && Mark(n[2]) == (9, 'p', 'h') && Mark(n[3]) == (23, 'v', 'h')
        && Mark(n[4]) == (11, 'a', 'y') && Mark(n[5]) == (11, 'a', 't')
        && Mark(n[6]) == (4, 'n', 'e');
    DistinctByMark(n);
  }

  lemma {:induction false} AuthorizationNames()
    ensures DistinctNames(AUTHORIZATION_NAMES)
  {
    var n := AUTHORIZATION_NAMES;
    assert Mark(n[0]) == (14, 's', 'n') && Mark(n[1]) == (9, 'p', 'h')
        && Mark(n[2]) == (23, 'v', 'h') && Mark(n[3]) == (13, 'a', 'h')
        && Mark(n[4]) == (9, 'c', 't') && Mark(n[5]) == (12, 'd', 'h');
    DistinctByMark(n);
  }

  const COMPONENT_NAMES: seq<string> := ["id", "version", "subject_hash"]

  lemma {:induction false} ComponentNames()
    ensures DistinctNames(COMPONENT_NAMES)
  {
    DistinctByMark(COMPONENT_NAMES);
  }

  function ComponentValues(c: ComponentRef): (values: seq<Value>)
    ensures |values| == 3
  {
    [Str(c.id), Str(c.version), Str(c.subjectHash)]
  }

  function ComponentProjection(c: ComponentRef): Value {
    ComponentNames();
    FieldsAreWellFormed(COMPONENT_NAMES, ComponentValues(c));
    Fields(COMPONENT_NAMES, ComponentValues(c))
  }

  function Texts(ts: seq<Text>): Value {
    List(seq(|ts|, i requires 0 <= i < |ts| => Str(ts[i])))
  }

  function ConfirmedName(confirmed: bool): string {
    if confirmed then "caller_confirmed" else "unverified"
  }

  function QuestionValues(q: ResolvedQuestion): (values: seq<Value>)
    ensures |values| == 6
  {
    [Whole(1), Str(q.questionId), Str(q.targetField), q.answer, Str(q.suppliedBy),
     Str(Lit(ConfirmedName(q.callerConfirmed)))]
  }

  /** `ResolvedQuestion.semantic_projection`. */
  function QuestionProjection(q: ResolvedQuestion): Value {
    QuestionNames();
    FieldsAreWellFormed(QUESTION_NAMES, QuestionValues(q));
    Fields(QUESTION_NAMES, QuestionValues(q))
  }

  function QuestionsProjection(qs: seq<ResolvedQuestion>): Value {
    List(seq(|qs|, i requires 0 <= i < |qs| => QuestionProjection(qs[i])))
  }

  function DatasetProjection(d: DatasetBinding): Value {
    SmallNames();
    var names := ["schema_version", "dataset_id", "verification_status", "input"];
    var values := [Whole(1), Str(d.datasetId), Str(Lit("unverified")), d.input];
    FieldsAreWellFormed(names, values);
    Fields(names, values)
  }

  function StepValues(s: PlanStep): (values: seq<Value>)
    ensures |values| == 7
  {
    [Whole(1), Str(s.stepId), Str(s.profileId), ComponentProjection(s.component), Str(Lit(LifecycleName(s.lifecycle))),
     Bool(s.explicitDraftOptIn), DatasetProjection(s.dataset)]
  }

  function StepProjection(s: PlanStep): Value {
    StepNames();
    FieldsAreWellFormed(STEP_NAMES, StepValues(s));
    Fields(STEP_NAMES, StepValues(s))
  }

  function PlanHead(p: AnalysisPlan): (values: seq<Value>)
    ensures |values| == 6
  {
    [Whole(1), Str(p.protocolVersion), Str(p.planId), Whole(p.revision), Optional(p.parentPlanHash), Str(p.objective)]
  }

  function PlanBody(p: AnalysisPlan): (values: seq<Value>)
    ensures |values| == 5
  {
    [QuestionsProjection(p.resolvedQuestions), StepProjection(p.step), Texts(p.expectedOutputs),
     Texts(p.stopConditions), Str(p.executionPolicyHash)]
  }

  /** `AnalysisPlan.semantic_projection`. */
  function PlanProjection(p: AnalysisPlan): Value {
    PlanNames();
    FieldsAreWellFormed(PLAN_NAMES, PlanHead(p) + PlanBody(p));
    Fields(PLAN_NAMES, PlanHead(p) + PlanBody(p))
  }

  function RequirementValues(r: InputRequirement): (values: seq<Value>)
    ensures |values| == 4
  {
    [Str(r.field), Str(Lit(RequirementName(r.failureCode))), Bool(true), Bool(r.requireNonEmpty)]
  }

  function RequirementProjection(r: InputRequirement): Value {
    SmallNames();
    var names := ["field", "failure_code", "require_non_null", "require_non_empty"];
    FieldsAreWellFormed(names, RequirementValues(r));
    Fields(names, RequirementValues(r))
  }

  function RequirementsProjection(rs: seq<InputRequirement>): Value {
    List(seq(|rs|, i requires 0 <= i < |rs| => RequirementProjection(rs[i])))
  }

  function RuleValues(r: ManagedRule): (values: seq<Value>)
    ensures |values| == 5
  {
    [Str(r.profileId), ComponentProjection(r.component), Str(Lit(LifecycleName(r.allowedLifecycle))),
     Bool(r.requireExplicitOptIn), RequirementsProjection(r.requirements)]
  }

  function RuleProjection(r: ManagedRule): Value {
    RuleNames();
    FieldsAreWellFormed(RULE_NAMES, RuleValues(r));
    Fields(RULE_NAMES, RuleValues(r))
  }

  function RulesProjection(rules: seq<ManagedRule>): Value {
    List(seq(|rules|, i requires 0 <= i < |rules| => RuleProjection(rules[i])))
  }

  function PolicyValues(p: ExecutionPolicy): (values: seq<Value>)
    ensures |values| == 4
  {
    [Whole(1), Str(p.policyId), Str(p.version), RulesProjection(p.components)]
  }

  function PolicyProjection(p: ExecutionPolicy): Value {
    PolicyNames();
    FieldsAreWellFormed(POLICY_NAMES, PolicyValues(p));
    Fields(POLICY_NAMES, PolicyValues(p))
  }

  function CheckProjection(id: Text): Value {
    SmallNames();
    var names, values := ["check_id", "status"], [Str(id), Str(Lit("passed"))];
    FieldsAreWellFormed(names, values);
    Fields(names, values)
  }

  function ChecksProjection(checks: seq<Text>): Value {
    List(seq(|checks|, i requires 0 <= i < |checks| => CheckProjection(checks[i])))
  }

  function ValidatorProjection(v: Validator): Value {
    SmallNames();
    var names, values := ["name", "version"], [Str(v.name), Str(v.version)];
    FieldsAreWellFormed(names, values);
    Fields(names, values)
  }

  function ReceiptValues(r: ValidationReceipt): (values: seq<Value>)
    ensures |values| == 8
  {
    [Whole(1), Str(Lit("validated")), Str(r.planHash), Str(r.policyHash), ComponentProjection(r.component),
     Str(r.datasetHash), ValidatorProjection(r.validator), ChecksProjection(r.checks)]
  }

  function ReceiptProjection(r: ValidationReceipt): Value {
    ReceiptNames();
    FieldsAreWellFormed(RECEIPT_NAMES, ReceiptValues(r));
    Fields(RECEIPT_NAMES, ReceiptValues(r))
  }

  function ApprovalValues(a: ApprovalRecord): (values: seq<Value>)
    ensures |values| == 7
  {
    [Whole(1), Str(Lit("manual")), Str(a.planHash), Str(a.validationReceiptHash), Str(a.approvedBy), Str(a.approvedAt),
     Optional(a.note)]
  }

  function ApprovalProjection(a: ApprovalRecord): Value {
    ApprovalNames();
    FieldsAreWellFormed(APPROVAL_NAMES, ApprovalValues(a));
    Fields(APPROVAL_NAMES, ApprovalValues(a))
  }

  function AuthorizationValues(b: AuthorizationBinding): (values: seq<Value>)
    ensures |values| == 6
  {
    [Whole(1), Str(b.planHash), Str(b.validationReceiptHash), Str(b.approvalHash), ComponentProjection(b.component),
     Str(b.datasetHash)]
  }

  function AuthorizationProjection(b: AuthorizationBinding): Value {
    AuthorizationNames();
    FieldsAreWellFormed(AUTHORIZATION_NAMES, AuthorizationValues(b));
    Fields(AUTHORIZATION_NAMES, AuthorizationValues(b))
  }

  // ----- hashes -----

  function PlanHash(sha256: Bytes -> Text, p: AnalysisPlan): Option<Text> {
    CanonicalHash.CanonicalHash(sha256, PlanProjection(p), Lit("managed.analysis_plan.v1"))
  }

  function DatasetHash(sha256: Bytes -> Text, d: DatasetBinding): Option<Text> {
    CanonicalHash.CanonicalHash(sha256, DatasetProjection(d), Lit("managed.dataset_binding.v1"))
  }

  function PolicyHash(sha256: Bytes -> Text, p: ExecutionPolicy): Option<Text> {
    CanonicalHash.CanonicalHash(sha256, PolicyProjection(p), Lit("managed.execution_policy.v1"))
  }

  function ReceiptHash(sha256: Bytes -> Text, r: ValidationReceipt): Option<Text> {
    CanonicalHash.CanonicalHash(sha256, ReceiptProjection(r), Lit("managed.validation_receipt.v1"))
  }

  function ApprovalHash(sha256: Bytes -> Text, a: ApprovalRecord): Option<Text> {
    CanonicalHash.CanonicalHash(sha256, ApprovalProjection(a), Lit("managed.manual_approval.v1"))
  }

  /** `AuthorizationBinding.authorization_hash`. */
  function AuthorizationHash(sha256: Bytes -> Text, b: AuthorizationBinding): Option<Text> {
    CanonicalHash.CanonicalHash(sha256, AuthorizationProjection(b), Lit("managed.authorization_binding.v1"))
  }

  // ----- which records have a hash -----

  lemma {:induction false} ReceiptDomain()
    ensures DomainOk(Lit("managed.validation_receipt.v1"))
  {
  }

  lemma {:induction false} ApprovalDomain()
    ensures DomainOk(Lit("managed.manual_approval.v1"))
  {
  }

  lemma {:induction false} AuthorizationDomain()
    ensures DomainOk(Lit("managed.authorization_binding.v1"))
  {
  }

  predicate ComponentEncodable(c: ComponentRef) {
    Utf8.Encodable(c.id) && Utf8.Encodable(c.version) && Utf8.Encodable(c.subjectHash)
  }

  lemma {:induction false} TextAccepted(t: Text)
    ensures Tag(Str(t)).Some? <==> Utf8.Encodable(t)
  {
  }

  lemma {:induction false} ComponentAccepted(c: ComponentRef)
    ensures Tag(ComponentProjection(c)).Some? <==> ComponentEncodable(c)
  {
    var values := ComponentValues(c);
    FieldsAccepted(COMPONENT_NAMES, values);
    TextAccepted(c.id);
    TextAccepted(c.version);
    TextAccepted(c.subjectHash);
    assert Tag(values[0]).Some? <==> Utf8.Encodable(c.id);
    assert Tag(values[1]).Some? <==> Utf8.Encodable(c.version);
    assert Tag(values[2]).Some? <==> Utf8.Encodable(c.subjectHash);
  }

  lemma {:induction false} WholeAccepted(n: nat)
    requires n <= MAX_SAFE_INTEGER
    ensures Tag(Whole(n)).Some?
  {
  }

  lemma {:induction false} LitEncodable(s: string)
    ensures Utf8.Encodable(Lit(s)) && Tag(Str(Lit(s))).Some?
  {
  }

  lemma {:induction false} OptionalAccepted(t: Option<Text>)
    ensures Tag(Optional(t)).Some? <==> (t.Some? ==> Utf8.Encodable(t.value))
  {
  }

  predicate ApprovalEncodable(a: ApprovalRecord) {
    && Utf8.Encodable(a.planHash) && Utf8.Encodable(a.validationReceiptHash)
    && Utf8.Encodable(a.approvedBy) && (a.note.Some? ==> Utf8.Encodable(a.note.value))
  }

  lemma {:induction false} SevenAccepted(values: seq<Value>, texts: bool, rest: bool)
    requires |values| == 7
    requires texts <==> Tag(values[2]).Some? && Tag(values[3]).Some? && Tag(values[4]).Some? && Tag(values[6]).Some?
    requires rest <==> Tag(values[0]).Some? && Tag(values[1]).Some? && Tag(values[5]).Some?
    ensures (forall i :: 0 <= i < 7 ==> Tag(values[i]).Some?) <==> texts && rest
  {
  }

  lemma {:induction false} ApprovalConstantsAccepted(a: ApprovalRecord)
    ensures Tag(ApprovalValues(a)[0]).Some? && Tag(ApprovalValues(a)[1]).Some? && Tag(ApprovalValues(a)[5]).Some?
  {
    WholeAccepted(1);
    LitEncodable("manual");
    TextAccepted(a.approvedAt);
  }

  lemma {:induction false} ApprovalTextsAccepted(a: ApprovalRecord)
    ensures Tag(ApprovalValues(a)[2]).Some? <==> Utf8.Encodable(a.planHash)
    ensures Tag(ApprovalValues(a)[3]).Some? <==> Utf8.Encodable(a.validationReceiptHash)
    ensures Tag(ApprovalValues(a)[4]).Some? <==> Utf8.Encodable(a.approvedBy)
    ensures Tag(ApprovalValues(a)[6]).Some? <==> (a.note.Some? ==> Utf8.Encodable(a.note.value))
  {
    TextAccepted(a.planHash);
    TextAccepted(a.validationReceiptHash);
    TextAccepted(a.approvedBy);
    OptionalAccepted(a.note);
  }

  lemma {:induction false} ApprovalValuesAccepted(a: ApprovalRecord)
    ensures (forall i :: 0 <= i < 7 ==> Tag(ApprovalValues(a)[i]).Some?) <==> ApprovalEncodable(a)
  {
    ApprovalConstantsAccepted(a);
    ApprovalTextsAccepted(a);
    SevenAccepted(ApprovalValues(a), ApprovalEncodable(a), true);
  }

  /** An approval can be hashed exactly when its texts have no lone surrogate. */
  lemma {:induction false} ApprovalHashIff(sha256: Bytes -> Text, a: ApprovalRecord)
    ensures ApprovalHash(sha256, a).Some? <==> ApprovalEncodable(a)
  {
    ApprovalDomain();
    HashExistsIff(sha256, ApprovalProjection(a), Lit("managed.manual_approval.v1"));
    FieldsAccepted(APPROVAL_NAMES, ApprovalValues(a));
    ApprovalValuesAccepted(a);
  }

  lemma {:induction false} CheckAccepted(id: Text)
    ensures Tag(CheckProjection(id)).Some? <==> Utf8.Encodable(id)
  {
    SmallNames();
    var names, values: seq<Value> := ["check_id", "status"], [Str(id), Str(Lit("passed"))];
    FieldsAccepted(names, values);
    LitEncodable("passed");
    assert CheckProjection(id) == Fields(names, values);
    assert Tag(values[0]).Some? <==> Utf8.Encodable(id);
    assert Tag(values[1]).Some?;
  }

  lemma {:induction false} ChecksAccepted(checks: seq<Text>)
    requires forall i :: 0 <= i < |checks| ==> Utf8.Encodable(checks[i])
    ensures Tag(ChecksProjection(checks)).Some?
  {
    var values: seq<Value> := seq(|checks|, i requires 0 <= i < |checks| => CheckProjection(checks[i]));
    forall i | 0 <= i < |values| ensures Tag(values[i]).Some? {
      CheckAccepted(checks[i]);
    }
    ListAccepted(values);
  }

  lemma {:induction false} ValidatorAccepted(v: Validator)
    requires Utf8.Encodable(v.name) && Utf8.Encodable(v.version)
    ensures Tag(ValidatorProjection(v)).Some?
  {
    SmallNames();
    var names, values: seq<Value> := ["name", "version"], [Str(v.name), Str(v.version)];
    FieldsAccepted(names, values);
    assert ValidatorProjection(v) == Fields(names, values);
    assert Tag(values[0]).Some? && Tag(values[1]).Some?;
  }

  predicate ReceiptEncodable(r: ValidationReceipt) {
    && Utf8.Encodable(r.planHash) && Utf8.Encodable(r.policyHash) && Utf8.Encodable(r.datasetHash)
    && ComponentEncodable(r.component)
    && Utf8.Encodable(r.validator.name) && Utf8.Encodable(r.validator.version)
    && forall i :: 0 <= i < |r.checks| ==> Utf8.Encodable(r.checks[i])
  }

  lemma {:induction false} EightOf(p: Value -> bool, a: Value, b: Value, c: Value, d: Value, e: Value, f: Value,
                                   g: Value, h: Value)
    requires p(a) && p(b) && p(c) && p(d) && p(e) && p(f) && p(g) && p(h)
    ensures forall i :: 0 <= i < 8 ==> p([a, b, c, d, e, f, g, h][i])
  {
  }

  lemma {:induction false} ReceiptTextsAccepted(r: ValidationReceipt)
    requires ReceiptEncodable(r)
    ensures Tag(Whole(1)).Some? && Tag(Str(Lit("validated"))).Some?
    ensures Tag(Str(r.planHash)).Some? && Tag(Str(r.policyHash)).Some? && Tag(Str(r.datasetHash)).Some?
  {
    WholeAccepted(1);
    LitEncodable("validated");
    TextAccepted(r.planHash);
    TextAccepted(r.policyHash);
    TextAccepted(r.datasetHash);
  }

  lemma {:induction false} ReceiptValuesAccepted(r: ValidationReceipt)
    requires ReceiptEncodable(r)
    ensures forall i :: 0 <= i < 8 ==> Tag(ReceiptValues(r)[i]).Some?
  {
    ReceiptTextsAccepted(r);
    ComponentAccepted(r.component);
    ValidatorAccepted(r.validator);
    ChecksAccepted(r.checks);
    EightOf((v: Value) => Tag(v).Some?, Whole(1), Str(Lit("validated")), Str(r.planHash), Str(r.policyHash),
            ComponentProjection(r.component), Str(r.datasetHash), ValidatorProjection(r.validator),
            ChecksProjection(r.checks));
  }

  /** A receipt of encodable texts can be hashed. */
  lemma {:induction false} ReceiptHashExists(sha256: Bytes -> Text, r: ValidationReceipt)
    requires ReceiptEncodable(r)
    ensures ReceiptHash(sha256, r).Some?
  {
    ReceiptValuesAccepted(r);
    FieldsAccepted(RECEIPT_NAMES, ReceiptValues(r));
    ReceiptDomain();
    HashExistsIff(sha256, ReceiptProjection(r), Lit("managed.validation_receipt.v1"));
  }

  lemma {:induction false} AuthorizationValuesAround(b: AuthorizationBinding, component: Value)
    requires Utf8.Encodable(b.planHash) && Utf8.Encodable(b.validationReceiptHash)
    requires Utf8.Encodable(b.approvalHash) && Utf8.Encodable(b.datasetHash)
    requires Tag(component).Some?
    ensures var values: seq<Value> :=
        [Whole(1), Str(b.planHash), Str(b.validationReceiptHash), Str(b.approvalHash), component, Str(b.datasetHash)];
      forall i :: 0 <= i < 6 ==> Tag(values[i]).Some?
  {
    WholeAccepted(1);
    TextAccepted(b.planHash);
    TextAccepted(b.validationReceiptHash);
    TextAccepted(b.approvalHash);
    TextAccepted(b.datasetHash);
  }

  lemma {:induction false} AuthorizationHashExists(sha256: Bytes -> Text, b: AuthorizationBinding)
    requires Utf8.Encodable(b.planHash) && Utf8.Encodable(b.validationReceiptHash)
    requires Utf8.Encodable(b.approvalHash) && Utf8.Encodable(b.datasetHash)
    requires ComponentEncodable(b.component)
    ensures AuthorizationHash(sha256, b).Some?
  {
    ComponentAccepted(b.component);
    AuthorizationValuesAround(b, ComponentProjection(b.component));
    FieldsAccepted(AUTHORIZATION_NAMES, AuthorizationValues(b));
    AuthorizationDomain();
    HashExistsIff(sha256, AuthorizationProjection(b), Lit("managed.authorization_binding.v1"));
  }

  lemma {:induction false} AcceptedStepNamesComponent(s: PlanStep)
    requires Tag(StepProjection(s)).Some?
    ensures ComponentEncodable(s.component)
  {
    FieldsAccepted(STEP_NAMES, StepValues(s));
    assert Tag(StepValues(s)[3]).Some?;
    ComponentAccepted(s.component);
  }

  /** A plan that can be hashed names a component of encodable texts. */
  lemma {:induction false} HashedPlanNamesComponent(sha256: Bytes -> Text, p: AnalysisPlan)
    requires PlanHash(sha256, p).Some?
    ensures ComponentEncodable(p.step.component)
  {
    HashExistsIff(sha256, PlanProjection(p), Lit("managed.analysis_plan.v1"));
    var values := PlanHead(p) + PlanBody(p);
    FieldsAccepted(PLAN_NAMES, values);
    BodyOfPlan(p);
    assert Tag(values[7]).Some?;
    AcceptedStepNamesComponent(p.step);
  }

  // ----- what equal hashes pin -----

  lemma {:induction false} EqualHashesAreEquiv(sha256: Bytes -> Text, v: Value, w: Value, domain: Text)
    requires CollisionFree(sha256)
    requires CanonicalHash.CanonicalHash(sha256, v, domain).Some?
    requires CanonicalHash.CanonicalHash(sha256, v, domain) == CanonicalHash.CanonicalHash(sha256, w, domain)
    ensures Equiv(v, w)
  {
    CanonicalHashIffEquiv(sha256, v, domain, w, domain);
  }

  lemma {:induction false} EquivTextFields(names: seq<string>, a: seq<Value>, b: seq<Value>, i: nat)
    requires |names| == |a| == |b| && DistinctNames(names) && i < |names|
    requires Equiv(Fields(names, a), Fields(names, b)) && a[i].Str?
    ensures a[i] == b[i]
  {
    EquivField(names, a, b, i);
  }

  lemma {:induction false} ComponentIff(a: ComponentRef, b: ComponentRef)
    ensures Equiv(ComponentProjection(a), ComponentProjection(b)) <==> a == b
  {
    ComponentNames();
    FieldsIff(COMPONENT_NAMES, ComponentValues(a), ComponentValues(b));
    AllEquivOf3(ComponentValues(a), ComponentValues(b));
    TextIff(a.id, b.id);
    TextIff(a.version, b.version);
    TextIff(a.subjectHash, b.subjectHash);
  }

  lemma {:induction false} EquivValidatorsAreEqual(a: Validator, b: Validator)
    requires Equiv(ValidatorProjection(a), ValidatorProjection(b))
    ensures a == b
  {
    SmallNames();
    var names, x, y := ["name", "version"], [Str(a.name), Str(a.version)], [Str(b.name), Str(b.version)];
    assert ValidatorProjection(a) == Fields(names, x) && ValidatorProjection(b) == Fields(names, y);
    EquivTextFields(names, x, y, 0);
    EquivTextFields(names, x, y, 1);
    assert x[0] == y[0] && x[1] == y[1];
  }

  lemma {:induction false} EquivChecksAreEqual(a: seq<Text>, b: seq<Text>)
    requires Equiv(ChecksProjection(a), ChecksProjection(b))
    ensures a == b
  {
    SmallNames();
    var v, w := ChecksProjection(a), ChecksProjection(b);
    assert |v.items| == |w.items|;
    forall i | 0 <= i < |a| ensures a[i] == b[i] {
      assert Equiv(v.items[i], w.items[i]);
      var names, x, y := ["check_id", "status"], [Str(a[i]), Str(Lit("passed"))], [Str(b[i]), Str(Lit("passed"))];
      assert v.items[i] == Fields(names, x) && w.items[i] == Fields(names, y);
      EquivTextFields(names, x, y, 0);
      assert x[0] == y[0];
    }
  }

  /** Equal receipt hashes: the same receipt. */
  lemma {:induction false} ReceiptHashPins(sha256: Bytes -> Text, a: ValidationReceipt, b: ValidationReceipt)
    requires CollisionFree(sha256)
    requires ReceiptHash(sha256, a).Some? && ReceiptHash(sha256, a) == ReceiptHash(sha256, b)
    ensures a == b
  {
    EqualHashesAreEquiv(sha256, ReceiptProjection(a), ReceiptProjection(b), Lit("managed.validation_receipt.v1"));
    EquivReceiptsAreEqual(a, b);
  }

  lemma {:induction false} EquivReceiptParts(x: seq<Value>, y: seq<Value>)
    requires |x| == |y| == 8 && DistinctNames(RECEIPT_NAMES)
    requires Equiv(Fields(RECEIPT_NAMES, x), Fields(RECEIPT_NAMES, y))
    requires x[2].Str? && x[3].Str? && x[5].Str?
    ensures x[2] == y[2] && x[3] == y[3] && x[5] == y[5]
    ensures Equiv(x[4], y[4]) && Equiv(x[6], y[6]) && Equiv(x[7], y[7])
  {
    EquivTextFields(RECEIPT_NAMES, x, y, 2);
    EquivTextFields(RECEIPT_NAMES, x, y, 3);
    EquivField(RECEIPT_NAMES, x, y, 4);
    EquivTextFields(RECEIPT_NAMES, x, y, 5);
    EquivField(RECEIPT_NAMES, x, y, 6);
    EquivField(RECEIPT_NAMES, x, y, 7);
  }

  lemma {:induction false} EquivReceiptsAreEqual(a: ValidationReceipt, b: ValidationReceipt)
    requires Equiv(ReceiptProjection(a), ReceiptProjection(b))
    ensures a == b
  {
    ReceiptNames();
    EquivReceiptParts(ReceiptValues(a), ReceiptValues(b));
    ComponentIff(a.component, b.component);
    EquivValidatorsAreEqual(a.validator, b.validator);
    EquivChecksAreEqual(a.checks, b.checks);
  }

  /** Equal approval hashes: the same approval. */
  lemma {:induction false} ApprovalHashPins(sha256: Bytes -> Text, a: ApprovalRecord, b: ApprovalRecord)
    requires CollisionFree(sha256)
    requires ApprovalHash(sha256, a).Some? && ApprovalHash(sha256, a) == ApprovalHash(sha256, b)
    ensures a == b
  {
    EqualHashesAreEquiv(sha256, ApprovalProjection(a), ApprovalProjection(b), Lit("managed.manual_approval.v1"));
    EquivApprovalsAreEqual(a, b);
  }

  lemma {:induction false} EquivApprovalsAreEqual(a: ApprovalRecord, b: ApprovalRecord)
    requires Equiv(ApprovalProjection(a), ApprovalProjection(b))
    ensures a == b
  {
    ApprovalNames();
    EquivApprovalTexts(ApprovalValues(a), ApprovalValues(b));
    EquivField(APPROVAL_NAMES, ApprovalValues(a), ApprovalValues(b), 6);
    assert Equiv(Optional(a.note), Optional(b.note));
    assert a.note == b.note;
  }

  lemma {:induction false} EquivApprovalTexts(x: seq<Value>, y: seq<Value>)
    requires |x| == |y| == 7 && DistinctNames(APPROVAL_NAMES)
    requires Equiv(Fields(APPROVAL_NAMES, x), Fields(APPROVAL_NAMES, y))
    requires x[2].Str? && x[3].Str? && x[4].Str? && x[5].Str?
    ensures x[2] == y[2] && x[3] == y[3] && x[4] == y[4] && x[5] == y[5]
  {
    EquivTextFields(APPROVAL_NAMES, x, y, 2);
    EquivTextFields(APPROVAL_NAMES, x, y, 3);
    EquivTextFields(APPROVAL_NAMES, x, y, 4);
    EquivTextFields(APPROVAL_NAMES, x, y, 5);
  }

  /** Equal authorization hashes: the same binding. */
  lemma {:induction false} AuthorizationHashPins(sha256: Bytes -> Text, a: AuthorizationBinding,
                                                 b: AuthorizationBinding)
    requires CollisionFree(sha256)
    requires AuthorizationHash(sha256, a).Some? && AuthorizationHash(sha256, a) == AuthorizationHash(sha256, b)
    ensures a == b
  {
    EqualHashesAreEquiv(sha256, AuthorizationProjection(a), AuthorizationProjection(b),
                        Lit("managed.authorization_binding.v1"));
    EquivBindingsAreEqual(a, b);
  }

  lemma {:induction false} EquivBindingTexts(x: seq<Value>, y: seq<Value>)
    requires |x| == |y| == 6 && DistinctNames(AUTHORIZATION_NAMES)
    requires Equiv(Fields(AUTHORIZATION_NAMES, x), Fields(AUTHORIZATION_NAMES, y))
    requires x[1].Str? && x[2].Str? && x[3].Str? && x[5].Str?
    ensures x[1] == y[1] && x[2] == y[2] && x[3] == y[3] && x[5] == y[5] && Equiv(x[4], y[4])
  {
    EquivTextFields(AUTHORIZATION_NAMES, x, y, 1);
    EquivTextFields(AUTHORIZATION_NAMES, x, y, 2);
    EquivTextFields(AUTHORIZATION_NAMES, x, y, 3);
    EquivField(AUTHORIZATION_NAMES, x, y, 4);
    EquivTextFields(AUTHORIZATION_NAMES, x, y, 5);
  }

  lemma {:induction false} EquivBindingsAreEqual(a: AuthorizationBinding, b: AuthorizationBinding)
    requires Equiv(AuthorizationProjection(a), AuthorizationProjection(b))
    ensures a == b
  {
    AuthorizationNames();
    EquivBindingTexts(AuthorizationValues(a), AuthorizationValues(b));
    ComponentIff(a.component, b.component);
  }

  lemma {:induction false} EquivRequirementsAreEqual(a: InputRequirement, b: InputRequirement)
    requires Equiv(RequirementProjection(a), RequirementProjection(b))
    ensures a == b
  {
    SmallNames();
    var names := ["field", "failure_code", "require_non_null", "require_non_empty"];
    var x, y := RequirementValues(a), RequirementValues(b);
    assert RequirementProjection(a) == Fields(names, x) && RequirementProjection(b) == Fields(names, y);
    EquivTextFields(names, x, y, 0);
    EquivTextFields(names, x, y, 1);
    EquivField(names, x, y, 3);
    assert Lit(RequirementName(a.failureCode)) == Lit(RequirementName(b.failureCode));
    assert |RequirementName(ManagedRequiredInputMissing)| != |RequirementName(ManagedTimestampRequired)|;
  }

  lemma {:induction false} EquivLifecyclesAreEqual(a: Lifecycle, b: Lifecycle)
    requires Lit(LifecycleName(a)) == Lit(LifecycleName(b))
    ensures a == b
  {
    assert |Lit(LifecycleName(a))| == |LifecycleName(a)| && |Lit(LifecycleName(b))| == |LifecycleName(b)|;
    assert Lit(LifecycleName(a))[0] == LifecycleName(a)[0] as int;
    assert Lit(LifecycleName(b))[0] == LifecycleName(b)[0] as int;
  }

  lemma {:induction false} EquivRequirementListsAreEqual(a: seq<InputRequirement>, b: seq<InputRequirement>)
    requires Equiv(RequirementsProjection(a), RequirementsProjection(b))
    ensures a == b
  {
    var v, w := RequirementsProjection(a), RequirementsProjection(b);
    assert |v.items| == |w.items|;
    forall i | 0 <= i < |a| ensures a[i] == b[i] {
      assert Equiv(v.items[i], w.items[i]);
      EquivRequirementsAreEqual(a[i], b[i]);
    }
  }

  lemma {:induction false} EquivRulesAreEqual(a: ManagedRule, b: ManagedRule)
    requires Equiv(RuleProjection(a), RuleProjection(b))
    ensures a == b
  {
    RuleNames();
    var x, y := RuleValues(a), RuleValues(b);
    EquivTextFields(RULE_NAMES, x, y, 0);
    EquivField(RULE_NAMES, x, y, 1);
    EquivTextFields(RULE_NAMES, x, y, 2);
    EquivField(RULE_NAMES, x, y, 3);
    EquivField(RULE_NAMES, x, y, 4);
    ComponentIff(a.component, b.component);
    EquivLifecyclesAreEqual(a.allowedLifecycle, b.allowedLifecycle);
    EquivRequirementListsAreEqual(a.requirements, b.requirements);
  }

  lemma {:induction false} EquivRuleListsAreEqual(a: seq<ManagedRule>, b: seq<ManagedRule>)
    requires Equiv(RulesProjection(a), RulesProjection(b))
    ensures a == b
  {
    var v, w := RulesProjection(a), RulesProjection(b);
    assert |v.items| == |w.items|;
    forall i | 0 <= i < |a| ensures a[i] == b[i] {
      assert Equiv(v.items[i], w.items[i]);
      EquivRulesAreEqual(a[i], b[i]);
    }
  }

  /** Equal policy hashes: the same policy. */
  lemma {:induction false} PolicyHashPins(sha256: Bytes -> Text, a: ExecutionPolicy, b: ExecutionPolicy)
    requires CollisionFree(sha256)
    requires PolicyHash(sha256, a).Some? && PolicyHash(sha256, a) == PolicyHash(sha256, b)
    ensures a == b
  {
    EqualHashesAreEquiv(sha256, PolicyProjection(a), PolicyProjection(b), Lit("managed.execution_policy.v1"));
    PolicyNames();
    var x, y := PolicyValues(a), PolicyValues(b);
    EquivTextFields(POLICY_NAMES, x, y, 1);
    EquivTextFields(POLICY_NAMES, x, y, 2);
    EquivField(POLICY_NAMES, x, y, 3);
    EquivRuleListsAreEqual(a.components, b.components);
  }

  // ----- what a plan means -----

  /** The same question, answered alike by the same party; when is not compared. */
  ghost predicate SameQuestion(a: ResolvedQuestion, b: ResolvedQuestion) {
    && a.questionId == b.questionId && a.targetField == b.targetField
    && a.suppliedBy == b.suppliedBy && a.callerConfirmed == b.callerConfirmed
    && Equiv(a.answer, b.answer)
  }

  ghost predicate SameQuestions(a: seq<ResolvedQuestion>, b: seq<ResolvedQuestion>) {
    |a| == |b| && forall i :: 0 <= i < |a| ==> SameQuestion(a[i], b[i])
  }

  ghost predicate SameInput(a: DatasetBinding, b: DatasetBinding) {
    a.datasetId == b.datasetId && Equiv(a.input, b.input)
  }

  ghost predicate SameStep(a: PlanStep, b: PlanStep) {
    && a.stepId == b.stepId && a.profileId == b.profileId && a.component == b.component
    && a.lifecycle == b.lifecycle && a.explicitDraftOptIn == b.explicitDraftOptIn
    && SameInput(a.dataset, b.dataset)
  }

  /** Two plans of the same meaning agree in every field but the times at which questions were resolved:
      answers and input as canonical values, everything else outright. */
  ghost predicate SameMeaning(p: AnalysisPlan, q: AnalysisPlan) {
    && p.protocolVersion == q.protocolVersion && p.planId == q.planId && p.revision == q.revision
    && p.parentPlanHash == q.parentPlanHash && p.objective == q.objective
    && SameQuestions(p.resolvedQuestions, q.resolvedQuestions)
    && SameStep(p.step, q.step)
    && p.expectedOutputs == q.expectedOutputs && p.stopConditions == q.stopConditions
    && p.executionPolicyHash == q.executionPolicyHash
  }

  lemma {:induction false} ConfirmedNamesDiffer(a: bool, b: bool)
    ensures Lit(ConfirmedName(a)) == Lit(ConfirmedName(b)) <==> a == b
  {
    assert |Lit(ConfirmedName(true))| != |Lit(ConfirmedName(false))|;
  }

  lemma {:induction false} QuestionIff(a: ResolvedQuestion, b: ResolvedQuestion)
    ensures Equiv(QuestionProjection(a), QuestionProjection(b)) <==> SameQuestion(a, b)
  {
    QuestionNames();
    var x, y := QuestionValues(a), QuestionValues(b);
    FieldsIff(QUESTION_NAMES, x, y);
    AllEquivOf6(x, y);
    WholeIff(1, 1);
    TextIff(a.questionId, b.questionId);
    TextIff(a.targetField, b.targetField);
    TextIff(a.suppliedBy, b.suppliedBy);
    TextIff(Lit(ConfirmedName(a.callerConfirmed)), Lit(ConfirmedName(b.callerConfirmed)));
    ConfirmedNamesDiffer(a.callerConfirmed, b.callerConfirmed);
  }

  lemma {:induction false} QuestionsIff(a: seq<ResolvedQuestion>, b: seq<ResolvedQuestion>)
    ensures Equiv(QuestionsProjection(a), QuestionsProjection(b)) <==> SameQuestions(a, b)
  {
    var x: seq<Value> := seq(|a|, i requires 0 <= i < |a| => QuestionProjection(a[i]));
    var y: seq<Value> := seq(|b|, i requires 0 <= i < |b| => QuestionProjection(b[i]));
    ListIff(x, y);
    forall i | 0 <= i < |a| && i < |b| ensures Equiv(x[i], y[i]) <==> SameQuestion(a[i], b[i]) {
      QuestionIff(a[i], b[i]);
    }
  }

  lemma {:induction false} InputIff(a: DatasetBinding, b: DatasetBinding)
    ensures Equiv(DatasetProjection(a), DatasetProjection(b)) <==> SameInput(a, b)
  {
    SmallNames();
    var names := ["schema_version", "dataset_id", "verification_status", "input"];
    var x: seq<Value> := [Whole(1), Str(a.datasetId), Str(Lit("unverified")), a.input];
    var y: seq<Value> := [Whole(1), Str(b.datasetId), Str(Lit("unverified")), b.input];
    assert DatasetProjection(a) == Fields(names, x) && DatasetProjection(b) == Fields(names, y);
    FieldsIff(names, x, y);
    AllEquivOf4(x, y);
    WholeIff(1, 1);
    TextIff(a.datasetId, b.datasetId);
    TextIff(Lit("unverified"), Lit("unverified"));
  }

  lemma {:induction false} LifecycleIff(a: Lifecycle, b: Lifecycle)
    ensures Equiv(Str(Lit(LifecycleName(a))), Str(Lit(LifecycleName(b)))) <==> a == b
  {
    TextIff(Lit(LifecycleName(a)), Lit(LifecycleName(b)));
    if Lit(LifecycleName(a)) == Lit(LifecycleName(b)) {
      EquivLifecyclesAreEqual(a, b);
    }
  }

  lemma {:induction false} StepNamesIff(a: PlanStep, b: PlanStep)
    ensures AllEquiv(StepValues(a)[..3], StepValues(b)[..3]) <==> a.stepId == b.stepId && a.profileId == b.profileId
  {
    AllEquivOf3(StepValues(a)[..3], StepValues(b)[..3]);
    WholeIff(1, 1);
    TextIff(a.stepId, b.stepId);
    TextIff(a.profileId, b.profileId);
  }

  lemma {:induction false} StepBindingsIff(a: PlanStep, b: PlanStep)
    ensures AllEquiv(StepValues(a)[3..], StepValues(b)[3..]) <==>
              && a.component == b.component && a.lifecycle == b.lifecycle
              && a.explicitDraftOptIn == b.explicitDraftOptIn && SameInput(a.dataset, b.dataset)
  {
    AllEquivOf4(StepValues(a)[3..], StepValues(b)[3..]);
    ComponentIff(a.component, b.component);
    LifecycleIff(a.lifecycle, b.lifecycle);
    FlagIff(a.explicitDraftOptIn, b.explicitDraftOptIn);
    InputIff(a.dataset, b.dataset);
  }

  lemma {:induction false} StepIff(a: PlanStep, b: PlanStep)
    ensures Equiv(StepProjection(a), StepProjection(b)) <==> SameStep(a, b)
  {
    StepNames();
    var x, y := StepValues(a), StepValues(b);
    FieldsIff(STEP_NAMES, x, y);
    assert x == x[..3] + x[3..] && y == y[..3] + y[3..];
    AllEquivAppend(x[..3], y[..3], x[3..], y[3..]);
    StepNamesIff(a, b);
    StepBindingsIff(a, b);
  }

  lemma {:induction false} TextsIff(a: seq<Text>, b: seq<Text>)
    ensures Equiv(Texts(a), Texts(b)) <==> a == b
  {
    var x: seq<Value> := seq(|a|, i requires 0 <= i < |a| => Str(a[i]));
    var y: seq<Value> := seq(|b|, i requires 0 <= i < |b| => Str(b[i]));
    ListIff(x, y);
    forall i | 0 <= i < |a| && i < |b| ensures Equiv(x[i], y[i]) <==> a[i] == b[i] {
      TextIff(a[i], b[i]);
    }
  }

  lemma {:induction false} PlanHeadIff(p: AnalysisPlan, q: AnalysisPlan)
    ensures AllEquiv(PlanHead(p), PlanHead(q)) <==>
              && p.protocolVersion == q.protocolVersion && p.planId == q.planId && p.revision == q.revision
              && p.parentPlanHash == q.parentPlanHash && p.objective == q.objective
  {
    AllEquivOf6(PlanHead(p), PlanHead(q));
    WholeIff(1, 1);
    TextIff(p.protocolVersion, q.protocolVersion);
    TextIff(p.planId, q.planId);
    WholeIff(p.revision, q.revision);
    OptionalIff(p.parentPlanHash, q.parentPlanHash);
    TextIff(p.objective, q.objective);
  }

  lemma {:induction false} PlanBodyIff(p: AnalysisPlan, q: AnalysisPlan)
    ensures AllEquiv(PlanBody(p), PlanBody(q)) <==>
              && SameQuestions(p.resolvedQuestions, q.resolvedQuestions) && SameStep(p.step, q.step)
              && p.expectedOutputs == q.expectedOutputs && p.stopConditions == q.stopConditions
              && p.executionPolicyHash == q.executionPolicyHash
  {
    AllEquivOf5(PlanBody(p), PlanBody(q));
    QuestionsIff(p.resolvedQuestions, q.resolvedQuestions);
    StepIff(p.step, q.step);
    TextsIff(p.expectedOutputs, q.expectedOutputs);
    TextsIff(p.stopConditions, q.stopConditions);
    TextIff(p.executionPolicyHash, q.executionPolicyHash);
  }

  /** The projection that is hashed is canonically equal exactly for plans of the same meaning. */
  lemma {:induction false} PlanIff(p: AnalysisPlan, q: AnalysisPlan)
    ensures Equiv(PlanProjection(p), PlanProjection(q)) <==> SameMeaning(p, q)
  {
    PlanNames();
    FieldsIff(PLAN_NAMES, PlanHead(p) + PlanBody(p), PlanHead(q) + PlanBody(q));
    AllEquivAppend(PlanHead(p), PlanHead(q), PlanBody(p), PlanBody(q));
    PlanHeadIff(p, q);
    PlanBodyIff(p, q);
  }

  /** Plan hashes are equal exactly for plans of the same meaning. */
  lemma {:induction false} PlanHashIff(sha256: Bytes -> Text, p: AnalysisPlan, q: AnalysisPlan)
    requires CollisionFree(sha256) && PlanHash(sha256, p).Some?
    ensures PlanHash(sha256, p) == PlanHash(sha256, q) <==> SameMeaning(p, q)
  {
    SameDomainIffEquiv(sha256, PlanProjection(p), PlanProjection(q), Lit("managed.analysis_plan.v1"));
    PlanIff(p, q);
  }

  lemma {:induction false} BodyOfPlan(p: AnalysisPlan)
    ensures var values := PlanHead(p) + PlanBody(p);
      && values[6] == QuestionsProjection(p.resolvedQuestions)
      && values[7] == StepProjection(p.step)
      && values[10] == Str(p.executionPolicyHash)
  {
    var values := PlanHead(p) + PlanBody(p);
    assert values[6] == PlanBody(p)[0] && values[7] == PlanBody(p)[1] && values[10] == PlanBody(p)[4];
  }

  /** The same plan but for the times at which its questions were resolved. */
  ghost predicate SameButTimes(p: AnalysisPlan, q: AnalysisPlan) {
    && q == p.(resolvedQuestions := q.resolvedQuestions)
    && |p.resolvedQuestions| == |q.resolvedQuestions|
    && forall i :: 0 <= i < |p.resolvedQuestions| ==>
         q.resolvedQuestions[i] == p.resolvedQuestions[i].(resolvedAt := q.resolvedQuestions[i].resolvedAt)
  }

  lemma {:induction false} TimesAreNotMeaning(p: AnalysisPlan, q: AnalysisPlan)
    requires SameButTimes(p, q)
    ensures PlanProjection(p) == PlanProjection(q)
  {
    var a, b := p.resolvedQuestions, q.resolvedQuestions;
    assert forall i :: 0 <= i < |a| ==> QuestionProjection(a[i]) == QuestionProjection(b[i]);
    assert QuestionsProjection(a).items == QuestionsProjection(b).items;
  }
}
