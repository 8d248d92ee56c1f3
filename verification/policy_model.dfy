/** The policy contract of internal/policy/model: conditions, snapshots, inputs and results. */
module PolicyModel {
  import opened Wrappers

  /** A UUID, as the 128-bit number its text spells in hexadecimal; uuid.Nil is zero. */
  type Uuid = nat

  const NIL_UUID: Uuid := 0

  /** A decoded JSON value; equality is reflect.DeepEqual on such values. */
  datatype Json =
    | JNull
    | JBool(truth: bool)
    | JNumber(number: real)
    | JString(text: string)
    | JArray(items: seq<Json>)
    | JObject(fields: map<string, Json>)

  datatype Effect = Allow | Deny | OtherEffect(text: string)

  datatype Status = Draft | Published | Disabled | Archived

  datatype AuthorizationType = Api | Data | OtherAuthorization(text: string)

  datatype Source = FromSubject | FromResource | FromRequest | FromContext | Literal | OtherSource(text: string)

  datatype ValueType =
    | StringType | NumberType | BooleanType | StringListType | NumberListType | OtherValueType(text: string)

  datatype Operator = Eq | Neq | In | NotIn | Includes | Exists | OtherOperator(text: string)

  datatype ValueRef = ValueRef(source: Source, path: string, valueType: ValueType, value: Json)

  datatype Comparison = Comparison(left: ValueRef, op: Operator, right: Option<ValueRef>)

  /** A node of the condition tree. Any of the four parts may be present; validation demands exactly one. */
  datatype Condition = Condition(
    all: seq<Condition>, any: seq<Condition>, not: Option<Condition>, comparison: Option<Comparison>)

  datatype Snapshot = Snapshot(
    policyID: Uuid, version: int, authorizationType: AuthorizationType, serviceResource: string,
    effect: Effect, priority: int, roleIDs: seq<string>, endpointIDs: seq<Uuid>, condition: Option<Condition>)

  datatype TargetKind = ApiEndpoint | OtherTarget(text: string)

  datatype ActionKind = Http | OtherAction(text: string)

  datatype Subject = Subject(id: string, roleIDs: seq<string>, attributes: map<string, Json>)

  datatype Resource = Resource(kind: TargetKind, endpointID: Uuid, attributes: map<string, Json>)

  datatype Action = Action(kind: ActionKind, method_: string)

  datatype Input = Input(
    authorizationType: AuthorizationType, serviceResource: string, tenantID: string,
    subject: Subject, action: Action, resource: Resource, context: map<string, Json>)

  datatype Decision = DecisionAllow | DecisionDeny

  datatype ReasonCode =
    | AllowedByPolicy | ExplicitDeny | DefaultDeny | ScopeMismatch | EndpointDisabled | InvalidInput

  datatype EvalResult = EvalResult(
    decision: Decision, reason: ReasonCode, matchedPolicyIDs: seq<Uuid>, snapshotVersion: int)
}
