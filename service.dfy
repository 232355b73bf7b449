/**
 * The configuration a data service runs with, the storage interface it calls, and the
 * gates every entry point passes first: the capability flags, Authorize and OnValidate.
 * An entry point is a function from its arguments to a Run: the ordered steps it took
 * and its value or the exception that ended it.
 */
module Service {
  import opened Wrappers
  import opened Errors
  import opened Conditions
  import opened Methods
  import Keys
  import Events

  /** A field-name-to-value record, the model of a data dictionary's contents. */
  type Record = map<string, Value>

  datatype Credential = Credential(user: Option<string>)
  /** The ambient CredentialPrincipal, passed to each entry point explicitly. */
  datatype Principal = Principal(isAuthenticated: bool, credential: Option<Credential>)

  /** The virtual CanDelete, CanInsert, CanUpdate and CanUpsert properties. */
  datatype Capabilities = Capabilities(canDelete: bool, canInsert: bool, canUpdate: bool, canUpsert: bool)

  /** The protected virtual members a subclass may override, as functions. */
  datatype Hooks = Hooks(
    authorize: (Option<Principal>, Method, Value) -> Outcome<Error>,
    getKey: seq<Value> -> Result<Keys.Resolution, Error>,
    validateCondition: (Method, Option<Condition>) -> Result<Option<Condition>, Error>,
    validateData: (Method, Record) -> Result<Record, Error>)

  datatype Schema = Schema(entity: string, expression: string, entityType: string)
  datatype Paging = Paging(pageIndex: nat, pageSize: nat)
  datatype Sorting = Sorting(field: string, descending: bool)
  datatype Grouping = Grouping(keys: seq<string>)
  datatype Paginator = Paginator(paging: Paging, totalCount: nat)
  /** A result set; `paginator` is the `result as IPaginator` view of it, if it has one. */
  datatype Rows = Rows(items: seq<Record>, paginator: Option<Paginator>)
  /** An entity object handed to Insert or Update, with its runtime type name. */
  datatype Data = Data(fields: Record, typeName: string)
  /** A collection handed to InsertMany or UpdateMany, with its element type name. */
  datatype Items = Items(elements: seq<Record>, elementType: string)

  /** The arguments of one IDataAccess call. */
  datatype Request =
    | ExecuteRequest(procedure: string, inParameters: Record, state: Value)
    | ExecuteScalarRequest(procedure: string, inParameters: Record, state: Value)
    | ExistsRequest(entity: string, condition: Option<Condition>, state: Value)
    | CountRequest(entity: string, condition: Option<Condition>, member: string, state: Value)
    | IncrementRequest(entity: string, member: string, condition: Option<Condition>, interval: int, state: Value)
    | DeleteRequest(entity: string, filter: Condition, schema: Schema, state: Value)
    | InsertRequest(entity: string, data: Record, schema: Schema, state: Value)
    | InsertManyRequest(entity: string, items: seq<Record>, schema: Schema, state: Value)
    | UpdateRequest(entity: string, data: Record, condition: Option<Condition>, schema: Schema, state: Value)
    | UpdateManyRequest(entity: string, items: seq<Record>, schema: Schema, state: Value)
    | SelectRequest(entity: string, condition: Option<Condition>, schema: Schema,
                    paging: Option<Paging>, sortings: Option<seq<Sorting>>, state: Value)
    | GroupedSelectRequest(entity: string, grouping: Grouping, condition: Option<Condition>, schema: Schema,
                           paging: Option<Paging>, sortings: Option<seq<Sorting>>, state: Value)

  /** A storage call: the request and which OnXxxing/OnXxxed pair is passed as its callbacks. */
  datatype StorageCall = StorageCall(request: Request, events: Events.EventKind)

  /** IDataAccess as seen from the service: its declared key and the answers it gives. */
  datatype Storage = Storage(
    primaryKey: Option<seq<string>>,
    rows: StorageCall -> Rows,
    scalar: StorageCall -> Value,
    outParameters: StorageCall -> Record,
    flag: StorageCall -> bool,
    number: StorageCall -> int)

  datatype Service = Service(
    name: string, entityType: string, capabilities: Capabilities, hooks: Hooks, storage: Storage)

  /** One observable step of an entry point, in the order taken. */
  datatype Step =
    | CapabilityChecked(capability: Capability)
    | Authorized(operation: Method)
    | KeyConverted
    | ConditionValidated(operation: Method)
    | DataValidated(operation: Method)
    | Stored(call: StorageCall)

  datatype Run<T> = Run(trace: seq<Step>, result: Result<T, Error>)

  /** The run ended by calling the storage. */
  predicate Stores(trace: seq<Step>) {
    |trace| > 0 && trace[|trace| - 1].Stored?
  }

  function LastCall(trace: seq<Step>): StorageCall
    requires Stores(trace)
  {
    trace[|trace| - 1].call
  }

  /**
   * The steps are a non-empty prefix of `plan`, and a storage call comes, as the very last
   * step, only after the whole plan.
   */
  predicate Follows(trace: seq<Step>, plan: seq<Step>) {
    || (0 < |trace| <= |plan| && trace == plan[..|trace|])
    || (|trace| == |plan| + 1 && trace[..|plan|] == plan && trace[|plan|].Stored?)
  }

  /** A run with one more step in front. */
  function After<T>(step: Step, r: Run<T>): (s: Run<T>)
    requires !step.Stored?
    ensures s.trace == [step] + r.trace && s.result == r.result
    ensures Stores(s.trace) <==> Stores(r.trace)
    ensures Stores(r.trace) ==> LastCall(s.trace) == LastCall(r.trace)
  {
    var s := Run([step] + r.trace, r.result);
    assert |r.trace| > 0 ==> s.trace[|s.trace| - 1] == r.trace[|r.trace| - 1];
    s
  }

  /** A step in front of a run that follows a plan follows the plan with that step in front. */
  lemma FollowsAfter(step: Step, trace: seq<Step>, plan: seq<Step>)
    requires Follows(trace, plan)
    ensures Follows([step] + trace, [step] + plan)
  {
    if |trace| <= |plan| {
      assert ([step] + plan)[..|trace| + 1] == [step] + plan[..|trace|];
    } else {
      assert ([step] + trace)[..|plan| + 1] == [step] + trace[..|plan|];
    }
  }

  /** The Credential property: the credential of an authenticated principal, if it has one. */
  function CredentialOf(principal: Option<Principal>): (r: Option<Credential>)
    ensures r.Some? ==> principal.Some? && principal.value.isAuthenticated
    ensures principal.Some? && principal.value.isAuthenticated ==> r == principal.value.credential
  {
    if principal.Some? && principal.value.isAuthenticated then principal.value.credential else None
  }

  /** The base Authorize: any method, any state, passes exactly when a credential with a user is present. */
  function DefaultAuthorize(principal: Option<Principal>, operation: Method, state: Value): (r: Outcome<Error>)
    ensures r.Fail? ==> r.error == Unauthorized
    ensures r.Pass? <==>
      && principal.Some? && principal.value.isAuthenticated
      && principal.value.credential.Some? && principal.value.credential.value.user.Some?
  {
    var credential := CredentialOf(principal);
    if credential.None? || credential.value.user.None? then Fail(Unauthorized) else Pass
  }

  /** The base class's overridable members: Authorize, GetKey over the declared key, and both OnValidates as identity. */
  function BaseHooks(primaryKey: Option<seq<string>>): Hooks
  {
    Hooks(DefaultAuthorize, Keys.BaseGetKey(primaryKey), (m, c) => Success(c), (m, d) => Success(d))
  }

  /** The base OnValidate overloads return the condition and leave the data as it is. */
  lemma BaseValidationIsIdentity(primaryKey: Option<seq<string>>, m: Method, c: Option<Condition>, d: Record)
    ensures BaseHooks(primaryKey).validateCondition(m, c) == Success(c)
    ensures BaseHooks(primaryKey).validateData(m, d) == Success(d)
    ensures BaseHooks(primaryKey).authorize == DefaultAuthorize
  {
  }

  /** The capability flag for one operation. */
  function Can(capabilities: Capabilities, c: Capability): bool
  {
    match c
    case Delete => capabilities.canDelete
    case Insert => capabilities.canInsert
    case Update => capabilities.canUpdate
    case Upsert => capabilities.canUpsert
  }

  /** EnsureDelete, EnsureInsert, EnsureUpdate and EnsureUpsert: refused exactly when the flag is off. */
  function EnsureCapability(capabilities: Capabilities, c: Capability): (r: Outcome<Error>)
    ensures r.Fail? <==> !Can(capabilities, c)
    ensures r.Fail? ==> r.error == NotAllowed(c)
  {
    if Can(capabilities, c) then Pass else Fail(NotAllowed(c))
  }

  /** The base flags are all on, so the base service refuses nothing. */
  const BaseCapabilities := Capabilities(true, true, true, true)

  lemma BaseAllowsEverything(c: Capability)
    ensures EnsureCapability(BaseCapabilities, c) == Pass
  {
  }

  /** GetSchema(expression, type): the expression parsed for this entity, the entity type when no type is given. */
  function GetSchema(svc: Service, expression: string, entityType: Option<string>): (r: Schema)
    ensures r.entity == svc.name && r.expression == expression
    ensures r.entityType == if entityType.Some? then entityType.value else svc.entityType
  {
    Schema(svc.name, expression, if entityType.Some? then entityType.value else svc.entityType)
  }

  /** Authorize and then OnValidate(condition) both passed for this method. */
  predicate Admitted(svc: Service, principal: Option<Principal>, m: Method, condition: Option<Condition>, state: Value) {
    svc.hooks.authorize(principal, m, state).Pass? && svc.hooks.validateCondition(m, condition).Success?
  }

  /** The condition as OnValidate returned it. */
  function Validated(svc: Service, m: Method, condition: Option<Condition>): Option<Condition>
    requires svc.hooks.validateCondition(m, condition).Success?
  {
    svc.hooks.validateCondition(m, condition).value
  }

  /** The exception of the first gate that failed: Authorize's when it failed, else OnValidate's. */
  function GateError(svc: Service, principal: Option<Principal>, m: Method, condition: Option<Condition>, state: Value): Error
    requires !Admitted(svc, principal, m, condition, state)
  {
    match svc.hooks.authorize(principal, m, state)
    case Fail(e) => e
    case Pass => svc.hooks.validateCondition(m, condition).error
  }

  /** The steps taken up to the first gate that failed: OnValidate runs only once Authorize has passed. */
  function GateTrace(svc: Service, principal: Option<Principal>, m: Method, condition: Option<Condition>, state: Value): seq<Step>
    requires !Admitted(svc, principal, m, condition, state)
  {
    if svc.hooks.authorize(principal, m, state).Fail? then [Authorized(m)] else [Authorized(m), ConditionValidated(m)]
  }
}
