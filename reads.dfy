/**
 * The read entry points: Execute, ExecuteScalar, Exists, Count, Select, grouped Select
 * and Get. None of them checks a capability flag; each authorizes first.
 */
module Reads {
  import opened Wrappers
  import opened Errors
  import opened Conditions
  import opened Methods
  import opened Service
  import Keys
  import Events
  import Text

  /** A procedure result with the output parameters the storage filled in. */
  datatype Executed<T> = Executed(value: T, outParameters: Record)

  /** What Get returns: one entity (or none) on the single-row path, the result set otherwise. */
  datatype Fetched = Entity(record: Option<Record>, paginator: Option<Paginator>) | Many(rows: Rows)

  /** Execute<T>(name, inParameters, out outParameters, state). */
  function Execute(svc: Service, principal: Option<Principal>, procedure: string, inParameters: Record, state: Value): (r: Run<Executed<Rows>>)
    ensures Follows(r.trace, [Authorized(Method.Execute())])
    ensures Stores(r.trace) <==> svc.hooks.authorize(principal, Method.Execute(), state).Pass?
    ensures Stores(r.trace) ==>
      && LastCall(r.trace) == StorageCall(ExecuteRequest(procedure, inParameters, state), Events.Execute)
      && r.result == Success(Executed(svc.storage.rows(LastCall(r.trace)), svc.storage.outParameters(LastCall(r.trace))))
    ensures !Stores(r.trace) ==> r.result == Failure(svc.hooks.authorize(principal, Method.Execute(), state).error)
  {
    match svc.hooks.authorize(principal, Method.Execute(), state)
    case Fail(e) => Run([Authorized(Method.Execute())], Failure(e))
    case Pass =>
      var call := StorageCall(ExecuteRequest(procedure, inParameters, state), Events.Execute);
      Run([Authorized(Method.Execute()), Stored(call)], Success(Executed(svc.storage.rows(call), svc.storage.outParameters(call))))
  }

  /** ExecuteScalar(name, inParameters, out outParameters, state): authorized, like Execute, as Method.Execute(). */
  function ExecuteScalar(svc: Service, principal: Option<Principal>, procedure: string, inParameters: Record, state: Value): (r: Run<Executed<Value>>)
    ensures Follows(r.trace, [Authorized(Method.Execute())])
    ensures Stores(r.trace) <==> svc.hooks.authorize(principal, Method.Execute(), state).Pass?
    ensures Stores(r.trace) ==>
      && LastCall(r.trace) == StorageCall(ExecuteScalarRequest(procedure, inParameters, state), Events.Execute)
      && r.result == Success(Executed(svc.storage.scalar(LastCall(r.trace)), svc.storage.outParameters(LastCall(r.trace))))
    ensures !Stores(r.trace) ==> r.result == Failure(svc.hooks.authorize(principal, Method.Execute(), state).error)
  {
    match svc.hooks.authorize(principal, Method.Execute(), state)
    case Fail(e) => Run([Authorized(Method.Execute())], Failure(e))
    case Pass =>
      var call := StorageCall(ExecuteScalarRequest(procedure, inParameters, state), Events.Execute);
      Run([Authorized(Method.Execute()), Stored(call)], Success(Executed(svc.storage.scalar(call), svc.storage.outParameters(call))))
  }

  /** Exists(condition, state). */
  function Exists(svc: Service, principal: Option<Principal>, condition: Option<Condition>, state: Value): (r: Run<bool>)
    ensures Follows(r.trace, [Authorized(Method.Exists()), ConditionValidated(Method.Exists())])
    ensures Stores(r.trace) <==> Admitted(svc, principal, Method.Exists(), condition, state)
    ensures Stores(r.trace) ==>
      && LastCall(r.trace) == StorageCall(ExistsRequest(svc.name, Validated(svc, Method.Exists(), condition), state), Events.Exists)
      && r.result == Success(svc.storage.flag(LastCall(r.trace)))
    ensures !Stores(r.trace) ==>
      r == Run(GateTrace(svc, principal, Method.Exists(), condition, state), Failure(GateError(svc, principal, Method.Exists(), condition, state)))
  {
    var m := Method.Exists();
    match svc.hooks.authorize(principal, m, state)
    case Fail(e) => Run([Authorized(m)], Failure(e))
    case Pass =>
      match svc.hooks.validateCondition(m, condition)
      case Failure(e) => Run([Authorized(m), ConditionValidated(m)], Failure(e))
      case Success(c) =>
        var call := StorageCall(ExistsRequest(svc.name, c, state), Events.Exists);
        Run([Authorized(m), ConditionValidated(m), Stored(call)], Success(svc.storage.flag(call)))
  }

  /** Exists(key1[, key2[, key3]], state): the keys become a condition before anything else happens. */
  function ExistsByKey(svc: Service, principal: Option<Principal>, keys: seq<Value>, state: Value): (r: Run<bool>)
    requires 1 <= |keys| <= 3
    ensures Keys.ConvertKey(keys, svc.hooks.getKey).Failure? ==>
      r == Run([KeyConverted], Failure(Keys.ConvertKey(keys, svc.hooks.getKey).error))
    ensures Keys.ConvertKey(keys, svc.hooks.getKey).Success? ==>
      r == After(KeyConverted, Exists(svc, principal, Keys.ConvertKey(keys, svc.hooks.getKey).value.condition, state))
  {
    match Keys.ConvertKey(keys, svc.hooks.getKey)
    case Failure(e) => Run([KeyConverted], Failure(e))
    case Success(res) => After(KeyConverted, Exists(svc, principal, res.condition, state))
  }

  /** Count(condition, member, state). */
  function Count(svc: Service, principal: Option<Principal>, condition: Option<Condition>, member: string, state: Value): (r: Run<int>)
    ensures Follows(r.trace, [Authorized(Method.Count()), ConditionValidated(Method.Count())])
    ensures Stores(r.trace) <==> Admitted(svc, principal, Method.Count(), condition, state)
    ensures Stores(r.trace) ==>
      && LastCall(r.trace) == StorageCall(CountRequest(svc.name, Validated(svc, Method.Count(), condition), member, state), Events.Count)
      && r.result == Success(svc.storage.number(LastCall(r.trace)))
    ensures !Stores(r.trace) ==>
      r == Run(GateTrace(svc, principal, Method.Count(), condition, state), Failure(GateError(svc, principal, Method.Count(), condition, state)))
  {
    var m := Method.Count();
    match svc.hooks.authorize(principal, m, state)
    case Fail(e) => Run([Authorized(m)], Failure(e))
    case Pass =>
      match svc.hooks.validateCondition(m, condition)
      case Failure(e) => Run([Authorized(m), ConditionValidated(m)], Failure(e))
      case Success(c) =>
        var call := StorageCall(CountRequest(svc.name, c, member, state), Events.Count);
        Run([Authorized(m), ConditionValidated(m), Stored(call)], Success(svc.storage.number(call)))
  }

  /** Select(condition, schema, paging, state, sortings): parsed against the entity type, with the Selecting/Selected events. */
  function Select(svc: Service, principal: Option<Principal>, condition: Option<Condition>, schema: string,
                  paging: Option<Paging>, sortings: seq<Sorting>, state: Value): (r: Run<Rows>)
    ensures Follows(r.trace, [Authorized(Method.Select(None)), ConditionValidated(Method.Select(None))])
    ensures Stores(r.trace) <==> Admitted(svc, principal, Method.Select(None), condition, state)
    ensures Stores(r.trace) ==>
      && LastCall(r.trace) == StorageCall(
           SelectRequest(svc.name, Validated(svc, Method.Select(None), condition),
                         GetSchema(svc, schema, Some(svc.entityType)), paging, Some(sortings), state),
           Events.Select)
      && r.result == Success(svc.storage.rows(LastCall(r.trace)))
    ensures !Stores(r.trace) ==>
      r == Run(GateTrace(svc, principal, Method.Select(None), condition, state), Failure(GateError(svc, principal, Method.Select(None), condition, state)))
  {
    var m := Method.Select(None);
    match svc.hooks.authorize(principal, m, state)
    case Fail(e) => Run([Authorized(m)], Failure(e))
    case Pass =>
      match svc.hooks.validateCondition(m, condition)
      case Failure(e) => Run([Authorized(m), ConditionValidated(m)], Failure(e))
      case Success(c) =>
        var call := StorageCall(
          SelectRequest(svc.name, c, GetSchema(svc, schema, Some(svc.entityType)), paging, Some(sortings), state),
          Events.Select);
        Run([Authorized(m), ConditionValidated(m), Stored(call)], Success(svc.storage.rows(call)))
  }

  /** Select<T>(grouping, condition, schema, paging, state, sortings): authorized and validated as a plain Select. */
  function SelectGrouped(svc: Service, principal: Option<Principal>, grouping: Grouping, condition: Option<Condition>,
                         schema: string, paging: Option<Paging>, sortings: seq<Sorting>, state: Value): (r: Run<Rows>)
    ensures Follows(r.trace, [Authorized(Method.Select(None)), ConditionValidated(Method.Select(None))])
    ensures Stores(r.trace) <==> Admitted(svc, principal, Method.Select(None), condition, state)
    ensures Stores(r.trace) ==>
      && LastCall(r.trace) == StorageCall(
           GroupedSelectRequest(svc.name, grouping, Validated(svc, Method.Select(None), condition),
                                GetSchema(svc, schema, Some(svc.entityType)), paging, Some(sortings), state),
           Events.Select)
      && r.result == Success(svc.storage.rows(LastCall(r.trace)))
    ensures !Stores(r.trace) ==>
      r == Run(GateTrace(svc, principal, Method.Select(None), condition, state), Failure(GateError(svc, principal, Method.Select(None), condition, state)))
  {
    var m := Method.Select(None);
    match svc.hooks.authorize(principal, m, state)
    case Fail(e) => Run([Authorized(m)], Failure(e))
    case Pass =>
      match svc.hooks.validateCondition(m, condition)
      case Failure(e) => Run([Authorized(m), ConditionValidated(m)], Failure(e))
      case Success(c) =>
        var call := StorageCall(
          GroupedSelectRequest(svc.name, grouping, c, GetSchema(svc, schema, Some(svc.entityType)), paging, Some(sortings), state),
          Events.Select);
        Run([Authorized(m), ConditionValidated(m), Stored(call)], Success(svc.storage.rows(call)))
  }

  /** LINQ FirstOrDefault on a result set: its first record, or null when it is empty. */
  function FirstOrDefault(items: seq<Record>): (r: Option<Record>)
    ensures r.None? <==> items == []
    ensures r.Some? ==> r.value == items[0]
  {
    if items == [] then None else Some(items[0])
  }

  /**
   * OnGet(condition, schema, state, out paginator): a Select with no paging and no sortings,
   * wired to the Getting/Getted events, keeping only the first row.
   */
  function OnGet(svc: Service, condition: Option<Condition>, schema: Schema, state: Value): (r: (StorageCall, Fetched))
    ensures r.0 == StorageCall(SelectRequest(svc.name, condition, schema, None, None, state), Events.Get)
    ensures r.1.Entity?
    ensures r.1.record == FirstOrDefault(svc.storage.rows(r.0).items)
    ensures r.1.paginator == svc.storage.rows(r.0).paginator
  {
    var call := StorageCall(SelectRequest(svc.name, condition, schema, None, None, state), Events.Get);
    var rows := svc.storage.rows(call);
    (call, Entity(FirstOrDefault(rows.items), rows.paginator))
  }

  /** A Select run seen as a Get result. */
  function AsFetched(r: Run<Rows>): (s: Run<Fetched>)
    ensures s.trace == r.trace
    ensures s.result.Success? <==> r.result.Success?
    ensures s.result.Success? ==> s.result.value == Many(r.result.value)
    ensures s.result.Failure? ==> s.result.error == r.result.error
  {
    match r.result
    case Success(rows) => Run(r.trace, Success(Many(rows)))
    case Failure(e) => Run(r.trace, Failure(e))
  }

  /**
   * Get(key1[, key2[, key3]], schema, paging, state, out paginator, sortings): the keys are
   * converted first; a single-row key is authorized and validated as Method.Get() and read by OnGet,
   * any other key falls back to Select, which authorizes and validates as Method.Select().
   */
  function Get(svc: Service, principal: Option<Principal>, keys: seq<Value>, schema: string,
               paging: Option<Paging>, sortings: seq<Sorting>, state: Value): (r: Run<Fetched>)
    requires 1 <= |keys| <= 3
    ensures |r.trace| > 0 && r.trace[0] == KeyConverted
    ensures Keys.ConvertKey(keys, svc.hooks.getKey).Failure? ==>
      r == Run([KeyConverted], Failure(Keys.ConvertKey(keys, svc.hooks.getKey).error))
    ensures Keys.ConvertKey(keys, svc.hooks.getKey).Success? && Keys.ConvertKey(keys, svc.hooks.getKey).value.singleton ==>
      var c := Keys.ConvertKey(keys, svc.hooks.getKey).value.condition;
      && Follows(r.trace, [KeyConverted, Authorized(Method.Get()), ConditionValidated(Method.Get())])
      && (Stores(r.trace) <==> Admitted(svc, principal, Method.Get(), c, state))
      && (Stores(r.trace) ==>
            var read := OnGet(svc, Validated(svc, Method.Get(), c), GetSchema(svc, schema, None), state);
            LastCall(r.trace) == read.0 && r.result == Success(read.1))
      && (!Stores(r.trace) ==>
            r == Run([KeyConverted] + GateTrace(svc, principal, Method.Get(), c, state),
                     Failure(GateError(svc, principal, Method.Get(), c, state))))
    ensures Keys.ConvertKey(keys, svc.hooks.getKey).Success? && !Keys.ConvertKey(keys, svc.hooks.getKey).value.singleton ==>
      r == After(KeyConverted, AsFetched(Select(svc, principal, Keys.ConvertKey(keys, svc.hooks.getKey).value.condition,
                                                schema, paging, sortings, state)))
  {
    match Keys.ConvertKey(keys, svc.hooks.getKey)
    case Failure(e) => Run([KeyConverted], Failure(e))
    case Success(res) =>
      if res.singleton then
        var m := Method.Get();
        match svc.hooks.authorize(principal, m, state)
        case Fail(e) => Run([KeyConverted, Authorized(m)], Failure(e))
        case Pass =>
          match svc.hooks.validateCondition(m, res.condition)
          case Failure(e) => Run([KeyConverted, Authorized(m), ConditionValidated(m)], Failure(e))
          case Success(c) =>
            var read := OnGet(svc, c, GetSchema(svc, schema, None), state);
            Run([KeyConverted, Authorized(m), ConditionValidated(m), Stored(read.0)], Success(read.1))
      else
        After(KeyConverted, AsFetched(Select(svc, principal, res.condition, schema, paging, sortings, state)))
  }

  /**
   * A base service keyed on one field, asked to Get a comma-separated text naming several keys,
   * does not read a single row: it is the Select run over IN of those keys, with the conversion
   * step in front, so it is authorized and validated as Select.
   */
  lemma GetSeveralKeysSelects(svc: Service, principal: Option<Principal>, field: string, text: string,
                              schema: string, paging: Option<Paging>, sortings: seq<Sorting>, state: Value)
    requires svc.hooks == BaseHooks(Some([field]))
    requires Keys.MultiSegment(Str(text))
    ensures Get(svc, principal, [Str(text)], schema, paging, sortings, state)
      == After(KeyConverted, AsFetched(Select(svc, principal, Some(In(field, Strings(Text.KeySegments(text)))),
                                              schema, paging, sortings, state)))
  {
    Keys.SeveralSegmentsConvert(field, text);
    assert svc.hooks.getKey == Keys.BaseGetKey(Some([field]));
  }

  /** The base OnValidate leaves a Select's condition alone: the storage is asked with the very condition given. */
  lemma BaseSelectPassesCondition(svc: Service, principal: Option<Principal>, condition: Option<Condition>, schema: string,
                                  paging: Option<Paging>, sortings: seq<Sorting>, state: Value)
    requires svc.hooks == BaseHooks(svc.storage.primaryKey)
    ensures var r := Select(svc, principal, condition, schema, paging, sortings, state);
      Stores(r.trace) ==> LastCall(r.trace).request.condition == condition
  {
  }

  /** A base service keyed on one field reads one row, as Method.Get(), for a key value that is not text. */
  lemma GetOneKeyReadsOneRow(svc: Service, principal: Option<Principal>, field: string, key: Value,
                             schema: string, paging: Option<Paging>, sortings: seq<Sorting>, state: Value)
    requires svc.hooks == BaseHooks(Some([field]))
    requires !Keys.NonEmptyText(key)
    ensures var r := Get(svc, principal, [key], schema, paging, sortings, state);
      && |r.trace| >= 2 && r.trace[1] == Authorized(Method.Get())
      && (Stores(r.trace) ==>
            && LastCall(r.trace) == StorageCall(SelectRequest(svc.name, Some(Equal(field, key)),
                                                              GetSchema(svc, schema, None), None, None, state), Events.Get)
            && r.result.Success? && r.result.value.Entity?)
  {
    Keys.SingleFieldValue(field, key);
  }

  /** A key count that does not match the declared key makes Get fail with an invalid key, before authorization. */
  lemma GetArityMismatchIsInvalid(svc: Service, principal: Option<Principal>, keys: seq<Value>,
                                  schema: string, paging: Option<Paging>, sortings: seq<Sorting>, state: Value)
    requires 1 <= |keys| <= 3
    requires svc.hooks.getKey == Keys.BaseGetKey(svc.storage.primaryKey)
    requires !Keys.ArityMatches(keys, svc.storage.primaryKey)
    ensures Get(svc, principal, keys, schema, paging, sortings, state) == Run([KeyConverted], Failure(InvalidKey))
  {
    Keys.InquiryArityMismatch(keys, svc.storage.primaryKey);
  }

  /** Under the base Authorize, a caller with no credential reaches no storage through any read. */
  lemma AnonymousReadsNothing(svc: Service, condition: Option<Condition>, member: string, schema: string,
                              paging: Option<Paging>, sortings: seq<Sorting>, state: Value)
    requires svc.hooks.authorize == DefaultAuthorize
    ensures Count(svc, None, condition, member, state) == Run([Authorized(Method.Count())], Failure(Unauthorized))
    ensures Exists(svc, None, condition, state) == Run([Authorized(Method.Exists())], Failure(Unauthorized))
    ensures Select(svc, None, condition, schema, paging, sortings, state)
      == Run([Authorized(Method.Select(None))], Failure(Unauthorized))
  {
  }
}
