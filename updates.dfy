/**
 * Update(data, condition, schema, state) and its keyed overloads. With an explicit condition,
 * the key values the condition matches are copied into the data dictionary; without one,
 * the condition is built from the dictionary's key values.
 */
module Updates {
  import opened Wrappers
  import opened Errors
  import opened Conditions
  import opened Methods
  import opened Service
  import opened Dictionaries
  import Keys
  import Events

  /**
   * The dictionary and the condition Update hands to OnValidate: an explicit condition with
   * its matched key values mirrored into the dictionary (after walking a null key array
   * fails), or the implicit condition EnsureUpdateCondition builds.
   */
  function Prepare(primaryKey: Option<seq<string>>, fields: Record, condition: Option<Condition>): (r: Result<(Record, Condition), Error>)
    ensures condition.Some? ==> (r.Failure? <==> primaryKey.None?)
    ensures condition.Some? && r.Success? ==> r.value.1 == condition.value
    ensures condition.Some? && primaryKey.Some? ==>
      r == Success((Keys.Mirrored(fields, condition.value, primaryKey.value), condition.value))
    ensures condition.None? ==> (r.Success? <==> Keys.UpdateCondition(fields, primaryKey).Success?)
    ensures condition.None? && r.Success? ==> r.value == (fields, Keys.UpdateCondition(fields, primaryKey).value)
    ensures condition.None? && r.Failure? ==> r.error == Keys.UpdateCondition(fields, primaryKey).error
    ensures r.Failure? ==> r.error in {NullReference, MissingPrimaryKey, IndexOutOfRange}
  {
    match condition
    case None =>
      (match Keys.UpdateCondition(fields, primaryKey)
       case Failure(e) => Failure(e)
       case Success(c) => Success((fields, c)))
    case Some(c) =>
      if primaryKey.None? then Failure(NullReference)
      else Success((Keys.Mirrored(fields, c, primaryKey.value), c))
  }

  function UpdatePlan(): seq<Step>
  {
    [CapabilityChecked(Capability.Update), Authorized(Method.Update()),
     ConditionValidated(Method.Update()), DataValidated(Method.Update())]
  }

  /** The specification of Update(data, condition, schema, state). */
  function UpdateRun(svc: Service, principal: Option<Principal>, data: Data, condition: Option<Condition>,
                     schema: string, state: Value): (r: Run<int>)
    ensures Follows(r.trace, UpdatePlan())
    ensures !svc.capabilities.canUpdate ==>
      r == Run([CapabilityChecked(Capability.Update)], Failure(NotAllowed(Capability.Update)))
    ensures svc.capabilities.canUpdate && svc.hooks.authorize(principal, Method.Update(), state).Fail? ==>
      r == Run(UpdatePlan()[..2], Failure(svc.hooks.authorize(principal, Method.Update(), state).error))
    ensures svc.capabilities.canUpdate && svc.hooks.authorize(principal, Method.Update(), state).Pass? ==>
      var p := Prepare(svc.storage.primaryKey, data.fields, condition);
      && (p.Failure? ==> r == Run(UpdatePlan()[..2], Failure(p.error)))
      && (p.Success? && svc.hooks.validateCondition(Method.Update(), Some(p.value.1)).Failure? ==>
            r == Run(UpdatePlan()[..3], Failure(svc.hooks.validateCondition(Method.Update(), Some(p.value.1)).error)))
      && (p.Success? && svc.hooks.validateCondition(Method.Update(), Some(p.value.1)).Success?
          && svc.hooks.validateData(Method.Update(), p.value.0).Failure? ==>
            r == Run(UpdatePlan(), Failure(svc.hooks.validateData(Method.Update(), p.value.0).error)))
    ensures Stores(r.trace) <==>
      && svc.capabilities.canUpdate && svc.hooks.authorize(principal, Method.Update(), state).Pass?
      && Prepare(svc.storage.primaryKey, data.fields, condition).Success?
      && var p := Prepare(svc.storage.primaryKey, data.fields, condition).value;
      && svc.hooks.validateCondition(Method.Update(), Some(p.1)).Success?
      && svc.hooks.validateData(Method.Update(), p.0).Success?
    ensures Stores(r.trace) ==>
      && svc.capabilities.canUpdate && svc.hooks.authorize(principal, Method.Update(), state).Pass?
      && Prepare(svc.storage.primaryKey, data.fields, condition).Success?
      && var p := Prepare(svc.storage.primaryKey, data.fields, condition).value;
      && svc.hooks.validateCondition(Method.Update(), Some(p.1)).Success?
      && svc.hooks.validateData(Method.Update(), p.0).Success?
      && LastCall(r.trace) == StorageCall(
           UpdateRequest(svc.name, svc.hooks.validateData(Method.Update(), p.0).value,
                         svc.hooks.validateCondition(Method.Update(), Some(p.1)).value,
                         GetSchema(svc, schema, Some(data.typeName)), state),
           Events.Update)
      && r.result == Success(svc.storage.number(LastCall(r.trace)))
    ensures !Stores(r.trace) ==> r.result.Failure?
  {
    var m := Method.Update();
    var gates := [CapabilityChecked(Capability.Update), Authorized(m)];
    if !svc.capabilities.canUpdate then Run([CapabilityChecked(Capability.Update)], Failure(NotAllowed(Capability.Update)))
    else
      match svc.hooks.authorize(principal, m, state)
      case Fail(e) => Run(gates, Failure(e))
      case Pass =>
        match Prepare(svc.storage.primaryKey, data.fields, condition)
        case Failure(e) => Run(gates, Failure(e))
        case Success(p) =>
          match svc.hooks.validateCondition(m, Some(p.1))
          case Failure(e) => Run(gates + [ConditionValidated(m)], Failure(e))
          case Success(c) =>
            match svc.hooks.validateData(m, p.0)
            case Failure(e) => Run(gates + [ConditionValidated(m), DataValidated(m)], Failure(e))
            case Success(d) =>
              var call := StorageCall(UpdateRequest(svc.name, d, c, GetSchema(svc, schema, Some(data.typeName)), state), Events.Update);
              Run(UpdatePlan() + [Stored(call)], Success(svc.storage.number(call)))
  }

  /**
   * Update's condition preparation on a data dictionary built from the data: the matched key
   * values are written into it in place, or the implicit condition is read from it.
   */
  method PrepareInPlace(primaryKey: Option<seq<string>>, fields: Record, condition: Option<Condition>)
    returns (p: Result<(Record, Condition), Error>)
    ensures p == Prepare(primaryKey, fields, condition)
  {
    var dictionary := new DataDictionary(fields);
    if condition.Some? {
      if primaryKey.None? {
        return Failure(NullReference);
      }
      Keys.MirrorKeys(dictionary, condition.value, primaryKey.value);
      return Success((dictionary.entries, condition.value));
    }
    var implicit := Keys.EnsureUpdateCondition(dictionary, primaryKey);
    if implicit.Failure? {
      return Failure(implicit.error);
    }
    return Success((dictionary.entries, implicit.value));
  }

  /** Update(data, condition, schema, state), working on a data dictionary in place. */
  method Update(svc: Service, principal: Option<Principal>, data: Data, condition: Option<Condition>,
                schema: string, state: Value) returns (r: Run<int>)
    ensures r == UpdateRun(svc, principal, data, condition, schema, state)
  {
    var m := Method.Update();
    if !svc.capabilities.canUpdate {
      return Run([CapabilityChecked(Capability.Update)], Failure(NotAllowed(Capability.Update)));
    }
    var trace := [CapabilityChecked(Capability.Update), Authorized(m)];
    var authorized := svc.hooks.authorize(principal, m, state);
    if authorized.Fail? {
      return Run(trace, Failure(authorized.error));
    }
    var prepared := PrepareInPlace(svc.storage.primaryKey, data.fields, condition);
    if prepared.Failure? {
      return Run(trace, Failure(prepared.error));
    }
    var (entries, target) := prepared.value;
    trace := trace + [ConditionValidated(m)];
    var validCondition := svc.hooks.validateCondition(m, Some(target));
    if validCondition.Failure? {
      return Run(trace, Failure(validCondition.error));
    }
    trace := trace + [DataValidated(m)];
    var validData := svc.hooks.validateData(m, entries);
    if validData.Failure? {
      return Run(trace, Failure(validData.error));
    }
    var call := StorageCall(
      UpdateRequest(svc.name, validData.value, validCondition.value, GetSchema(svc, schema, Some(data.typeName)), state),
      Events.Update);
    return Run(trace + [Stored(call)], Success(svc.storage.number(call)));
  }

  /**
   * Update(data, key1[, key2[, key3]], schema, state): the key is converted before the capability
   * check, so a bad key is reported even by a service that does not allow updates.
   */
  method UpdateByKey(svc: Service, principal: Option<Principal>, data: Data, keys: seq<Value>,
                     schema: string, state: Value) returns (r: Run<int>)
    requires 1 <= |keys| <= 3
    ensures Keys.ConvertKey(keys, svc.hooks.getKey).Failure? ==>
      r == Run([KeyConverted], Failure(Keys.ConvertKey(keys, svc.hooks.getKey).error))
    ensures Keys.ConvertKey(keys, svc.hooks.getKey).Success? ==>
      r == After(KeyConverted, UpdateRun(svc, principal, data, Keys.ConvertKey(keys, svc.hooks.getKey).value.condition, schema, state))
  {
    var converted := Keys.ConvertKey(keys, svc.hooks.getKey);
    if converted.Failure? {
      return Run([KeyConverted], Failure(converted.error));
    }
    var inner := Update(svc, principal, data, converted.value.condition, schema, state);
    return After(KeyConverted, inner);
  }

  /** A base service, authorized, updating with an explicit condition: the condition is used as given, and the data dictionary carries the key values it matches. */
  lemma ExplicitConditionMirrorsKeys(svc: Service, principal: Option<Principal>, data: Data, condition: Condition,
                                     keys: seq<string>, schema: string, state: Value, field: string)
    requires svc.hooks == BaseHooks(svc.storage.primaryKey) && svc.storage.primaryKey == Some(keys)
    requires svc.capabilities.canUpdate && DefaultAuthorize(principal, Method.Update(), state).Pass?
    ensures var r := UpdateRun(svc, principal, data, Some(condition), schema, state);
      && Stores(r.trace)
      && LastCall(r.trace).request.condition == Some(condition)
      && LastCall(r.trace).request.data == Keys.Mirrored(data.fields, condition, keys)
  {
  }

  /**
   * After an explicit-condition update, each declared key field the condition matches holds the
   * (last) value it matches there, and every other field holds what the caller's object held.
   */
  lemma ExplicitConditionKeyValues(fields: Record, condition: Condition, keys: seq<string>, field: string)
    ensures var stored := Keys.Mirrored(fields, condition, keys);
      && (field in keys && Keys.LastMatch(condition, field).Some? ==>
            field in stored && stored[field] == Keys.LastMatch(condition, field).value)
      && (!(field in keys && Keys.LastMatch(condition, field).Some?) ==>
            (field in stored <==> field in fields) && (field in fields ==> stored[field] == fields[field]))
  {
    Keys.MirroredAt(fields, condition, keys, field);
  }

  /**
   * `Update(new { Name = "x" }, (ICondition)Condition.Equal("Id", 5))` (the condition overload; without
   * the cast the call binds to the keyed `Update<TKey>`) on an entity keyed by Id sends Id = 5 in the data.
   */
  lemma UpdateByIdCarriesId(svc: Service, principal: Option<Principal>, data: Data, schema: string, state: Value)
    requires svc.hooks == BaseHooks(Some(["Id"])) && svc.storage.primaryKey == Some(["Id"])
    requires svc.capabilities.canUpdate && DefaultAuthorize(principal, Method.Update(), state).Pass?
    ensures var r := UpdateRun(svc, principal, data, Some(Equal("Id", Int(5))), schema, state);
      && Stores(r.trace)
      && "Id" in LastCall(r.trace).request.data && LastCall(r.trace).request.data["Id"] == Int(5)
  {
    var c := Equal("Id", Int(5));
    assert MatchedValues(c, "Id") == [Int(5)];
    ExplicitConditionMirrorsKeys(svc, principal, data, c, ["Id"], schema, state, "Id");
    ExplicitConditionKeyValues(data.fields, c, ["Id"], "Id");
  }

  /**
   * A base service, authorized, updating without a condition: it stores exactly when every key
   * value is present and non-null, keyed by the implicit condition; otherwise it fails with a DataException.
   */
  lemma ImplicitCondition(svc: Service, principal: Option<Principal>, data: Data, keys: seq<string>, schema: string, state: Value)
    requires svc.hooks == BaseHooks(svc.storage.primaryKey) && svc.storage.primaryKey == Some(keys) && |keys| > 0
    requires svc.capabilities.canUpdate && DefaultAuthorize(principal, Method.Update(), state).Pass?
    ensures var r := UpdateRun(svc, principal, data, None, schema, state);
      && (Stores(r.trace) <==> Keys.HasKeyValues(data.fields, keys))
      && (!Keys.HasKeyValues(data.fields, keys) ==> r.result == Failure(MissingPrimaryKey))
      && (Stores(r.trace) ==>
            && LastCall(r.trace).request.condition == Some(Keys.UpdateCondition(data.fields, Some(keys)).value)
            && LastCall(r.trace).request.data == data.fields)
  {
    Keys.ImplicitConditionFails(data.fields, keys);
  }

  /** With no declared key (null), an update that got past Authorize fails with a null reference, with or without a condition. */
  lemma NullKeyFails(svc: Service, principal: Option<Principal>, data: Data, condition: Option<Condition>, schema: string, state: Value)
    requires svc.storage.primaryKey.None?
    requires svc.capabilities.canUpdate && svc.hooks.authorize(principal, Method.Update(), state).Pass?
    ensures UpdateRun(svc, principal, data, condition, schema, state).result == Failure(NullReference)
  {
  }
}
