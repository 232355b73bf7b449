/**
 * The write entry points: Increment and Decrement, Delete, Insert, InsertMany, Update and
 * UpdateMany. Delete, Insert and Update check their capability flag before anything else
 * (keyed Update converts its key even before that); all of them authorize next.
 */
module Writes {
  import opened Wrappers
  import opened Errors
  import opened Conditions
  import opened Methods
  import opened Service
  import opened Dictionaries
  import Keys
  import Events

  /** C#'s `int`. */
  newtype Int32 = x: int | -0x8000_0000 <= x < 0x8000_0000

  const MinInt32: Int32 := -0x8000_0000

  /** Two's-complement truncation of an integer to 32 bits, as unchecked C# arithmetic does. */
  function Wrap(n: int): Int32
  {
    ((n + 0x8000_0000) % 0x1_0000_0000 - 0x8000_0000) as Int32
  }

  /** Unchecked `-interval`: the negation, except that int.MinValue wraps round to itself. */
  function Negate(x: Int32): (r: Int32)
    ensures x != MinInt32 ==> r as int == -(x as int)
    ensures x == MinInt32 ==> r == MinInt32
  {
    if x == MinInt32 then
      assert -(x as int) + 0x8000_0000 == 0x1_0000_0000;
      Wrap(-(x as int))
    else
      assert 0 <= -(x as int) + 0x8000_0000 < 0x1_0000_0000;
      Wrap(-(x as int))
  }

  lemma NegateTwice(x: Int32)
    ensures Negate(Negate(x)) == x
  {
  }

  /** Increment(member, condition, interval, state): no capability check; authorized and validated as Method.Increment(). */
  function Increment(svc: Service, principal: Option<Principal>, member: string, condition: Option<Condition>,
                     interval: Int32, state: Value): (r: Run<int>)
    ensures Follows(r.trace, [Authorized(Method.Increment()), ConditionValidated(Method.Increment())])
    ensures Stores(r.trace) <==> Admitted(svc, principal, Method.Increment(), condition, state)
    ensures Stores(r.trace) ==>
      && LastCall(r.trace) == StorageCall(
           IncrementRequest(svc.name, member, Validated(svc, Method.Increment(), condition), interval as int, state),
           Events.Increment)
      && r.result == Success(svc.storage.number(LastCall(r.trace)))
    ensures !Stores(r.trace) ==>
      r == Run(GateTrace(svc, principal, Method.Increment(), condition, state),
               Failure(GateError(svc, principal, Method.Increment(), condition, state)))
  {
    var m := Method.Increment();
    match svc.hooks.authorize(principal, m, state)
    case Fail(e) => Run([Authorized(m)], Failure(e))
    case Pass =>
      match svc.hooks.validateCondition(m, condition)
      case Failure(e) => Run([Authorized(m), ConditionValidated(m)], Failure(e))
      case Success(c) =>
        var call := StorageCall(IncrementRequest(svc.name, member, c, interval as int, state), Events.Increment);
        Run([Authorized(m), ConditionValidated(m), Stored(call)], Success(svc.storage.number(call)))
  }

  /**
   * Decrement(member, condition, interval, state): an Increment by the unchecked negation, so it is
   * authorized and validated as Method.Increment(), never as Method.Decrement().
   */
  function Decrement(svc: Service, principal: Option<Principal>, member: string, condition: Option<Condition>,
                     interval: Int32, state: Value): (r: Run<int>)
    ensures |r.trace| > 0 && r.trace[0] == Authorized(Method.Increment())
    ensures forall k :: 0 <= k < |r.trace| ==> r.trace[k] != Authorized(Method.Decrement())
    ensures Stores(r.trace) ==>
      && LastCall(r.trace).request.IncrementRequest?
      && LastCall(r.trace).request.interval == if interval == MinInt32 then interval as int else -(interval as int)
    ensures r == Increment(svc, principal, member, condition, Negate(interval), state)
  {
    Increment(svc, principal, member, condition, Negate(interval), state)
  }

  /** Decrement by int.MinValue hands the storage int.MinValue: it decrements by 2^31 rather than incrementing. */
  lemma DecrementMinValue(svc: Service, principal: Option<Principal>, member: string, condition: Option<Condition>, state: Value)
    ensures Decrement(svc, principal, member, condition, MinInt32, state) == Increment(svc, principal, member, condition, MinInt32, state)
  {
  }

  /** OnDelete(condition, schema, state): a null condition is refused, anything else goes to the storage with the Deleting/Deleted events. */
  function OnDelete(svc: Service, condition: Option<Condition>, schema: Schema, state: Value): (r: Result<StorageCall, Error>)
    ensures r.Failure? <==> condition.None?
    ensures r.Failure? ==> r.error == NullDeleteCondition
    ensures r.Success? ==> r.value == StorageCall(DeleteRequest(svc.name, condition.value, schema, state), Events.Delete)
  {
    match condition
    case None => Failure(NullDeleteCondition)
    case Some(c) => Success(StorageCall(DeleteRequest(svc.name, c, schema, state), Events.Delete))
  }

  /** The plan of a Delete: the capability check, Authorize, and OnValidate of the condition. */
  function DeletePlan(): seq<Step>
  {
    [CapabilityChecked(Capability.Delete), Authorized(Method.Delete()), ConditionValidated(Method.Delete())]
  }

  /** The part of Delete after the capability check and Authorize. */
  function DeleteValidated(svc: Service, prefix: seq<Step>, condition: Option<Condition>, schema: string, state: Value): (r: Run<int>)
    ensures Follows(r.trace, prefix + [ConditionValidated(Method.Delete())]) && |r.trace| > |prefix|
    ensures var v := svc.hooks.validateCondition(Method.Delete(), condition);
      Stores(r.trace) <==> v.Success? && v.value.Some?
    ensures Stores(r.trace) ==>
      && LastCall(r.trace) == StorageCall(
           DeleteRequest(svc.name, Validated(svc, Method.Delete(), condition).value, GetSchema(svc, schema, None), state),
           Events.Delete)
      && r.result == Success(svc.storage.number(LastCall(r.trace)))
    ensures svc.hooks.validateCondition(Method.Delete(), condition).Failure? ==>
      r == Run(prefix + [ConditionValidated(Method.Delete())],
               Failure(svc.hooks.validateCondition(Method.Delete(), condition).error))
    ensures svc.hooks.validateCondition(Method.Delete(), condition).Success? ==>
      (Validated(svc, Method.Delete(), condition).None? ==>
         r == Run(prefix + [ConditionValidated(Method.Delete())], Failure(NullDeleteCondition)))
  {
    var m := Method.Delete();
    match svc.hooks.validateCondition(m, condition)
    case Failure(e) => Run(prefix + [ConditionValidated(m)], Failure(e))
    case Success(c) =>
      match OnDelete(svc, c, GetSchema(svc, schema, None), state)
      case Failure(e) => Run(prefix + [ConditionValidated(m)], Failure(e))
      case Success(call) => Run(prefix + [ConditionValidated(m), Stored(call)], Success(svc.storage.number(call)))
  }

  /** Delete(condition, schema, state). */
  function Delete(svc: Service, principal: Option<Principal>, condition: Option<Condition>, schema: string, state: Value): (r: Run<int>)
    ensures Follows(r.trace, DeletePlan())
    ensures !svc.capabilities.canDelete ==> r == Run([CapabilityChecked(Capability.Delete)], Failure(NotAllowed(Capability.Delete)))
    ensures Stores(r.trace) <==>
      && svc.capabilities.canDelete && Admitted(svc, principal, Method.Delete(), condition, state)
      && Validated(svc, Method.Delete(), condition).Some?
    ensures Stores(r.trace) ==>
      && LastCall(r.trace) == StorageCall(
           DeleteRequest(svc.name, Validated(svc, Method.Delete(), condition).value, GetSchema(svc, schema, None), state),
           Events.Delete)
      && r.result == Success(svc.storage.number(LastCall(r.trace)))
    ensures svc.capabilities.canDelete && !Admitted(svc, principal, Method.Delete(), condition, state) ==>
      r == Run([CapabilityChecked(Capability.Delete)] + GateTrace(svc, principal, Method.Delete(), condition, state),
               Failure(GateError(svc, principal, Method.Delete(), condition, state)))
    ensures svc.capabilities.canDelete && Admitted(svc, principal, Method.Delete(), condition, state) ==>
      (Validated(svc, Method.Delete(), condition).None? ==> r == Run(DeletePlan(), Failure(NullDeleteCondition)))
  {
    var m := Method.Delete();
    if !svc.capabilities.canDelete then Run([CapabilityChecked(Capability.Delete)], Failure(NotAllowed(Capability.Delete)))
    else
      match svc.hooks.authorize(principal, m, state)
      case Fail(e) => Run([CapabilityChecked(Capability.Delete), Authorized(m)], Failure(e))
      case Pass => DeleteValidated(svc, [CapabilityChecked(Capability.Delete), Authorized(m)], condition, schema, state)
  }

  /**
   * Delete(key1[, key2[, key3]], schema, state): the keys are converted after Authorize and
   * before OnValidate, so a bad key surfaces only for an authorized caller.
   */
  function DeleteByKey(svc: Service, principal: Option<Principal>, keys: seq<Value>, schema: string, state: Value): (r: Run<int>)
    requires 1 <= |keys| <= 3
    ensures Follows(r.trace, [CapabilityChecked(Capability.Delete), Authorized(Method.Delete()), KeyConverted, ConditionValidated(Method.Delete())])
    ensures !svc.capabilities.canDelete ==> r == Run([CapabilityChecked(Capability.Delete)], Failure(NotAllowed(Capability.Delete)))
    ensures svc.capabilities.canDelete && svc.hooks.authorize(principal, Method.Delete(), state).Fail? ==>
      r == Run([CapabilityChecked(Capability.Delete), Authorized(Method.Delete())], Failure(svc.hooks.authorize(principal, Method.Delete(), state).error))
    ensures svc.capabilities.canDelete && svc.hooks.authorize(principal, Method.Delete(), state).Pass? ==>
      var k := Keys.ConvertKey(keys, svc.hooks.getKey);
      (k.Failure? ==> r == Run([CapabilityChecked(Capability.Delete), Authorized(Method.Delete()), KeyConverted], Failure(k.error)))
    ensures Stores(r.trace) <==>
      && svc.capabilities.canDelete && svc.hooks.authorize(principal, Method.Delete(), state).Pass?
      && Keys.ConvertKey(keys, svc.hooks.getKey).Success?
      && var key := Keys.ConvertKey(keys, svc.hooks.getKey).value.condition;
      && Admitted(svc, principal, Method.Delete(), key, state)
      && Validated(svc, Method.Delete(), key).Some?
    ensures Stores(r.trace) ==>
      && Keys.ConvertKey(keys, svc.hooks.getKey).Success?
      && var key := Keys.ConvertKey(keys, svc.hooks.getKey).value.condition;
      && Admitted(svc, principal, Method.Delete(), key, state)
      && Validated(svc, Method.Delete(), key).Some?
      && LastCall(r.trace) == StorageCall(
           DeleteRequest(svc.name, Validated(svc, Method.Delete(), key).value, GetSchema(svc, schema, None), state),
           Events.Delete)
      && r.result == Success(svc.storage.number(LastCall(r.trace)))
    ensures svc.capabilities.canDelete && Keys.ConvertKey(keys, svc.hooks.getKey).Success? ==>
      var key := Keys.ConvertKey(keys, svc.hooks.getKey).value.condition;
      && (svc.hooks.authorize(principal, Method.Delete(), state).Pass? && !Admitted(svc, principal, Method.Delete(), key, state) ==>
            r == Run([CapabilityChecked(Capability.Delete), Authorized(Method.Delete()), KeyConverted, ConditionValidated(Method.Delete())],
                     Failure(GateError(svc, principal, Method.Delete(), key, state))))
      && (Admitted(svc, principal, Method.Delete(), key, state) && Validated(svc, Method.Delete(), key).None? ==>
            r == Run([CapabilityChecked(Capability.Delete), Authorized(Method.Delete()), KeyConverted, ConditionValidated(Method.Delete())],
                     Failure(NullDeleteCondition)))
  {
    var m := Method.Delete();
    var prefix := [CapabilityChecked(Capability.Delete), Authorized(m), KeyConverted];
    if !svc.capabilities.canDelete then Run([CapabilityChecked(Capability.Delete)], Failure(NotAllowed(Capability.Delete)))
    else
      match svc.hooks.authorize(principal, m, state)
      case Fail(e) => Run([CapabilityChecked(Capability.Delete), Authorized(m)], Failure(e))
      case Pass =>
        match Keys.ConvertKey(keys, svc.hooks.getKey)
        case Failure(e) => Run(prefix, Failure(e))
        case Success(res) => DeleteValidated(svc, prefix, res.condition, schema, state)
  }

  /** Insert(data, schema, state): a null object inserts nothing (0) once authorized; the schema is parsed against the object's runtime type. */
  function Insert(svc: Service, principal: Option<Principal>, data: Option<Data>, schema: string, state: Value): (r: Run<int>)
    ensures Follows(r.trace, [CapabilityChecked(Capability.Insert), Authorized(Method.Insert()), DataValidated(Method.Insert())])
    ensures !svc.capabilities.canInsert ==> r == Run([CapabilityChecked(Capability.Insert)], Failure(NotAllowed(Capability.Insert)))
    ensures svc.capabilities.canInsert && svc.hooks.authorize(principal, Method.Insert(), state).Fail? ==>
      r == Run([CapabilityChecked(Capability.Insert), Authorized(Method.Insert())],
               Failure(svc.hooks.authorize(principal, Method.Insert(), state).error))
    ensures svc.capabilities.canInsert && svc.hooks.authorize(principal, Method.Insert(), state).Pass? && data.None? ==>
      r == Run([CapabilityChecked(Capability.Insert), Authorized(Method.Insert())], Success(0))
    ensures svc.capabilities.canInsert && svc.hooks.authorize(principal, Method.Insert(), state).Pass? && data.Some? ==>
      var v := svc.hooks.validateData(Method.Insert(), data.value.fields);
      (v.Failure? ==> r == Run([CapabilityChecked(Capability.Insert), Authorized(Method.Insert()), DataValidated(Method.Insert())],
                               Failure(v.error)))
    ensures Stores(r.trace) <==>
      && svc.capabilities.canInsert && svc.hooks.authorize(principal, Method.Insert(), state).Pass?
      && data.Some? && svc.hooks.validateData(Method.Insert(), data.value.fields).Success?
    ensures Stores(r.trace) ==>
      && LastCall(r.trace) == StorageCall(
           InsertRequest(svc.name, svc.hooks.validateData(Method.Insert(), data.value.fields).value,
                         GetSchema(svc, schema, Some(data.value.typeName)), state),
           Events.Insert)
      && r.result == Success(svc.storage.number(LastCall(r.trace)))
  {
    var m := Method.Insert();
    var gates := [CapabilityChecked(Capability.Insert), Authorized(m)];
    if !svc.capabilities.canInsert then Run([CapabilityChecked(Capability.Insert)], Failure(NotAllowed(Capability.Insert)))
    else
      match svc.hooks.authorize(principal, m, state)
      case Fail(e) => Run(gates, Failure(e))
      case Pass =>
        match data
        case None => Run(gates, Success(0))
        case Some(d) =>
          match svc.hooks.validateData(m, d.fields)
          case Failure(e) => Run(gates + [DataValidated(m)], Failure(e))
          case Success(fields) =>
            var call := StorageCall(InsertRequest(svc.name, fields, GetSchema(svc, schema, Some(d.typeName)), state), Events.Insert);
            Run(gates + [DataValidated(m), Stored(call)], Success(svc.storage.number(call)))
  }

  /** How far the per-item OnValidate loop got: the items checked, and the validated items or the first rejection. */
  datatype Checked = Checked(count: nat, result: Result<seq<Record>, Error>)

  /**
   * OnValidate applied to each dictionary in order: every item validated, or the exception
   * of the first item it rejects, with no item after that one looked at.
   */
  function ValidateAll(validate: (Method, Record) -> Result<Record, Error>, m: Method, items: seq<Record>): (r: Checked)
    ensures r.count <= |items|
    ensures r.result.Success? ==>
      && r.count == |items| && |r.result.value| == |items|
      && forall i :: 0 <= i < |items| ==> validate(m, items[i]) == Success(r.result.value[i])
    ensures r.result.Failure? ==>
      && 0 < r.count && validate(m, items[r.count - 1]) == Failure(r.result.error)
      && forall i :: 0 <= i < r.count - 1 ==> validate(m, items[i]).Success?
  {
    if items == [] then Checked(0, Success([]))
    else
      var prev := ValidateAll(validate, m, items[..|items| - 1]);
      if prev.result.Failure? then prev
      else
        match validate(m, items[|items| - 1])
        case Failure(e) => Checked(|items|, Failure(e))
        case Success(d) => Checked(|items|, Success(prev.result.value + [d]))
  }

  /** Once an item is rejected, the items after it change nothing. */
  lemma {:induction false} FailurePersists(validate: (Method, Record) -> Result<Record, Error>, m: Method,
                                           items: seq<Record>, more: seq<Record>)
    requires ValidateAll(validate, m, items).result.Failure?
    ensures ValidateAll(validate, m, items + more) == ValidateAll(validate, m, items)
  {
    if more != [] {
      var front := more[..|more| - 1];
      FailurePersists(validate, m, items, front);
      assert (items + more)[..|items + more| - 1] == items + front;
      assert ValidateAll(validate, m, items + more) == ValidateAll(validate, m, items + front);
    } else {
      assert items + more == items;
    }
  }

  /** The `foreach(var dictionary in dictionares) this.OnValidate(method, dictionary)` loop. */
  method ValidateEach(validate: (Method, Record) -> Result<Record, Error>, m: Method, items: seq<Record>) returns (r: Checked)
    ensures r == ValidateAll(validate, m, items)
  {
    var done: seq<Record> := [];
    for i := 0 to |items|
      invariant ValidateAll(validate, m, items[..i]) == Checked(i, Success(done))
    {
      assert items[..i + 1][..i] == items[..i];
      var checked := validate(m, items[i]);
      if checked.Failure? {
        FailurePersists(validate, m, items[..i + 1], items[i + 1..]);
        assert items[..i + 1] + items[i + 1..] == items;
        return Checked(i + 1, Failure(checked.error));
      }
      done := done + [checked.value];
    }
    assert items[..|items|] == items;
    return Checked(|items|, Success(done));
  }

  /** `n` copies of one step. */
  function Repeat(step: Step, n: nat): (r: seq<Step>)
    ensures |r| == n
    ensures forall i :: 0 <= i < n ==> r[i] == step
  {
    seq(n, _ => step)
  }

  /** The plan of a bulk write: capability, Authorize, one OnValidate per item. */
  function BulkPlan(c: Capability, m: Method, items: Option<Items>): seq<Step>
  {
    [CapabilityChecked(c), Authorized(m)] + Repeat(DataValidated(m), if items.Some? then |items.value.elements| else 0)
  }

  /** What a bulk write passes the storage: the validated items, the schema parsed against the element type. */
  function BulkRequest(svc: Service, c: Capability, items: Items, validated: seq<Record>, schema: string, state: Value): Request
  {
    var s := GetSchema(svc, schema, Some(items.elementType));
    if c == Capability.Insert then InsertManyRequest(svc.name, validated, s, state)
    else UpdateManyRequest(svc.name, validated, s, state)
  }

  /**
   * InsertMany and UpdateMany: the capability check, Authorize, nothing for a null collection,
   * each item through OnValidate, then one storage call with every validated item.
   */
  function BulkRun(svc: Service, principal: Option<Principal>, c: Capability, m: Method, events: Events.EventKind,
                   items: Option<Items>, schema: string, state: Value): (r: Run<int>)
    ensures Follows(r.trace, BulkPlan(c, m, items))
    ensures !Can(svc.capabilities, c) ==> r == Run([CapabilityChecked(c)], Failure(NotAllowed(c)))
    ensures Can(svc.capabilities, c) && svc.hooks.authorize(principal, m, state).Fail? ==>
      r == Run([CapabilityChecked(c), Authorized(m)], Failure(svc.hooks.authorize(principal, m, state).error))
    ensures Can(svc.capabilities, c) && svc.hooks.authorize(principal, m, state).Pass? && items.None? ==>
      r == Run([CapabilityChecked(c), Authorized(m)], Success(0))
    ensures Can(svc.capabilities, c) && svc.hooks.authorize(principal, m, state).Pass? && items.Some? ==>
      var checked := ValidateAll(svc.hooks.validateData, m, items.value.elements);
      (checked.result.Failure? ==>
         r == Run([CapabilityChecked(c), Authorized(m)] + Repeat(DataValidated(m), checked.count), Failure(checked.result.error)))
    ensures Stores(r.trace) <==>
      && Can(svc.capabilities, c) && svc.hooks.authorize(principal, m, state).Pass? && items.Some?
      && ValidateAll(svc.hooks.validateData, m, items.value.elements).result.Success?
    ensures Stores(r.trace) ==>
      && LastCall(r.trace) == StorageCall(
           BulkRequest(svc, c, items.value, ValidateAll(svc.hooks.validateData, m, items.value.elements).result.value, schema, state),
           events)
      && r.result == Success(svc.storage.number(LastCall(r.trace)))
  {
    var gates := [CapabilityChecked(c), Authorized(m)];
    if !Can(svc.capabilities, c) then Run([CapabilityChecked(c)], Failure(NotAllowed(c)))
    else
      match svc.hooks.authorize(principal, m, state)
      case Fail(e) => Run(gates, Failure(e))
      case Pass =>
        match items
        case None => Run(gates, Success(0))
        case Some(its) =>
          var checked := ValidateAll(svc.hooks.validateData, m, its.elements);
          var trace := gates + Repeat(DataValidated(m), checked.count);
          assert trace == BulkPlan(c, m, items)[..|trace|];
          match checked.result
          case Failure(e) => Run(trace, Failure(e))
          case Success(validated) =>
            var call := StorageCall(BulkRequest(svc, c, its, validated, schema, state), events);
            Run(trace + [Stored(call)], Success(svc.storage.number(call)))
  }

  /** The imperative form of a bulk write, with the per-item OnValidate loop. */
  method Bulk(svc: Service, principal: Option<Principal>, c: Capability, m: Method, events: Events.EventKind,
              items: Option<Items>, schema: string, state: Value) returns (r: Run<int>)
    ensures r == BulkRun(svc, principal, c, m, events, items, schema, state)
  {
    var gates := [CapabilityChecked(c), Authorized(m)];
    if !Can(svc.capabilities, c) {
      return Run([CapabilityChecked(c)], Failure(NotAllowed(c)));
    }
    var authorized := svc.hooks.authorize(principal, m, state);
    if authorized.Fail? {
      return Run(gates, Failure(authorized.error));
    }
    if items.None? {
      return Run(gates, Success(0));
    }
    var its := items.value;
    var checked := ValidateEach(svc.hooks.validateData, m, its.elements);
    var trace := gates + Repeat(DataValidated(m), checked.count);
    if checked.result.Failure? {
      r := Run(trace, Failure(checked.result.error));
    } else {
      var call := StorageCall(BulkRequest(svc, c, its, checked.result.value, schema, state), events);
      r := Run(trace + [Stored(call)], Success(svc.storage.number(call)));
    }
    assert r == BulkRun(svc, principal, c, m, events, Some(its), schema, state);
  }

  /** InsertMany(items, schema, state): capability Insert, authorized as Method.InsertMany(), the Inserting/Inserted events. */
  method InsertMany(svc: Service, principal: Option<Principal>, items: Option<Items>, schema: string, state: Value) returns (r: Run<int>)
    ensures r == BulkRun(svc, principal, Capability.Insert, Method.InsertMany(), Events.Insert, items, schema, state)
  {
    r := Bulk(svc, principal, Capability.Insert, Method.InsertMany(), Events.Insert, items, schema, state);
  }

  /** UpdateMany(items, schema, state): capability Update, authorized as Method.UpdateMany(), the Updating/Updated events. */
  method UpdateMany(svc: Service, principal: Option<Principal>, items: Option<Items>, schema: string, state: Value) returns (r: Run<int>)
    ensures r == BulkRun(svc, principal, Capability.Update, Method.UpdateMany(), Events.Update, items, schema, state)
  {
    r := Bulk(svc, principal, Capability.Update, Method.UpdateMany(), Events.Update, items, schema, state);
  }

  /** One item rejected stops the whole bulk write: nothing reaches the storage, and its exception is the result. */
  lemma BulkRejectsAll(svc: Service, principal: Option<Principal>, c: Capability, m: Method, events: Events.EventKind,
                       items: Items, i: nat, schema: string, state: Value)
    requires Can(svc.capabilities, c) && svc.hooks.authorize(principal, m, state).Pass?
    requires i < |items.elements| && svc.hooks.validateData(m, items.elements[i]).Failure?
    ensures var r := BulkRun(svc, principal, c, m, events, Some(items), schema, state);
      && !Stores(r.trace) && r.result.Failure?
  {
  }
}
