/**
 * InnerDataSearcher.Resolve: the searcher's Count, Exists and Search methods pass the condition
 * the base searcher resolves through the service's OnValidate, as the matching Method.
 */
module Searcher {
  import opened Wrappers
  import opened Conditions
  import opened Methods
  import opened Service
  import Errors

  /** The base DataSearcher.Resolve(method, keyword, state), which is not part of this model. */
  type BaseResolve = (string, string, Value) -> Option<Condition>

  /** The Method a searcher method name is validated as; None for names Resolve passes straight through. */
  function SearchMethod(name: string): (r: Option<Method>)
    ensures r.Some? <==> name == "Count" || name == "Exists" || name == "Search"
    ensures r.Some? ==> r.value.IsReading()
    ensures name == "Search" ==> r.value.kind == Kind.Select && r.value.name == "Search"
  {
    match name
    case "Count" => Some(Method.Count())
    case "Exists" => Some(Method.Exists())
    case "Search" => Some(Method.Select(Some(name)))
    case _ => None
  }

  /** Resolve(method, keyword, state). */
  function Resolve(svc: Service, resolveBase: BaseResolve, name: string, keyword: string, state: Value): (r: Result<Option<Condition>, Errors.Error>)
    ensures SearchMethod(name).None? ==> r == Success(resolveBase(name, keyword, state))
    ensures SearchMethod(name).Some? ==> r == svc.hooks.validateCondition(SearchMethod(name).value, resolveBase(name, keyword, state))
  {
    var resolved := resolveBase(name, keyword, state);
    match SearchMethod(name)
    case None => Success(resolved)
    case Some(m) => svc.hooks.validateCondition(m, resolved)
  }

  /** A searcher's Count is validated exactly as the service's own Count is. */
  lemma SearchCountValidatesAsCount(svc: Service, resolveBase: BaseResolve, keyword: string, state: Value)
    ensures Resolve(svc, resolveBase, "Count", keyword, state)
      == svc.hooks.validateCondition(Method.Count(), resolveBase("Count", keyword, state))
  {
  }

  /** Search is validated as a Select named "Search": the same kind as Select(), yet not the Method Select() stands for. */
  lemma SearchIsANamedSelect()
    ensures SearchMethod("Search").Some?
    ensures SearchMethod("Search").value.kind == Method.Select(None).kind
    ensures !SearchMethod("Search").value.Equals(Method.Select(None))
  {
  }

  /** On a base service every name resolves to the base searcher's condition unchanged. */
  lemma BaseResolveUnchanged(svc: Service, resolveBase: BaseResolve, name: string, keyword: string, state: Value)
    requires svc.hooks == BaseHooks(svc.storage.primaryKey)
    ensures Resolve(svc, resolveBase, name, keyword, state) == Success(resolveBase(name, keyword, state))
  {
  }
}
