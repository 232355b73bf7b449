/** Field values and the condition tree the key resolver builds. */
module Conditions {

  /** A value held by a key or a dictionary entry; strings are told apart from other objects. */
  datatype Value = Null | Str(text: string) | Int(number: int)

  /** A condition: a leaf compares one field; a collection combines its children by AND or OR. */
  datatype Condition =
    | Equal(field: string, value: Value)
    | In(field: string, values: seq<Value>)
    | And(children: seq<Condition>)
    | Or(children: seq<Condition>)
  {
    /** `condition is ConditionCollection`. */
    predicate IsCollection() {
      And? || Or?
    }
  }

  /** Wraps each segment as a string value, as `Condition.In(field, string[])` receives them. */
  function Strings(parts: seq<string>): (r: seq<Value>)
    ensures |r| == |parts|
    ensures forall i :: 0 <= i < |parts| ==> r[i] == Str(parts[i])
  {
    seq(|parts|, i requires 0 <= i < |parts| => Str(parts[i]))
  }

  /** Different segment lists give different IN value lists: no two segment lists share an IN value list. */
  lemma StringsInjective(a: seq<string>, b: seq<string>)
    requires Strings(a) == Strings(b)
    ensures a == b
  {
    assert |a| == |b|;
    forall i | 0 <= i < |a|
      ensures a[i] == b[i]
    {
      assert Strings(a)[i] == Str(a[i]) && Strings(b)[i] == Str(b[i]);
    }
  }

  /** A collection of exactly one child is replaced by that child; anything else is kept. */
  function Unwrap(c: Condition): Condition
  {
    if c.IsCollection() && |c.children| == 1 then c.children[0] else c
  }

  function Flatten<T>(parts: seq<seq<T>>): (r: seq<T>)
  {
    if parts == [] then [] else parts[0] + Flatten(parts[1..])
  }

  /**
   * The values of the `Equal` leaves on `field`, in left-to-right order: what
   * `condition.Match(field, callback)` hands to its callback, one call per leaf.
   */
  function MatchedValues(c: Condition, field: string): seq<Value>
  {
    match c
    case Equal(f, v) => if f == field then [v] else []
    case In(_, _) => []
    case And(cs) => Flatten(seq(|cs|, i requires 0 <= i < |cs| => MatchedValues(cs[i], field)))
    case Or(cs) => Flatten(seq(|cs|, i requires 0 <= i < |cs| => MatchedValues(cs[i], field)))
  }
}
