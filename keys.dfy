/**
 * Primary-key handling: GetKey and EnsureInquiryKey turn positional key values into a
 * condition, EnsureUpdateCondition builds the implicit update condition from a dictionary,
 * and Update's key loop copies key values found in an explicit condition into the dictionary.
 */
module Keys {
  import opened Wrappers
  import opened Errors
  import opened Conditions
  import opened Dictionaries
  import Text

  /** GetKey's return value and its `singleton` out-parameter; `None` is a null condition. */
  datatype Resolution = Resolution(condition: Option<Condition>, singleton: bool)

  /** `Equal(fields[i], values[i])` for every position, in order. */
  function Equalities(fields: seq<string>, values: seq<Value>): (r: seq<Condition>)
    requires |fields| == |values|
    ensures |r| == |fields|
    ensures forall i :: 0 <= i < |r| ==> r[i] == Equal(fields[i], values[i])
  {
    if fields == [] then [] else [Equal(fields[0], values[0])] + Equalities(fields[1..], values[1..])
  }

  /** `values[0] is string text && text.Length > 0`. */
  predicate NonEmptyText(v: Value) {
    v.Str? && |v.text| > 0
  }

  /** The arity test of GetKey: values given, a key declared, and as many values as key fields. */
  predicate ArityMatches(values: seq<Value>, primaryKey: Option<seq<string>>) {
    |values| > 0 && primaryKey.Some? && |primaryKey.value| > 0 && |primaryKey.value| == |values|
  }

  /** What the base GetKey computes from the values and the declared primary key. */
  function ResolveKey(values: seq<Value>, primaryKey: Option<seq<string>>): Result<Resolution, Error>
  {
    if !ArityMatches(values, primaryKey) then Success(Resolution(None, false))
    else
      var keys := primaryKey.value;
      if |keys| == 1 then
        if NonEmptyText(values[0]) then
          var parts := Text.KeySegments(values[0].text);
          if |parts| > 1 then Success(Resolution(Some(In(keys[0], Strings(parts))), false))
          else if |parts| == 0 then Failure(IndexOutOfRange)
          else Success(Resolution(Some(Equal(keys[0], Str(parts[0]))), true))
        else Success(Resolution(Some(Equal(keys[0], values[0])), true))
      else Success(Resolution(Some(And(Equalities(keys, values))), true))
  }

  /** GetKey(values, out singleton): the single-key cases directly, a composite key by a loop of `Add`s. */
  method GetKey(values: seq<Value>, primaryKey: Option<seq<string>>) returns (r: Result<Resolution, Error>)
    ensures r == ResolveKey(values, primaryKey)
  {
    if |values| == 0 {
      return Success(Resolution(None, false));
    }
    if primaryKey.None? || |primaryKey.value| == 0 || |primaryKey.value| != |values| {
      return Success(Resolution(None, false));
    }
    var keys := primaryKey.value;
    if |keys| == 1 {
      if values[0].Str? && |values[0].text| > 0 {
        var parts := Text.KeySegments(values[0].text);
        if |parts| > 1 {
          return Success(Resolution(Some(In(keys[0], Strings(parts))), false));
        }
        if |parts| == 0 {
          return Failure(IndexOutOfRange);
        }
        return Success(Resolution(Some(Equal(keys[0], Str(parts[0]))), true));
      }
      return Success(Resolution(Some(Equal(keys[0], values[0])), true));
    }
    var conditions: seq<Condition> := [];
    for i := 0 to |keys|
      invariant |conditions| == i
      invariant forall j :: 0 <= j < i ==> conditions[j] == Equal(keys[j], values[j])
    {
      conditions := conditions + [Equal(keys[i], values[i])];
    }
    assert conditions == Equalities(keys, values);
    return Success(Resolution(Some(And(conditions)), true));
  }

  /** No values, no declared key, or a count mismatch: a null condition and singleton false, and only then. */
  lemma NoConditionIffArityMismatch(values: seq<Value>, primaryKey: Option<seq<string>>)
    ensures ResolveKey(values, primaryKey) == Success(Resolution(None, false))
      <==> !ArityMatches(values, primaryKey)
  {
  }

  /** A one-field key and a non-empty string: IN over several segments, Equal on the only one. */
  lemma SingleFieldText(field: string, text: string)
    requires |text| > 0
    ensures var parts := Text.KeySegments(text);
      var r := ResolveKey([Str(text)], Some([field]));
      && (|parts| > 1 ==> r == Success(Resolution(Some(In(field, Strings(parts))), false)))
      && (|parts| == 1 ==> r == Success(Resolution(Some(Equal(field, Str(parts[0]))), true)))
      && (|parts| == 0 <==> r == Failure(IndexOutOfRange))
  {
  }

  /** True of a single value that is a string naming more than one key. */
  predicate MultiSegment(v: Value) {
    NonEmptyText(v) && |Text.KeySegments(v.text)| > 1
  }

  /** Through EnsureInquiryKey, a text naming several keys on a one-field key is IN over them, not a single row. */
  lemma SeveralSegmentsConvert(field: string, text: string)
    requires MultiSegment(Str(text))
    ensures ConvertKey([Str(text)], BaseGetKey(Some([field])))
      == Success(Resolution(Some(In(field, Strings(Text.KeySegments(text)))), false))
  {
    var c := In(field, Strings(Text.KeySegments(text)));
    SeveralSegmentsResolve(field, text);
    assert BaseGetKey(Some([field]))([Str(text)]) == Success(Resolution(Some(c), false));
    assert Unwrap(c) == c;
  }

  /** The base GetKey on a text naming several keys: IN over the segments, not a single row. */
  lemma SeveralSegmentsResolve(field: string, text: string)
    requires MultiSegment(Str(text))
    ensures ResolveKey([Str(text)], Some([field]))
      == Success(Resolution(Some(In(field, Strings(Text.KeySegments(text)))), false))
  {
    SingleFieldText(field, text);
  }

  /** A key string of commas and blanks alone reads segment 0 of no segments. */
  lemma BlankTextOutOfRange(field: string, text: string)
    requires |text| > 0 && Text.Blank(text)
    ensures ResolveKey([Str(text)], Some([field])) == Failure(IndexOutOfRange)
  {
    Text.NoSegmentsIffBlank(text);
  }

  /** Segments written back with commas between them resolve to IN over exactly those segments. */
  lemma JoinedSegmentsResolveToIn(field: string, segments: seq<string>)
    requires |segments| > 1
    requires forall k :: 0 <= k < |segments| ==> Text.Segment(segments[k])
    ensures ResolveKey([Str(Text.Join(segments, ','))], Some([field]))
      == Success(Resolution(Some(In(field, Strings(segments))), false))
  {
    var text := Text.Join(segments, ',');
    Text.SegmentsRoundTrip(segments);
    assert Text.Segment(segments[0]);
    assert text == segments[0] + [','] + Text.Join(segments[1..], ',');
    assert |text| > 0;
    SingleFieldText(field, text);
  }

  /** A one-field key and any value other than a non-empty string: Equal on that very value. */
  lemma SingleFieldValue(field: string, value: Value)
    requires !NonEmptyText(value)
    ensures ResolveKey([value], Some([field])) == Success(Resolution(Some(Equal(field, value)), true))
  {
  }

  /** A key of n > 1 fields and n values: an AND of n equalities in key order, singleton. */
  lemma CompositeKey(values: seq<Value>, keys: seq<string>)
    requires |keys| > 1 && |values| == |keys|
    ensures ResolveKey(values, Some(keys)).Success?
    ensures var res := ResolveKey(values, Some(keys)).value;
      && res.singleton && res.condition.Some? && res.condition.value.And?
      && |res.condition.value.children| == |keys|
      && forall i :: 0 <= i < |keys| ==> res.condition.value.children[i] == Equal(keys[i], values[i])
  {
  }

  /** GetKey reports a single row exactly when the arity matches and a one-field key names one key. */
  lemma SingletonIff(values: seq<Value>, primaryKey: Option<seq<string>>)
    requires ResolveKey(values, primaryKey).Success?
    ensures ResolveKey(values, primaryKey).value.singleton
      <==> ArityMatches(values, primaryKey) && (|values| > 1 || !MultiSegment(values[0]))
  {
  }

  /** The base GetKey never yields a collection of one child. */
  lemma NeverSingleChild(values: seq<Value>, primaryKey: Option<seq<string>>)
    requires ResolveKey(values, primaryKey).Success?
    requires ResolveKey(values, primaryKey).value.condition.Some?
    ensures var c := ResolveKey(values, primaryKey).value.condition.value;
      c.IsCollection() ==> |c.children| > 1
  {
  }

  /**
   * EnsureInquiryKey(values, out singleton) over the (overridable) GetKey `getKey`:
   * more than three values are refused, a null condition is an invalid key, and a
   * collection of one child is replaced by that child.
   */
  function EnsureInquiryKey(values: seq<Value>, getKey: seq<Value> -> Result<Resolution, Error>): (r: Result<Resolution, Error>)
    ensures |values| > 3 ==> r == Failure(TooManyKeys)
    ensures |values| <= 3 && getKey(values).Failure? ==> r == getKey(values)
    ensures |values| <= 3 && getKey(values).Success? && getKey(values).value.condition.None? ==> r == Failure(InvalidKey)
    ensures |values| <= 3 && getKey(values).Success? && getKey(values).value.condition.Some? ==> r.Success?
    ensures r.Success? ==> r.value.condition.Some? && r.value.singleton == getKey(values).value.singleton
    ensures r.Success? ==> var c := getKey(values).value.condition.value;
      r.value.condition.value == if c.IsCollection() && |c.children| == 1 then c.children[0] else c
  {
    if |values| > 3 then Failure(TooManyKeys)
    else
      match getKey(values)
      case Failure(e) => Failure(e)
      case Success(res) =>
        if res.condition.None? then Failure(InvalidKey)
        else Success(Resolution(Some(Unwrap(res.condition.value)), res.singleton))
  }

  /** The base class's GetKey for a declared primary key. */
  function BaseGetKey(primaryKey: Option<seq<string>>): seq<Value> -> Result<Resolution, Error>
  {
    values => ResolveKey(values, primaryKey)
  }

  /** With the base GetKey, an arity mismatch is an invalid key: no keyed call proceeds without a condition. */
  lemma InquiryArityMismatch(values: seq<Value>, primaryKey: Option<seq<string>>)
    requires |values| <= 3 && !ArityMatches(values, primaryKey)
    ensures EnsureInquiryKey(values, BaseGetKey(primaryKey)) == Failure(InvalidKey)
  {
  }

  /** With the base GetKey, a resolved inquiry key is never a collection of one child. */
  lemma InquiryNeverSingleChild(values: seq<Value>, primaryKey: Option<seq<string>>)
    requires EnsureInquiryKey(values, BaseGetKey(primaryKey)).Success?
    ensures var c := EnsureInquiryKey(values, BaseGetKey(primaryKey)).value.condition.value;
      c.IsCollection() ==> |c.children| > 1
  {
    NeverSingleChild(values, primaryKey);
  }

  /** The ConvertKey overloads: one, two or three keys, so the three-key limit is never what fails. */
  function ConvertKey(keys: seq<Value>, getKey: seq<Value> -> Result<Resolution, Error>): (r: Result<Resolution, Error>)
    requires 1 <= |keys| <= 3
    ensures r.Failure? ==> r.error != TooManyKeys || getKey(keys) == Failure(TooManyKeys)
    ensures getKey(keys).Failure? ==> r == getKey(keys)
    ensures getKey(keys).Success? && getKey(keys).value.condition.None? ==> r == Failure(InvalidKey)
    ensures r.Success? <==> getKey(keys).Success? && getKey(keys).value.condition.Some?
    ensures r.Success? ==> r.value.condition.Some?
  {
    EnsureInquiryKey(keys, getKey)
  }

  /** Every declared key field is present in the dictionary with a non-null value. */
  predicate HasKeyValues(entries: map<string, Value>, keys: seq<string>) {
    forall i :: 0 <= i < |keys| ==> keys[i] in entries && entries[keys[i]] != Null
  }

  function KeyValues(entries: map<string, Value>, keys: seq<string>): (r: seq<Value>)
    requires HasKeyValues(entries, keys)
    ensures |r| == |keys|
    ensures forall i :: 0 <= i < |keys| ==> r[i] == entries[keys[i]]
  {
    seq(|keys|, i requires 0 <= i < |keys| => entries[keys[i]])
  }

  /** What EnsureUpdateCondition computes from the dictionary and the declared key. */
  function UpdateCondition(entries: map<string, Value>, keys: Option<seq<string>>): Result<Condition, Error>
  {
    if keys.None? then Failure(NullReference)
    else if !HasKeyValues(entries, keys.value) then Failure(MissingPrimaryKey)
    else if |keys.value| == 0 then Failure(IndexOutOfRange)
    else if |keys.value| == 1 then Success(Equal(keys.value[0], entries[keys.value[0]]))
    else Success(And(Equalities(keys.value, KeyValues(entries, keys.value))))
  }

  /**
   * EnsureUpdateCondition(dictionary): fills an array with one equality per declared key,
   * throwing at the first key that is absent or null, then ANDs them (or takes element 0).
   */
  method EnsureUpdateCondition(dictionary: DataDictionary, keys: Option<seq<string>>) returns (r: Result<Condition, Error>)
    ensures r == UpdateCondition(dictionary.entries, keys)
  {
    if keys.None? {
      return Failure(NullReference);
    }
    var ks := keys.value;
    var required := new Condition[|ks|];
    for i := 0 to |ks|
      invariant forall j :: 0 <= j < i ==> ks[j] in dictionary.entries && dictionary.entries[ks[j]] != Null
      invariant forall j :: 0 <= j < i ==> required[j] == Equal(ks[j], dictionary.entries[ks[j]])
    {
      var found, value := dictionary.TryGetValue(ks[i]);
      if found && value != Null {
        required[i] := Equal(ks[i], value);
      } else {
        return Failure(MissingPrimaryKey);
      }
    }
    if required.Length > 1 {
      assert required[..] == Equalities(ks, KeyValues(dictionary.entries, ks));
      return Success(And(required[..]));
    }
    if required.Length == 0 {
      return Failure(IndexOutOfRange);
    }
    return Success(required[0]);
  }

  /** Any declared key absent or null in the dictionary makes the implicit condition a DataException. */
  lemma MissingKeyRejected(entries: map<string, Value>, keys: seq<string>, i: nat)
    requires i < |keys| && (keys[i] !in entries || entries[keys[i]] == Null)
    ensures UpdateCondition(entries, Some(keys)) == Failure(MissingPrimaryKey)
  {
  }

  /** With every key value present: Equal for one key, an AND of Equals in key order for several. */
  lemma ImplicitConditionShape(entries: map<string, Value>, keys: seq<string>)
    requires |keys| > 0 && HasKeyValues(entries, keys)
    ensures |keys| == 1 ==> UpdateCondition(entries, Some(keys)) == Success(Equal(keys[0], entries[keys[0]]))
    ensures var r := UpdateCondition(entries, Some(keys));
      |keys| > 1 ==>
        && r.Success? && r.value.And? && |r.value.children| == |keys|
        && forall i :: 0 <= i < |keys| ==> r.value.children[i] == Equal(keys[i], entries[keys[i]])
  {
  }

  /** The implicit condition is refused exactly when some key value is missing, or no key is declared. */
  lemma ImplicitConditionFails(entries: map<string, Value>, keys: seq<string>)
    ensures UpdateCondition(entries, Some(keys)).Failure? <==> !HasKeyValues(entries, keys) || |keys| == 0
    ensures UpdateCondition(entries, Some(keys)) == Failure(MissingPrimaryKey) <==> !HasKeyValues(entries, keys)
  {
  }

  /** The Match callback run once per matched leaf: TrySetValue(field, value) for each in turn. */
  function Assign(entries: map<string, Value>, field: string, values: seq<Value>): map<string, Value>
  {
    if values == [] then entries else Assign(entries, field, values[..|values| - 1])[field := values[|values| - 1]]
  }

  /** The dictionary after Update's key loop: each declared key in turn takes the values it matches. */
  function Mirrored(entries: map<string, Value>, condition: Condition, keys: seq<string>): map<string, Value>
  {
    if keys == [] then entries
    else
      var last := keys[|keys| - 1];
      Assign(Mirrored(entries, condition, keys[..|keys| - 1]), last, MatchedValues(condition, last))
  }

  /** Assigning a run of values leaves the last one, and touches no other field. */
  lemma {:induction false} AssignLast(entries: map<string, Value>, field: string, values: seq<Value>)
    ensures values == [] ==> Assign(entries, field, values) == entries
    ensures values != [] ==> Assign(entries, field, values) == entries[field := values[|values| - 1]]
  {
    if values != [] {
      AssignLast(entries, field, values[..|values| - 1]);
    }
  }

  /** The last value a key field matches in the condition, if it matches any. */
  function LastMatch(condition: Condition, field: string): Option<Value>
  {
    var vs := MatchedValues(condition, field);
    if vs == [] then None else Some(vs[|vs| - 1])
  }

  /**
   * After Update's key loop, a declared key field that the condition matches holds its last
   * matched value; every other field is exactly as it was.
   */
  lemma {:induction false} MirroredAt(entries: map<string, Value>, condition: Condition, keys: seq<string>, field: string)
    ensures field in keys && LastMatch(condition, field).Some? ==>
      field in Mirrored(entries, condition, keys)
      && Mirrored(entries, condition, keys)[field] == LastMatch(condition, field).value
    ensures !(field in keys && LastMatch(condition, field).Some?) ==>
      (field in Mirrored(entries, condition, keys) <==> field in entries)
      && (field in entries ==> Mirrored(entries, condition, keys)[field] == entries[field])
  {
    if keys != [] {
      var front := keys[..|keys| - 1];
      var last := keys[|keys| - 1];
      var before := Mirrored(entries, condition, front);
      var vs := MatchedValues(condition, last);
      assert Mirrored(entries, condition, keys) == Assign(before, last, vs);
      AssignLast(before, last, vs);
      MirroredAt(entries, condition, front, field);
      assert keys == front + [last];
      if field == last {
        assert LastMatch(condition, field).Some? <==> vs != [];
      } else {
        assert field in keys <==> field in front;
      }
    }
  }

  /** One more key in the loop is one more Assign. */
  lemma MirroredStep(entries: map<string, Value>, condition: Condition, keys: seq<string>, i: nat)
    requires i < |keys|
    ensures Mirrored(entries, condition, keys[..i + 1])
      == Assign(Mirrored(entries, condition, keys[..i]), keys[i], MatchedValues(condition, keys[i]))
  {
    assert keys[..i + 1][..i] == keys[..i];
  }

  /** `condition.Match(field, c => dictionary.TrySetValue(c.Name, c.Value))`: one TrySetValue per matched leaf. */
  method AssignMatches(dictionary: DataDictionary, field: string, matched: seq<Value>)
    modifies dictionary
    ensures dictionary.entries == Assign(old(dictionary.entries), field, matched)
  {
    ghost var before := dictionary.entries;
    for j := 0 to |matched|
      invariant dictionary.entries == Assign(before, field, matched[..j])
    {
      dictionary.TrySetValue(field, matched[j]);
      assert matched[..j + 1][..j] == matched[..j];
    }
    assert matched[..|matched|] == matched;
  }

  /** Update's loop over the declared key fields, mirroring each matched key value into the dictionary. */
  method MirrorKeys(dictionary: DataDictionary, condition: Condition, keys: seq<string>)
    modifies dictionary
    ensures dictionary.entries == Mirrored(old(dictionary.entries), condition, keys)
  {
    ghost var start := dictionary.entries;
    for i := 0 to |keys|
      invariant dictionary.entries == Mirrored(start, condition, keys[..i])
    {
      AssignMatches(dictionary, keys[i], MatchedValues(condition, keys[i]));
      MirroredStep(start, condition, keys, i);
    }
    assert keys[..|keys|] == keys;
  }
}
