/** The data dictionary a write operation works on: field name to value, updated in place. */
module Dictionaries {
  import opened Conditions

  class DataDictionary {
    var entries: map<string, Value>

    /** DataDictionary.GetDictionary(data): the entries read off the caller's object. */
    constructor (entries: map<string, Value>)
      ensures this.entries == entries
    {
      this.entries := entries;
    }

    /** TryGetValue: whether the field is present and, if so, its value (null otherwise). */
    method TryGetValue(name: string) returns (found: bool, value: Value)
      ensures found <==> name in entries
      ensures found ==> value == entries[name]
      ensures !found ==> value == Null
    {
      found := name in entries;
      value := if found then entries[name] else Null;
    }

    /** TrySetValue: the field takes the value; every other field keeps its own. */
    method TrySetValue(name: string, value: Value)
      modifies this
      ensures entries == old(entries)[name := value]
    {
      entries := entries[name := value];
    }
  }
}
