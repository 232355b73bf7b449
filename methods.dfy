/** The nested `Method` struct: a verb name tagged with the storage operation kind it routes to. */
module Methods {
  import opened Wrappers

  /** DataAccessMethod: the kind of storage operation. */
  datatype Kind = Select | Count | Exists | Execute | Increment | Delete | Insert | Update | Upsert

  /** `kind.ToString()`. */
  function KindName(k: Kind): string {
    match k
    case Select => "Select"
    case Count => "Count"
    case Exists => "Exists"
    case Execute => "Execute"
    case Increment => "Increment"
    case Delete => "Delete"
    case Insert => "Insert"
    case Update => "Update"
    case Upsert => "Upsert"
  }

  datatype Method = Method(name: string, kind: Kind)
  {
    /** The private constructor `Method(kind)`: the kind's own name. */
    static function OfKind(k: Kind): (m: Method)
      ensures m.kind == k && m.name == KindName(k)
    {
      Method(KindName(k), k)
    }

    /** The private constructor `Method(name, kind)`: a null name falls back to the kind's name. */
    static function Named(name: Option<string>, k: Kind): (m: Method)
      ensures m.kind == k
      ensures m.name == if name.Some? then name.value else KindName(k)
    {
      Method(if name.Some? then name.value else KindName(k), k)
    }

    static function Get(): (m: Method)
      ensures m.kind == Kind.Select && m.name == "Get"
    {
      Named(Some("Get"), Kind.Select)
    }

    static function Count(): Method { OfKind(Kind.Count) }

    static function Exists(): Method { OfKind(Kind.Exists) }

    static function Execute(): (m: Method)
      ensures !m.IsReading() && !m.IsWriting()
    {
      OfKind(Kind.Execute)
    }

    static function Increment(): Method { Named(Some("Increment"), Kind.Increment) }

    static function Decrement(): (m: Method)
      ensures m.kind == Increment().kind && m.name != Increment().name
    {
      Named(Some("Decrement"), Kind.Increment)
    }

    /** `Select(name)`: a null or empty name gives the plain Select method. */
    static function Select(name: Option<string>): (m: Method)
      ensures m.kind == Kind.Select
      ensures m.name == if name.None? || name.value == "" then "Select" else name.value
    {
      if name.None? || name.value == "" then OfKind(Kind.Select) else Named(name, Kind.Select)
    }

    static function Delete(): Method { OfKind(Kind.Delete) }

    static function Insert(): Method { OfKind(Kind.Insert) }

    static function InsertMany(): (m: Method)
      ensures m.kind == Insert().kind && m.name == "InsertMany" != Insert().name
    {
      Named(Some("InsertMany"), Kind.Insert)
    }

    static function Update(): Method { OfKind(Kind.Update) }

    static function UpdateMany(): (m: Method)
      ensures m.kind == Update().kind && m.name == "UpdateMany" != Update().name
    {
      Named(Some("UpdateMany"), Kind.Update)
    }

    static function Upsert(): Method { OfKind(Kind.Upsert) }

    static function UpsertMany(): (m: Method)
      ensures m.kind == Upsert().kind && m.name == "UpsertMany" != Upsert().name
    {
      Named(Some("UpsertMany"), Kind.Upsert)
    }

    /** A reading method: Count, Exists or Select. */
    predicate IsReading() {
      kind == Kind.Count || kind == Kind.Exists || kind == Kind.Select
    }

    /** A writing method: Increment, Delete, Insert, Update or Upsert. */
    predicate IsWriting()
      ensures IsWriting() ==> !IsReading()
    {
      kind == Kind.Increment || kind == Kind.Delete || kind == Kind.Insert
      || kind == Kind.Update || kind == Kind.Upsert
    }

    /** `Equals(Method)`: same kind and ordinally equal names. */
    predicate Equals(other: Method)
      ensures Equals(other) <==> this == other
    {
      kind == other.kind && name == other.name
    }

    /** `GetHashCode()`: the hash of the name alone, for whatever string hash is in use. */
    function GetHashCode(hashString: string -> int): int
    {
      hashString(name)
    }
  }

  /** Every method is exactly one of reading, writing, or an Execute. */
  lemma Classification(m: Method)
    ensures m.IsReading() || m.IsWriting() || m.kind == Kind.Execute
    ensures m.kind == Kind.Execute <==> !m.IsReading() && !m.IsWriting()
  {
  }

  /** Equal methods have equal hash codes, whichever string hash is used. */
  lemma HashCodeAgreesWithEquals(a: Method, b: Method, hashString: string -> int)
    requires a.Equals(b)
    ensures a.GetHashCode(hashString) == b.GetHashCode(hashString)
  {
  }

  /** The methods the struct's named factories produce. */
  function Canonical(): seq<Method> {
    [Method.Get(), Method.Count(), Method.Exists(), Method.Execute(), Method.Increment(),
     Method.Decrement(), Method.Select(None), Method.Delete(), Method.Insert(),
     Method.InsertMany(), Method.Update(), Method.UpdateMany(), Method.Upsert(), Method.UpsertMany()]
  }

  /** Among the factory-made methods a name fixes the method, so hashing on the name loses nothing. */
  lemma CanonicalNamesDetermineKind()
    ensures forall i, j ::
      0 <= i < |Canonical()| && 0 <= j < |Canonical()| && Canonical()[i].name == Canonical()[j].name
      ==> i == j
  {
  }

  /** `Select(name)` can borrow another factory's name: equal hash codes, unequal methods. */
  lemma SelectMayShareName(hashString: string -> int)
    ensures Method.Select(Some("Count")).GetHashCode(hashString) == Method.Count().GetHashCode(hashString)
    ensures !Method.Select(Some("Count")).Equals(Method.Count())
  {
  }
}
