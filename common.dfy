/** Values shared by every part of the model: identifiers, time, roles and
    the Option/Result wrappers the controllers use for their error paths. */
module Common {

  /** A database identifier (a Mongo ObjectId). Identifiers are handed out by
      the store and are never reused. */
  type Id = nat

  /** A point in time, in whole seconds since the epoch. */
  type Time = int

  datatype Option<+T> = None | Some(value: T)

  datatype Result<+T, +E> = Ok(value: T) | Err(error: E)

  /** The three account roles. */
  datatype Role = Admin | Officer | Citizen

  /** A lookup by key (`findOne`, `findById`, `$lookup`): the position of
      the first element whose key is `k`, or `None` when no element has it. */
  function Find<T, K(==)>(s: seq<T>, key: T -> K, k: K): (r: Option<nat>)
    ensures r.Some? ==> r.value < |s| && key(s[r.value]) == k
    ensures r.Some? ==> forall j :: 0 <= j < r.value ==> key(s[j]) != k
    ensures r.None? <==> forall j :: 0 <= j < |s| ==> key(s[j]) != k
  {
    if s == [] then None
    else if key(s[0]) == k then Some(0)
    else match Find(s[1..], key, k)
      case None => None
      case Some(i) => Some(i + 1)
  }

  /** JavaScript truthiness of an optional string field of a request body:
      a missing field and the empty string are both falsy. */
  predicate Truthy(field: Option<string>)
  {
    field.Some? && field.value != ""
  }
}
