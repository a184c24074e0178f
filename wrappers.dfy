/** Failure-compatible wrappers used throughout the model: an optional value
    (a Kotlin nullable) and a result that is either a value or an error
    (a Kotlin exception). */
module Wrappers {

  datatype Option<+T> = None | Some(value: T)

  datatype Result<+T, +E> = Success(value: T) | Failure(error: E) {

    predicate IsFailure() {
      Failure?
    }

    function PropagateFailure<U>(): Result<U, E>
      requires Failure?
    {
      Failure(error)
    }

    function Extract(): T
      requires Success?
    {
      value
    }
  }

  /** The outcome of a step that returns nothing but may fail. */
  datatype Outcome<+E> = Pass | Fail(error: E)

  /** A map read that gives null for a missing key, as Kotlin's `Map.get`
      and a repository's lookup by primary key do. */
  function Get<K, V>(m: map<K, V>, k: K): (r: Option<V>)
    ensures r.Some? <==> k in m
    ensures r.Some? ==> r.value == m[k]
  {
    if k in m then Some(m[k]) else None
  }
}
