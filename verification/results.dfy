/** Optional values and success/failure results shared by every module of the model. */
module Results {

  /** A value that may be absent: a nullable column, an unset request field, a failed lookup. */
  datatype Option<T> = None | Some(value: T)

  /** The outcome of an operation that can be rejected with an error of type `E`. */
  datatype Result<T, E> = Success(value: T) | Failure(error: E)

  /** The supplied value when there is one, the fallback otherwise. */
  function GetOr<T>(o: Option<T>, fallback: T): (r: T)
    ensures o.Some? ==> r == o.value
    ensures o.None? ==> r == fallback
  {
    match o
    case Some(v) => v
    case None => fallback
  }
}
