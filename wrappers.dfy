/** Optional values and failures, for Python's `None` and raised errors. */
module Wrappers {
  datatype Option<T> = None | Some(value: T)

  datatype Result<T> = Success(value: T) | Failure(error: string)

  /** `xs[0] if xs else None`. */
  function First<T>(xs: seq<T>): (r: Option<T>)
    ensures xs == [] <==> r == None
    ensures r.Some? ==> r.value == xs[0]
  {
    if xs == [] then None else Some(xs[0])
  }
}
