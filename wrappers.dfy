/** Optional values and fallible results, used wherever the analyser returns an
  * `Option`, unwraps one, or reports an error instead of a value. */
module Wrappers {

  datatype Option<T> = None | Some(value: T)
  {
    predicate IsSome() { this.Some? }

    function GetOr(default: T): (r: T)
      ensures this.Some? ==> r == value
      ensures this.None? ==> r == default
    {
      match this
      case Some(v) => v
      case None => default
    }
  }

  datatype Result<T> = Success(value: T) | Failure(error: string)
  {
    predicate IsFailure() { this.Failure? }
  }
}
