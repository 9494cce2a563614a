/** Option and Result values for lookups and operations that can fail. */
module Wrappers {

  datatype Option<T> = None | Some(value: T) {
    function GetOr(default: T): T
    {
      match this
      case Some(v) => v
      case None => default
    }

    /** The value as a sequence of at most one element. */
    function ToSeq(): (s: seq<T>)
      ensures |s| <= 1 && (s == [] <==> None?)
      ensures Some? ==> s == [value]
    {
      match this
      case Some(v) => [v]
      case None => []
    }
  }

  datatype Result<T, E> = Ok(value: T) | Err(error: E)
}
