/** Option and Result, used for the source's optional values, exceptions and error returns,
    and constant sequences. */
module Wrappers {
  datatype Option<+T> = None | Some(value: T) {
    function GetOr(default: T): T {
      match this
      case Some(v) => v
      case None => default
    }
  }

  datatype Result<+T, +E> = Ok(value: T) | Err(error: E)

  function Repeat<T>(x: T, n: nat): (s: seq<T>)
    ensures |s| == n && forall k :: 0 <= k < n ==> s[k] == x
  {
    if n == 0 then [] else [x] + Repeat(x, n - 1)
  }
}
