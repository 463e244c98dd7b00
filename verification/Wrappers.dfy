/** Optional values and fallible results, as the source's `Option` and `Result`. */
module Wrappers {
  datatype Option<+T> = None | Some(value: T)

  datatype Result<+T, +E> = Success(value: T) | Failure(error: E)

  function OrElse<T>(o: Option<T>, default: T): T {
    match o case Some(v) => v case None => default
  }

  /** A successful list with more in front of it. */
  function Prefixed<T, E>(prefix: seq<T>, r: Result<seq<T>, E>): Result<seq<T>, E> {
    match r
    case Failure(e) => Failure(e)
    case Success(rest) => Success(prefix + rest)
  }

  lemma PrefixedTwice<T, E>(a: seq<T>, b: seq<T>, r: Result<seq<T>, E>)
    ensures Prefixed(a, Prefixed(b, r)) == Prefixed(a + b, r)
    ensures Prefixed([], r) == r
  {
    if r.Success? {
      assert a + (b + r.value) == (a + b) + r.value;
      assert [] + r.value == r.value;
    }
  }
}
