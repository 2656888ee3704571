/** Failure-carrying result types shared by the rest of the model. */
module Wrappers {

  /** An optional value: a detected file type, or the index of a failing item. */
  datatype Option<+T> = None | Some(value: T)

  /** The outcome of an operation that returns nothing on success and raises on failure. */
  datatype Outcome<+E> = Pass | Fail(error: E)

  /** A value or the error that prevented computing it. */
  datatype Result<+R, +E> = Success(value: R) | Failure(error: E)

  /** The position of the first element of `s` that is `bad`, as a loop that stops at the first failing item finds it. */
  function FirstWhere<T>(s: seq<T>, bad: T -> bool): (r: Option<nat>)
    ensures r.None? <==> forall i :: 0 <= i < |s| ==> !bad(s[i])
    ensures r.Some? ==> r.value < |s| && bad(s[r.value]) && forall i :: 0 <= i < r.value ==> !bad(s[i])
  {
    if s == [] then None
    else if bad(s[0]) then Some(0)
    else
      match FirstWhere(s[1..], bad)
      case None => None
      case Some(k) => Some(k + 1)
  }
}
