/** Option, Result and Outcome: the values a call of the build script can produce. */
module Wrappers {

  datatype Option<+T> = None | Some(value: T)

  /** An operation that returns a value or throws an error. */
  datatype Result<+T, +E> = Ok(value: T) | Err(error: E)

  /** An operation run for its effect, which completes or throws an error. */
  datatype Outcome<+E> = Pass | Fail(error: E)

  /** Forgets the value of a result, keeping only whether (and what) it threw. */
  function OutcomeOf<T, E>(r: Result<T, E>): (o: Outcome<E>)
    ensures o.Pass? <==> r.Ok?
    ensures r.Err? ==> o.error == r.error
  {
    match r
    case Ok(_) => Pass
    case Err(e) => Fail(e)
  }
}
