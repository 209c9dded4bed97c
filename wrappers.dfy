/** Failure-carrying result types shared by the other modules. */
module Wrappers {

  datatype Option<+T> = None | Some(value: T)

  /** Either a value or the error that aborted the computation. */
  datatype Result<+R, +E> = Success(value: R) | Failure(error: E) {
    predicate IsFailure() {
      Failure?
    }

    function PropagateFailure<U>(): Result<U, E>
      requires Failure?
    {
      Failure(error)
    }

    function Extract(): R
      requires Success?
    {
      value
    }
  }

  /** Index of the first failure in rs, or |rs| when every entry succeeded. */
  function FirstFailure<T, E>(rs: seq<Result<T, E>>): (k: nat)
    ensures k <= |rs|
    ensures forall j :: 0 <= j < k ==> rs[j].Success?
    ensures k < |rs| ==> rs[k].Failure?
  {
    if rs == [] then 0
    else if rs[0].Failure? then 0
    else 1 + FirstFailure(rs[1..])
  }

  /**
   * Runs the steps in order: all their values, or the error of the first
   * step that failed (as a loop that raises at the first failure does).
   */
  function Sequence<T, E>(rs: seq<Result<T, E>>): (r: Result<seq<T>, E>)
    ensures r.Success? <==> FirstFailure(rs) == |rs|
    ensures r.Success? ==> |r.value| == |rs| && forall i :: 0 <= i < |rs| ==> Success(r.value[i]) == rs[i]
    ensures r.Failure? ==> r.error == rs[FirstFailure(rs)].error
  {
    if rs == [] then Success([])
    else if rs[0].Failure? then Failure(rs[0].error)
    else
      match Sequence(rs[1..])
      case Failure(e) => Failure(e)
      case Success(xs) =>
        assert forall i :: 1 <= i < |rs| ==> rs[1..][i - 1] == rs[i];
        Success([rs[0].value] + xs)
  }
}
