/** Result types used by the report pipeline. `Option` carries the outcome
    of a parse step, `Result` the outcome of a pipeline step that the program
    would abort with an exception. */
module Wrappers {

  datatype Option<+T> = None | Some(value: T)

  datatype Result<+R, +E> = Success(value: R) | Failure(error: E)

  /** The error of the first failing step of a sequence of steps run in
      order, or `None` when every step succeeds. */
  function FirstFailure<R, E>(steps: seq<Result<R, E>>): (e: Option<E>)
    ensures e.None? <==> forall i :: 0 <= i < |steps| ==> steps[i].Success?
    ensures e.Some? ==>
      exists i :: 0 <= i < |steps| && steps[i].Failure? && steps[i].error == e.value &&
                  forall j :: 0 <= j < i ==> steps[j].Success?
    decreases |steps|
  {
    if |steps| == 0 then None
    else if steps[0].Failure? then Some(steps[0].error)
    else
      assert forall i :: 1 <= i < |steps| ==> steps[1..][i - 1] == steps[i];
      FirstFailure(steps[1..])
  }
}
