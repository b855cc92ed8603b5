/** Failure-aware results for the FINN to FF10 conversion.
    The script signals every failure by raising a Python exception that aborts
    the whole run; the model returns the exception kind instead. */
module Outcomes {

  /** The exception kinds the conversion can raise. */
  datatype Fault =
    | KeyError    // lookup of an absent dictionary key or table column
    | IndexError  // list or array index out of range
    | ValueError  // text that is not a number, or not a date

  /** A value that may be missing (Python's None). */
  datatype Option<+T> = None | Some(value: T)

  /** Either a value or the exception that aborted its computation. */
  datatype Result<+T> = Ok(value: T) | Err(fault: Fault) {

    predicate IsFailure() {
      Err?
    }

    function PropagateFailure<U>(): Result<U>
      requires Err?
    {
      Err(fault)
    }

    function Extract(): T
      requires Ok?
    {
      value
    }
  }

  /** `series.apply(f)`: `f` on every element in order, the first element on
      which it raises aborting the whole column with that exception. */
  function MapAll<A, B>(xs: seq<A>, f: A -> Result<B>): (r: Result<seq<B>>)
    ensures r.Ok? <==> forall i :: 0 <= i < |xs| ==> f(xs[i]).Ok?
    ensures r.Ok? ==> |r.value| == |xs| && forall i :: 0 <= i < |xs| ==> r.value[i] == f(xs[i]).value
    ensures r.Err? ==> exists i :: 0 <= i < |xs| && f(xs[i]) == Err(r.fault) && forall j :: 0 <= j < i ==> f(xs[j]).Ok?
  {
    if |xs| == 0 then Ok([])
    else
      match f(xs[0])
      case Err(e) => Err(e)
      case Ok(y) =>
        match MapAll(xs[1..], f)
        case Err(e) =>
          assert forall i :: 0 <= i < |xs| - 1 ==> xs[1..][i] == xs[i + 1];
          Err(e)
        case Ok(ys) => Ok([y] + ys)
  }
}
