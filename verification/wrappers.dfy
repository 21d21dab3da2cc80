/**
 * Failure-compatible wrappers shared by every module of the model.
 *
 * The Java code signals failures with exceptions (`SQLException`,
 * `IllegalArgumentException`, `NullPointerException`, ...).  The model
 * returns them as values: a `Result` carries a value or an `Error`, an
 * `Outcome` only says whether an operation that mutates state went through.
 */
module Wrappers {

  datatype Option<+T> = None | Some(value: T)

  /** The exception kinds the modelled code can raise. */
  datatype Error =
    | SqlError(msg: string)          // java.sql.SQLException
    | IllegalArgument(msg: string)   // IllegalArgumentException
    | NullPointer                    // dereference of a null the code did not check
    | IndexOutOfBounds               // array, list or string index out of range
    | NoSuchElement(msg: string)     // iterator read past its end
    | NumberFormat(text: string)     // Integer.valueOf on a malformed string
    | Unchecked(cause: Error)        // a checked exception rethrown as RuntimeException
    | Runtime(msg: string)           // a RuntimeException raised with a message of its own

  datatype Result<+T> = Ok(value: T) | Fail(error: Error) {

    predicate IsFailure() {
      Fail?
    }

    function PropagateFailure<U>(): Result<U>
      requires Fail?
    {
      Fail(error)
    }

    function Extract(): T
      requires Ok?
    {
      value
    }
  }

  /** The status of an operation whose effect is a new state rather than a value. */
  datatype Outcome = Pass | Failed(error: Error) {

    predicate IsFailure() {
      Failed?
    }

    function PropagateFailure(): Outcome
      requires Failed?
    {
      this
    }
  }

  /**
   * Apply a fallible step to each element in order, stopping at the first failure:
   * the shape of a Java loop whose body may throw.
   */
  function MapAll<T, U>(xs: seq<T>, f: T -> Result<U>): (r: Result<seq<U>>)
    ensures r.Ok? ==> |r.value| == |xs| && forall i :: 0 <= i < |xs| ==> f(xs[i]) == Ok(r.value[i])
    ensures r.Fail? <==> exists i :: 0 <= i < |xs| && f(xs[i]).Fail?
    ensures r.Fail? ==>
      exists i :: (0 <= i < |xs| && f(xs[i]) == Fail(r.error) &&
        forall j :: 0 <= j < i ==> f(xs[j]).Ok?)
    decreases |xs|
  {
    if |xs| == 0 then Ok([])
    else
      var y :- f(xs[0]);
      var ys :- MapAll(xs[1..], f);
      assert forall i :: 1 <= i < |xs| ==> xs[i] == xs[1..][i - 1];
      Ok([y] + ys)
  }
}
