/** Failure-compatible wrappers shared by the whole model, and the built-in Python
    exceptions that the pipeline raises. */
module Common {

  /** A value that may be absent: pandas' missing marker (NaN / NA) in a numeric cell. */
  datatype Option<+T> = None | Some(value: T) {
    function GetOr(default: T): T {
      match this
      case Some(v) => v
      case None => default
    }
  }

  /** The exceptions the modelled code raises. `NotFittedError` is scikit-learn's, which
      derives from both `ValueError` and `AttributeError`. */
  datatype Error =
    | ValueError(message: string)
    | KeyError(message: string)
    | AttributeError(message: string)
    | NotFittedError(message: string)

  /** The outcome of an operation that returns a value or raises. */
  datatype Result<+T> = Ok(value: T) | Err(error: Error) {
    predicate IsFailure() {
      Err?
    }

    function PropagateFailure<U>(): Result<U>
      requires Err?
    {
      Err(error)
    }

    function Extract(): T
      requires Ok?
    {
      value
    }
  }

  /** The outcome of an operation that returns nothing (a Python method returning `self`) or raises. */
  datatype Outcome = Pass | Fail(error: Error)

  /** Where Python's slice `xs[:k]` ends on a sequence of length `n`: a negative `k` counts
      from the end and both directions are clamped to the sequence. */
  function SliceEnd(k: int, n: nat): (b: nat)
    ensures b <= n
    ensures 0 <= k ==> b == if k < n then k else n
  {
    if k < 0 then (if n + k < 0 then 0 else n + k)
    else if k < n then k
    else n
  }

  /** Python's `int(x)` on a real: truncation toward zero (Dafny's `.Floor` rounds down). */
  function Trunc(x: real): (i: int)
    ensures x >= 0.0 ==> i as real <= x < i as real + 1.0
    ensures x < 0.0 ==> i as real - 1.0 < x <= i as real
  {
    if x >= 0.0 then x.Floor else -((-x).Floor)
  }
}
