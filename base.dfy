/** Vocabulary shared by every stage of the pipeline: optional values, the
    exceptions the core lets escape, results that carry them, and Python's
    `ceil(a / b)` on non-negative integers. */
module Base {

  datatype Option<T> = None | Some(value: T)

  /** The exceptions that escape the core, by Python class. */
  datatype Error =
    | ValueError      // text not matching the pattern, an unsupported type, a zero slice step, no "rates"
    | TypeError       // strptime without a pattern; mixing a date with a datetime
    | AssertionError  // a window of more than 365 days reaches the fetch
    | HttpError       // raise_for_status on a non-success response

  /** A value or the exception raised instead; usable with `:-`. */
  datatype Result<T> = Ok(value: T) | Err(error: Error) {
    predicate IsFailure() {
      Err?
    }

    function PropagateFailure<U>(): Result<U>
      requires Err?
    {
      Err(error)
    }

    function Extract(): T
      requires Ok?
    {
      value
    }
  }

  /** `ceil(a / b)`: the least c whose multiple c * b reaches a. */
  function CeilDiv(a: nat, b: nat): (c: nat)
    requires b > 0
    ensures c * b >= a
    ensures c > 0 ==> (c - 1) * b < a
    ensures a > 0 <==> c > 0
  {
    var c := (a + b - 1) / b;
    assert c * b + (a + b - 1) % b == a + b - 1;
    c
  }

  function Abs(x: int): nat {
    if x < 0 then -x else x
  }
}
