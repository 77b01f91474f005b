/**
 * Shared value types: a slot that pandas may leave empty (NaN), and the
 * outcome of an operation that can raise one of the Python exceptions the
 * trading code runs into; the sum of a list of amounts, and the sign of a
 * product.
 */
module Common {

  /** A value, or the empty slot that pandas fills with NaN. */
  datatype Option<T> = None | Some(value: T)

  /** The exceptions the modelled code can raise. */
  datatype PyError =
    | KeyError           // a missing dictionary key or DataFrame column
    | IndexError         // a positional read past the end of a list or Series
    | ValueError         // a rejected argument (or a column-count mismatch)
    | ZeroDivisionError  // a float division by zero
    | UnboundLocalError  // a local read before it was ever assigned

  /** The value an operation returns, or the exception it raises. */
  datatype Result<T> = Success(value: T) | Failure(error: PyError)

  /** The sum of a list of amounts. */
  function Sum(s: seq<real>): real {
    if s == [] then 0.0 else s[0] + Sum(s[1..])
  }

  /** A product of non-negative factors is non-negative. */
  lemma MulNonNegative(a: real, b: real)
    requires 0.0 <= a && 0.0 <= b
    ensures 0.0 <= a * b
  {
  }
}
