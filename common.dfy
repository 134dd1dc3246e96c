/** Shared vocabulary of the tax engine: the error results the Python code
    raises as ValueError / KeyError, an optional value for dictionary lookups,
    and the clamping helpers `max` and `min` on amounts. */
module Common {

  /** The ways a tax computation can fail. */
  datatype TaxError =
    | NegativeIncome   // ValueError('income must be nonnegative')
    | TooManyBrackets  // ValueError('bracket boundaries may not exceed number of tax brackets')
    | MissingBracket   // KeyError: the selected bracket key is not in the table

  /** A computed amount, or the error the source raises instead. */
  datatype Result<T> = Ok(value: T) | Err(error: TaxError)

  datatype Option<T> = None | Some(value: T)

  function Max(a: real, b: real): (m: real) { if a < b then b else a }

  function Min(a: real, b: real): (m: real) { if a < b then a else b }
}
