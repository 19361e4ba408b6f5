/** Python exceptions that the modelled code can raise, and the results that carry them. */
module Results {

  /** The exceptions the modelled code can raise. ValueError is `int()` or `float()` of a
      cell that is not a number; NeverTerminates stands for a `while` loop that would
      repeat the same iteration forever. */
  datatype Error = IndexError | TypeError | ValueError | ZeroDivisionError | NeverTerminates

  datatype Option<T> = None | Some(value: T)

  datatype Result<T> = Ok(value: T) | Err(error: Error)

  /** The outcome of a call that returns nothing useful but may raise. */
  datatype Outcome = Pass | Fail(error: Error)
}
