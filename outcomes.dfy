/** Failure-compatible result type for the generator's error paths (the Python exceptions it can raise). */
module Outcomes {

  /** The exceptions the generator can raise on its own inputs. */
  datatype Error =
    | SampleLargerThanPopulation  // random.sample asked for more elements than the population has (ValueError)
    | ZeroDivision                // `%` or `//` by zero (ZeroDivisionError)
    | IndexOutOfRange             // indexing an empty list (IndexError)

  datatype Result<+T> = Ok(value: T) | Err(error: Error) {
    predicate IsFailure() { Err? }

    function PropagateFailure<U>(): Result<U>
      requires Err?
    {
      Err(error)
    }

    function Extract(): T
      requires Ok?
    {
      value
    }
  }
}
