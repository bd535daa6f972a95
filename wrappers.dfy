/** Optional values and failure-compatible results, used for the optional clip
    bounds and for the exceptions the pipeline raises. */
module Wrappers {

  datatype Option<+T> = None | Some(value: T)

  datatype Result<+T, +E> = Ok(value: T) | Err(error: E) {
    predicate IsFailure() { Err? }

    function PropagateFailure<U>(): Result<U, E>
      requires Err?
    {
      Err(error)
    }

    function Extract(): T
      requires Ok?
    {
      value
    }
  }
}

/** The exceptions raised along the graph-to-array pipeline. */
module Errors {

  datatype Error =
    | NothingToStack          // vstack of an empty list of node values
    | RaggedStack             // node sequences of unequal length
    | NegativeDimension       // rolling_mean allocating a buffer with a negative extent
    | UndeterminedReshape     // reshape(-1, 0): no extent can be inferred for -1
    | WindowLongerThanSeries  // convolve of a series shorter than the window
    | MissingKey(key: string) // a graph-level metadata key that is absent
    | EmptyIndex              // indexing row 0 of an array with no rows
}
