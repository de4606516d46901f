/** The two ways an operation of the model can end without a value. */
module Outcomes {

  /** A value that may be missing, as a JavaScript `null`. */
  datatype Option<T> = None | Some(value: T)

  /** Why a step throws instead of returning. */
  datatype Fault =
    | NullBestPoint   // `findNextOrigin` compares an angle equal to 360 with `best_angle` while `best_point` is null
    | NullCandidate   // `findNextOrigin` returns null and `shallowEqualityCheck` reads the keys of null
    | NoPoints        // `getUpperHull` on no points: its extremes are `undefined` and reading their y throws
    | NoMedianSlope   // every pair of the round is vertical, so the median slope is `undefined`
    | EmptyUpperChain // the upper chain is empty after its last point is popped

  /** A value, or the exception the source would have thrown instead. */
  datatype Result<T> = Ok(value: T) | Err(fault: Fault)
}
