/** The three failures the engine raises, plus the null plan handed to the adopting constructor. */
module Errors {

  datatype Error =
    | BadNumber    // a dimension or mine count out of range
    | BadCoords    // a cell coordinate off the plan
    | WrongAction  // an action that does not apply to the cell (marking an uncovered cell)
    | NullPlan     // the NullPointerException of the adopting constructor and of setPlan

  /** A query that either answers or raises. */
  datatype Result<T> = Ok(value: T) | Err(error: Error)

  /** A command that either completes or raises. */
  datatype Outcome = Pass | Fail(error: Error)
}
