/** Go's `error` results. */
module Outcomes {
  /** The errors that a caller can tell apart; all others are Failed. */
  datatype Error = Failed | MissingSubscription

  datatype Outcome = Pass | Fail(error: Error)
}
