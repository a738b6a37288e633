/**
 * What a dispatch call ends in: the selected value, or the kind of error it
 * throws. Message texts are not modelled, only the kinds.
 */
module Outcomes {

  /**
   * NoMatch is the ReferenceError thrown when nothing matches (a lookup
   * failure); the other three are the plain Errors thrown for a malformed
   * conditional pattern (usage errors).
   */
  datatype MatchError = NoMatch | DefaultNotLast | InvalidBranch | InvalidPredicate {
    predicate IsUsageError() {
      !NoMatch?
    }
  }

  datatype Outcome<R> = Ok(value: R) | Fail(error: MatchError)
}
