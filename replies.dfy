/** How a request to the database service ends, as the components observe it. */
module Replies {
  /**
   * Answered: the request succeeds (a read delivers its rows, a write is
   * applied). Refused: the reply carries an error and `data` is null; the
   * client library returns it rather than throwing. Threw: the promise
   * rejects, so control passes to the enclosing `catch`, if any.
   */
  datatype Outcome = Answered | Refused | Threw
}
