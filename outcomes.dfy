/** The two wrappers the component needs: an optional value (`null` or a
    record) and the result of one awaited network request. */
module Outcomes {

  /** `null` or a value. */
  datatype Option<+T> = None | Some(value: T)

  /** What an awaited axios request produced: the response body, or a
      rejection (a network failure or a non-2xx status; the component does
      not tell them apart). */
  datatype Outcome<+T> = Ok(payload: T) | Fail
}
