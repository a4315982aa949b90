/** Option for values a call may or may not produce, and Outcome for calls that
    can throw std::runtime_error instead of returning. */
module Wrappers {

  datatype Option<+T> = None | Some(value: T)

  /** Either the call returned `value`, or it threw a runtime_error carrying `error`. */
  datatype Outcome<+T> = Returned(value: T) | Threw(error: string)
}
