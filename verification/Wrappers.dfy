/** Failure-carrying datatypes shared by every component. */
module Wrappers {
  datatype Option<+T> = None | Some(value: T)

  datatype Result<+T, +E> = Ok(value: T) | Err(error: E)

  // How one call into a store ends: with its effect, without it, or with it but no reply.
  datatype Outage = Answered | Failed | ReplyLost
}
