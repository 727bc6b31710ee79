/** Option and Result wrappers for the gateway model: `Option` stands for the
    source's `null`/`undefined`, `Result` for a call that may throw. */
module Wrappers {

  datatype Option<+T> = None | Some(value: T)

  /** The outcome of a call into a collaborator: a value or the message of the
      exception it threw. */
  datatype Result<+T> = Ok(value: T) | Err(message: string)
}
