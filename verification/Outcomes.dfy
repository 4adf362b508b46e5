/** Results of operations that may throw, and optional values. */
module Outcomes {

  datatype Option<+T> = None | Some(value: T)

  /** `Throw` stands for a C++ exception that leaves the operation. */
  datatype Result<+T> = Ok(value: T) | Throw(message: string)
}
