/** Explicit absence and failure, in place of Python's `None` and raised exceptions. */
module Wrappers {

  /** `None` is the extractor's "no samples in this window". */
  datatype Option<+T> = None | Some(value: T)

  /** `Err` stands for an exception raised out of a step, with a short reason. */
  datatype Result<+T> = Ok(value: T) | Err(error: string)
}
