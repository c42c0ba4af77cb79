/** Optional values and the exceptions the library throws, as values. */
module Wrappers {

  datatype Option<T> = None | Some(value: T)

  /** The standard exception classes thrown by the modelled code. */
  datatype Error =
    | InvalidArgument   // std::invalid_argument
    | DomainError       // std::domain_error
    | OutOfRange        // std::out_of_range
    | RuntimeError      // std::runtime_error

  datatype Result<T> = Ok(value: T) | Err(error: Error)
}
