/** Optional values, results, and the error kinds the logging core raises. */
module Wrappers {

  datatype Option<+T> = None | Some(value: T)

  /** The exceptions of the logging core, without their message texts. */
  datatype Failure =
    | ConfigExists(key: string)        // LogException::forConfigExists
    | InvalidClass(className: string)  // LogException::forInvalidClass
    | InvalidConfig(key: string)       // LogException::forInvalidConfig
    | BadMethodCall                    // BadMethodCallException for an unknown level name
    | TypeError                        // PHP TypeError raised by a strict_types argument check

  datatype Result<+T> = Ok(value: T) | Err(error: Failure)
}
