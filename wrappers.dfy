/** Optional values and fallible results, standing for TypeScript's
    `T | undefined` / `T | null` and for a rejected promise or thrown Error. */
module Wrappers {

  datatype Option<+T> = None | Some(value: T)

  /** `Failure` carries the message of the Error the source throws. */
  datatype Result<+T> = Success(value: T) | Failure(error: string)
}
