/** Failure-carrying result types shared by the probe's components. */
module Wrappers {

  datatype Option<+T> = None | Some(value: T)

  /** The value of an operation that either produces a result or fails. */
  datatype Result<+R, +E> = Success(value: R) | Failure(error: E)

  /** The value of an operation that either succeeds with nothing to return or fails. */
  datatype Outcome<+E> = Pass | Fail(error: E)

  /** The errors the probe reports. */
  datatype Error =
    | OpenFailed(path: string)         // the properties file cannot be opened
    | ReadFailed(path: string)         // the properties file could not be read to its end
    | MissingBootstrapServers          // neither the flag nor the file gives bootstrap.servers
    | ClientCreationFailed             // the admin client could not be constructed
    | Timeout(expectedBrokers: int, foundBrokers: nat)  // the deadline passed before the cluster was ready
}
