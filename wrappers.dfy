/**
 * Option, a success-or-error outcome, and a model of the Go `error` values that
 * the scanner core creates, wraps and inspects.
 */
module Wrappers {

  datatype Option<+T> = None | Some(value: T)

  /**
   * The Go `error` values the core distinguishes.
   * DockerError is the string error type of pkg/tools/docker.go; ExitError is a
   * subprocess that exited with a status; Wrapped is an error that wraps a cause
   * (what `fmt.Errorf("...%w", err)` builds); Failure is any other error.
   */
  datatype Error =
    | DockerError(message: string)
    | ExitError(code: int)
    | Wrapped(message: string, cause: Error)
    | Failure(message: string)

  /** A Go `(value, error)` pair in which exactly one side is meaningful. */
  datatype Outcome<+T> = Ok(value: T) | Err(error: Error)

  /**
   * The exit status carried by an error: the status of an ExitError, and -1
   * for every other error.
   */
  function ExitCode(e: Error): (code: int)
    ensures e.ExitError? ==> code == e.code
    ensures !e.ExitError? ==> code == -1
  {
    match e
    case ExitError(c) => c
    case _ => -1
  }
}
