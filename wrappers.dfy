/** Option and Result, plus the error kinds the program raises. */
module Wrappers {

  datatype Option<+T> = None | Some(value: T)

  datatype Result<+T, +E> = Success(value: T) | Failure(error: E)

  /** The exceptions of sourceAny.py that the model keeps. */
  datatype Error =
    | UnsupportedDialect            // `raise ValueError` on a format other than csh/bash
    | ClosedFile                    // ValueError from writing to a stream that is already closed
    | CalledProcessError(code: int) // `subprocess.check_call` on a non-zero exit status
}
