/** Small value types shared by every module of the model. */
module Wrappers {

  /** A value that may be absent; also stands for a Java reference that may be null. */
  datatype Option<+T> = None | Some(value: T)

  /** The outcome of an operation that either produces a value or ends the whole
      run: `Fatal` stands for `System.exit(-1)` and for an uncaught exception
      (for instance `NumberFormatException` from `Integer.parseInt`). */
  datatype Result<+T> = Ok(value: T) | Fatal

  /** The outcome of a void operation: the run goes on, or it exits. */
  datatype Status = Proceed | Exit
}
