/** Result wrappers shared by the models: Option stands for a Java reference
    that may be null, Outcome for a call that may throw. */
module Wrappers {

  datatype Option<+T> = None | Some(value: T)

  /** Pass, or Fail with the exception the Java code throws. */
  datatype Outcome<+E> = Pass | Fail(error: E)
}
