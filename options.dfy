/** Small failure-carrying wrappers shared by the EcoTrack modules. */
module Options {

  /** A value that may be absent: the script's `null` session or calculation. */
  datatype Option<+T> = None | Some(value: T)

  /** The verdict of a guarded action: it went through, or it was refused for a reason. */
  datatype Outcome<+E> = Pass | Fail(error: E)

  /** A value on success, a named error otherwise. */
  datatype Result<+R, +E> = Success(value: R) | Failure(error: E)
}
