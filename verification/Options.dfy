/** A value that may be missing: null, undefined, or a refusal without a reason. */
module Options {
  datatype Option<+T> = None | Some(value: T)
}
