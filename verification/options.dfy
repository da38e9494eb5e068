/** The optional-value type used wherever the source has a nullable value. */
module Options {
  datatype Option<+T> = None | Some(value: T)
}
