module Options {
  datatype Option<+T> = None | Some(value: T)

  /** The value of an invariant. */
  datatype Health = Sound | Broken
}
