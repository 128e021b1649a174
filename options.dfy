/** The optional value used across the model (a missing pointer, an absent argument). */
module Options {
  datatype Option<+T> = None | Some(value: T)
}
