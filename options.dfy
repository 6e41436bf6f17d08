/** The optional value used throughout the model for "maybe absent" inputs and results. */
module Options {
  datatype Option<T> = None | Some(value: T)
}
