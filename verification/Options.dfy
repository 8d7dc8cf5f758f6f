/** The usual optional value, for what the C code says with NULL or -1. */
module Options {
  datatype Option<T> = None | Some(value: T)

  /** How a C function comes out: with a value; with an error that it reports; or by way of what C leaves
      undefined, such as reading through NULL or outside of a text, or an int that is too big. */
  datatype Attempt<T> = Done(value: T) | Failed | Undefined
}
