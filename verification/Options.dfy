/** The conventional optional value, used wherever the C and C++ sources return a nullable pointer. */
module Options {
  datatype Option<+T> = None | Some(value: T)
}
