/** The optional value used wherever the original code uses a nullable reference. */
module Options {

  datatype Option<+T> = None | Some(value: T)
}
