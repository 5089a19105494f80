/** An optional value: what Java expresses with a nullable reference or an exception. */
module Options {
  datatype Option<T> = None | Some(value: T)
}
