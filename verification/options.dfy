/** The optional value used for JavaScript's `null` / absent answers and for
    remote calls that may throw. */
module Options {
  datatype Option<+T> = None | Some(value: T)
}
