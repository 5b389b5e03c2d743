/** A value that may be missing: a null cell, a failed parse. */
module Options {

  datatype Option<+T> = None | Some(value: T)
}
