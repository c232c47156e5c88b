/** A value that may be missing, such as the previous timestamp of a user's first event. */
module Options {

  datatype Option<+T> = None | Some(value: T)
}
