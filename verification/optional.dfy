/** A value that may be absent: a missing header, a missing claim, a missing row. */
module Optional {

  datatype Option<+T> = None | Some(value: T)
}
