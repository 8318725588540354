/** A value that may be absent: JavaScript's `undefined`/`null` where the source relies on it. */
module Optional {

  datatype Option<+T> = None | Some(value: T)
}
