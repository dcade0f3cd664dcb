/** An optional value: Python's `None` or some value. */
module Optional {

  datatype Option<+T> = None | Some(value: T)
}
