/** The "value or nothing" result the source signals by returning None. */
module Optional {

  datatype Option<+T> = None | Some(value: T)
}
