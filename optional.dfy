/** The conventional Some/None datatype, used where the source returns a
    missing value (`None`) or finds nothing. */
module Optional {
  datatype Option<+T> = None | Some(value: T)
}
