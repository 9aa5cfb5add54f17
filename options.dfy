/** The optional value used where the source has a null reference. */
module Options {

  datatype Option<+T> = None | Some(value: T)
}
