/** The optional value used where the source throws or answers "nothing". */
module Options {
  datatype Option<+T> = None | Some(value: T)
}
