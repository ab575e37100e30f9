/** The absent-or-present value used wherever the action reads a field
    that JavaScript may find `undefined`. */
module Optional {
  datatype Option<+T> = None | Some(value: T)
}
