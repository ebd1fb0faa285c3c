/** The usual optional value; None stands for a failure whose text is not modelled. */
module Options {
  datatype Option<+T> = None | Some(value: T)
}
