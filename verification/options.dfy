/** The optional value used wherever the Java code uses `null` for "nothing". */
module Options {

  datatype Option<+T> = None | Some(value: T)
}
