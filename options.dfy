/** A value that may be absent: Python's `None` versus a present value. */
module Options {

  datatype Option<+T> = None | Some(value: T)

}
