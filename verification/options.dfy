/** A value that may be absent: std::optional, a null borrow, or "npos". */
module Options {
  datatype Option<+T> = None | Some(value: T)
}
