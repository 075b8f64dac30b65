/** A value that a document or a request may lack. */
module Options {
  datatype Option<+T> = None | Some(value: T)
}
