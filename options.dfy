/** The optional value used for the node's "not yet received" slots (Python's None). */
module Options {
  datatype Option<+T> = None | Some(value: T)
}
