/** An optional value: `None` stands for a queue call that would wait. */
module Options {
  datatype Option<T> = None | Some(value: T)
}
