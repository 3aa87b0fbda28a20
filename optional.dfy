/** An optional value: `None` where the page shows nothing, `Some` where it has a result. */
module Optional {
  datatype Option<T> = None | Some(value: T)
}
