/** An optional value, used where the source has `None`, an empty target or a null downcast. */
module Options {
  datatype Option<+T> = None | Some(value: T)
}
