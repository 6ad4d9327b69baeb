// The conventional optional value, used for nullable columns and error results.
module Options {
  datatype Option<+T> = None | Some(value: T)
}
