/** An optional value: `None` plays the part of JavaScript's `null` and `NaN` results. */
module Options {
  datatype Option<T> = None | Some(value: T)
}
