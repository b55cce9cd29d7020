/** An optional value: JavaScript's `undefined` (and `NaN` for numbers) next
    to a present value. */
module Options {
  datatype Option<+T> = None | Some(value: T)
}
