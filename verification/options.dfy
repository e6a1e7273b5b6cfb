/** An optional value: the model's stand-in for TypeScript's `null` and `undefined`. */
module Options {

  datatype Option<+T> = None | Some(value: T)
}
