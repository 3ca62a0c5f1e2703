/** JavaScript's `null` / `undefined` result, made explicit. */
module Options {

  /** `None` stands for the `null` (or missing value) the JavaScript returns. */
  datatype Option<+T> = None | Some(value: T)
}
