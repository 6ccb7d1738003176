/** The optional value used throughout the model: JavaScript's `undefined`/`null`
    (or `NaN` for a number) is `None`. */
module Options {

  datatype Option<+T> = None | Some(value: T)
}
