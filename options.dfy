/** The optional value used for JavaScript's `undefined`-or-value results. */
module Options {

  datatype Option<+T> = None | Some(value: T)

}
