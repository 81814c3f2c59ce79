/** The optional-value datatype used for the model's error paths. */
module Options {

  /** Either nothing (the source's failure return) or a value. */
  datatype Option<+T> = None | Some(value: T)
}
