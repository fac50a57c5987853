/** The optional value shared by the modules of this model: a JavaScript value
    that may be `null`, `undefined` or not yet assigned. */
module Options {

  datatype Option<+T> = None | Some(value: T)
}
