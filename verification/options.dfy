/** The optional value used for column roles that may be absent and for
    dashboard panels that may be skipped. */
module Options {

  datatype Option<+T> = None | Some(value: T)
}
