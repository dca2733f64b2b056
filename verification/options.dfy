/** An optional value, used for "no element selected" and "no error". */
module Options {

  datatype Option<+T> = None | Some(value: T)

}
