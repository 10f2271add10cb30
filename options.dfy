/** An optional value: a field of a JavaScript object that may be absent (undefined or null). */
module Options {

  datatype Option<T> = None | Some(value: T)
}
