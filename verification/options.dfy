/** An optional value, standing for C#'s nullable references (`Product?`, `string?`). */
module Options {
  datatype Option<T> = None | Some(value: T)
}
