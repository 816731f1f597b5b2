/** Small vocabulary shared by the models. */
module Common {
  datatype Option<+T> = None | Some(value: T)

  type byte = x: int | 0 <= x < 256
}
