/** Small vocabulary shared by every module of the model. */
module Base {

  datatype Option<+T> = None | Some(value: T)

  function Max(a: int, b: int): int {
    if a < b then b else a
  }
}
