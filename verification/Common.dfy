/** Values shared by all the models */
module Common {
  datatype Option<+T> = None | Some(value: T)

  /** JavaScript's undefined, where it ends up among numbers */
  const UNDEFINED := -1

  function Min(a: int, b: int): int { if a < b then a else b }

  function Max(a: int, b: int): int { if a > b then a else b }
}
