/** Small definitions shared by the search and the clock. */
module Basics {
  datatype Option<T> = None | Some(value: T)

  /** `Math.max` and `Math.min` on integers. */
  function Max(x: int, y: int): int { if x >= y then x else y }
  function Min(x: int, y: int): int { if x <= y then x else y }
}
