/** What every other module uses: values that may be missing, and the smaller of two numbers. */
module Basics {

  datatype Option<+T> = None | Some(value: T)

  function Smaller(a: int, b: int): int {
    if a < b then a else b
  }
}
