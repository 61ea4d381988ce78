/** Small helpers shared by the modules. */
module Basics {
  datatype Option<+T> = None | Some(value: T)

  function Max(a: nat, b: nat): nat
  {
    if a >= b then a else b
  }
}
