/** What several modules share: bytes, an optional value, powers of two, and order and size of reals. */
module Basics {
  newtype byte = b: int | 0 <= b < 256

  datatype Option<T> = None | Some(value: T)

  function Power2(n: nat): (p: nat)
    ensures p > 0
  {
    if n == 0 then 1 else 2 * Power2(n - 1)
  }

  function Abs(x: real): real { if x < 0.0 then -x else x }

  function Min(a: real, b: real): real { if b < a then b else a }

  function Max(a: real, b: real): real { if a > b then a else b }
}
