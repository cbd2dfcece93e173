/** Option and Result values shared by every module of the model. Rust's
    `Option<T>` maps to `Option`; a panic or an `Err` return maps to `Err`. */
module Common {

  datatype Option<+T> = None | Some(value: T)

  datatype Result<+T, +E> = Ok(value: T) | Err(error: E)

  /** Integer overflow or underflow, which panics in a debug build. */
  datatype Overflow = Overflow

  function Min(a: nat, b: nat): nat {
    if a <= b then a else b
  }

  /** Rust's `usize::saturating_sub`. */
  function SaturatingSub(a: nat, b: nat): (r: nat)
    ensures r + b >= a
    ensures a >= b ==> r + b == a
    ensures a <= b ==> r == 0
  {
    if a >= b then a - b else 0
  }
}
