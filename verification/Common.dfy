/** Small datatypes shared by the models. */
module Common {

  datatype Option<+T> = None | Some(value: T)

  datatype Result<+T, +E> = Ok(value: T) | Err(error: E)

  /** One octet, as it travels on a socket or sits in a file. */
  type Byte = n: int | 0 <= n < 256

  /** Subtraction that stops at zero. */
  function SaturatingSub(a: nat, b: nat): (r: nat)
    ensures a >= b ==> r == a - b
    ensures a < b ==> r == 0
  {
    if a >= b then a - b else 0
  }
}
