// Result and option types shared by the models.

module Prelude {

  datatype Option<+T> = None | Some(value: T)

  // A thrown JavaScript error carries its message.
  datatype Result<+T> = Ok(value: T) | Err(error: string)

  function Power2(k: nat): (r: nat)
    ensures r > 0
  {
    if k == 0 then 1 else 2 * Power2(k - 1)
  }
}
