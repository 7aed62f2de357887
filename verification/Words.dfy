/** What the other modules share: optional values and 32-bit words. */
module Words {

  datatype Option<T> = None | Some(value: T)

  /** The number of values of alt_u32, and of addresses. */
  const W: nat := 0x1_0000_0000

  type U32 = x: int | 0 <= x < W
  type I32 = x: int | -0x8000_0000 <= x < 0x8000_0000

  /** What an int or a long holds after an unsigned sum or difference is stored in it. */
  function Stored(x: int): (r: I32)
    ensures -0x8000_0000 <= x < 0x8000_0000 ==> r == x
  {
    var u := x % W;
    if u >= 0x8000_0000 then u - W else u
  }
}
