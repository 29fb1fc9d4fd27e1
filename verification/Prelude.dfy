/** Shared value types. Machine words are naturals with explicit bounds. */
module Prelude {

  type Byte = b: int | 0 <= b < 256

  type Bytes = seq<Byte>

  const TWO32: nat := 0x1_0000_0000

  type Uint32 = n: int | 0 <= n < TWO32

  datatype Option<+T> = None | Some(value: T)

  function Pow2(k: nat): (r: nat)
    ensures r > 0
  {
    if k == 0 then 1 else 2 * Pow2(k - 1)
  }
}
