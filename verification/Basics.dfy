/** What several components share. */
module Basics {

  datatype Option<+T> = None | Some(value: T)

  const U32: int := 0x1_0000_0000
  const U64: int := 0x1_0000_0000_0000_0000

  type Word = bv32

  type Byte = x: int | 0 <= x < 256

  function Zeros(n: nat): (r: seq<Byte>)
    ensures |r| == n
  {
    seq(n, _ => 0)
  }
}
