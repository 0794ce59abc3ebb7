/** Integer comparison and 32-bit arithmetic as the .NET base library defines them. */
module Numbers {

  const Int32Min: int := -0x8000_0000
  const Int32Max: int := 0x7fff_ffff

  /** The values of `int` (System.Int32). */
  type Int32 = x: int | Int32Min <= x <= Int32Max

  /**
   * Unchecked 32-bit arithmetic: the Int32 that agrees with `x` modulo 2^32,
   * which is what `+` on two Int32 values yields when the sum overflows.
   */
  function WrapInt32(x: int): (r: Int32)
    ensures Int32Min <= x <= Int32Max ==> r == x
    ensures (x - r) % 0x1_0000_0000 == 0
  {
    (x - Int32Min) % 0x1_0000_0000 + Int32Min
  }

  /** Int32.CompareTo, which is also `Comparer<int>.Default`: exactly -1, 0 or 1. */
  function CompareInt(a: int, b: int): (r: int)
    ensures r == -1 || r == 0 || r == 1
    ensures r < 0 <==> a < b
    ensures r == 0 <==> a == b
  {
    if a < b then -1 else if a > b then 1 else 0
  }
}
