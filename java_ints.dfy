/** Java's fixed-width integers and their wrap-around arithmetic. */
module JavaInts {

  const TwoTo31: int := 0x8000_0000
  const TwoTo32: int := 0x1_0000_0000
  const TwoTo63: int := 0x8000_0000_0000_0000
  const TwoTo64: int := 0x1_0000_0000_0000_0000

  /** Integer.MAX_VALUE */
  const Int32Max: int := 0x7fff_ffff

  /** A Java `int`. */
  type Int32 = x: int | -0x8000_0000 <= x < 0x8000_0000

  /** A Java `long`. */
  type Int64 = x: int | -0x8000_0000_0000_0000 <= x < 0x8000_0000_0000_0000

  predicate InInt32(x: int) { -TwoTo31 <= x < TwoTo31 }

  /** The Java `int` that results from an arithmetic value x: x reduced modulo 2^32
      into the signed range. */
  function Wrap32(x: int): (r: Int32)
    ensures (x - r) % TwoTo32 == 0
    ensures InInt32(x) ==> r == x
  {
    var u := x % TwoTo32;
    if u < TwoTo31 then u else u - TwoTo32
  }

  /** How many times `for (int i = 0; i < n; i++)` runs: n, or none when n is not positive. */
  function Max0(n: int): (r: nat)
    ensures r >= n && (n <= 0 ==> r == 0) && (n >= 0 ==> r == n)
  {
    if n < 0 then 0 else n
  }
}
