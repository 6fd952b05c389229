/** Java-language primitives the join logic relies on: nullable references
    and 32-bit `int` arithmetic. */
module Base {

  /** A Java reference that may be `null`. */
  datatype Option<+T> = None | Some(value: T)

  const INT32_MIN: int := -0x8000_0000
  const INT32_MAX: int := 0x7fff_ffff

  /** The values of a Java `int`. */
  type Int32 = x: int | -0x8000_0000 <= x < 0x8000_0000

  /** Two's-complement wrap-around of an exact integer into a Java `int`,
      which is what a Java `int` multiplication does with its exact product. */
  function WrapInt32(x: int): (r: Int32)
    ensures INT32_MIN <= x <= INT32_MAX ==> r == x
    ensures (x - r) % 0x1_0000_0000 == 0
  {
    var m := x % 0x1_0000_0000;
    if m > INT32_MAX then m - 0x1_0000_0000 else m
  }
}
