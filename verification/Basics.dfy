/** Value types shared by every module: optional values, bytes, and the C integer
    conversions a frame's dimensions go through on their way to the wire. */
module Basics {

  datatype Option<+T> = None | Some(value: T)

  type byte = b: int | 0 <= b < 256

  const TWO_31: int := 0x8000_0000
  const TWO_32: int := 0x1_0000_0000
  const TWO_64: int := 0x1_0000_0000_0000_0000

  type int32 = i: int | -TWO_31 <= i < TWO_31
  type size_t = n: int | 0 <= n < TWO_64

  /** The implicit conversion of a gint argument to a size_t parameter: the value of the
      target type that is congruent to i. */
  function SizeOfInt(i: int32): (n: size_t)
    ensures 0 <= n < 18446744073709551616 && (n - i) % 18446744073709551616 == 0
  {
    i % TWO_64
  }

  /** The implicit conversion of a size_t argument to a protobuf int32 setter, likewise. */
  function IntOfSize(n: size_t): (i: int32)
    ensures -2147483648 <= i <= 2147483647 && (n - i) % 4294967296 == 0
  {
    var r := n % TWO_32;
    if r < TWO_31 then r else r - TWO_32
  }

  /** Passing a dimension through size_t loses nothing, negative values included. */
  lemma DimensionSurvives(i: int32)
    ensures IntOfSize(SizeOfInt(i)) == i
  {
    if i < 0 {
      assert i % TWO_64 == i + TWO_64;
      assert (i + TWO_64) % TWO_32 == i + TWO_32;
    }
  }
}
