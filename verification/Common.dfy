// Shared vocabulary: optional values, results with an error, and the byte strings
// that Go's []byte and string values are modelled by.
module Common {

  datatype Option<+T> = None | Some(value: T)

  datatype Result<+T, +E> = Ok(value: T) | Err(error: E)

  type byte = b: int | 0 <= b < 256

  // The largest value of Go's int on a 64-bit platform; no slice is longer.
  const MAX_INT: nat := 0x7FFF_FFFF_FFFF_FFFF
  const TWO_32: nat := 0x1_0000_0000
  const TWO_64: nat := 0x1_0000_0000_0000_0000

  type uint64 = x: nat | x < TWO_64
  type int64 = x: int | -0x8000_0000_0000_0000 <= x <= MAX_INT
  type int32 = x: int | -0x8000_0000 <= x < 0x8000_0000

  // uint64(x): the two's complement bits of x. A negative int32 is sign-extended first,
  // so the same formula serves it.
  function AsUint64(x: int64): (u: uint64)
    ensures AsInt64(u) == x
  {
    if x < 0 then x + TWO_64 else x
  }

  // int64(u), and int(u) on a 64-bit platform.
  function AsInt64(u: uint64): int64 {
    if u <= MAX_INT then u else u - TWO_64
  }

  // int32(u): the low 32 bits, read as a signed number.
  function AsInt32(u: uint64): int32 {
    var low := u % TWO_32;
    if low < 0x8000_0000 then low else low - TWO_32
  }

  // The 64-bit sum of two non-negative ints, which wraps to a negative number.
  function WrapInt(x: nat): int64
    requires x < TWO_64
  {
    AsInt64(x)
  }

  lemma Associates<T>(a: seq<T>, b: seq<T>, c: seq<T>)
    ensures a + (b + c) == a + b + c
  {
  }

  lemma Int32RoundTrip(x: int32)
    ensures AsInt32(AsUint64(x)) == x
  {
    if x < 0 {
      assert (x + TWO_64) % TWO_32 == x + TWO_32;
    }
  }
}
