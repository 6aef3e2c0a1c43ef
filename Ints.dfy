/** Fixed-width integers of the C++ source and the conversions between them.
    C++ converts between int16_t and uint16_t modulo 2^16; these functions
    write that reduction out on unbounded integers and on 16-bit vectors. */
module Ints {

  type Int16 = x: int | -0x8000 <= x < 0x8000
  type UInt16 = x: int | 0 <= x < 0x1_0000
  type UInt8 = x: int | 0 <= x < 0x100

  /** uint16_t -> int16_t: the same 16 bits read as two's complement. */
  function U16ToI16(u: UInt16): (r: Int16)
    ensures (r - u) % 0x1_0000 == 0
    ensures 0 <= u < 0x8000 ==> r == u
  {
    if u < 0x8000 then u else u - 0x1_0000
  }

  /** int16_t -> uint16_t: the same 16 bits read as unsigned. */
  function I16ToU16(x: Int16): (r: UInt16)
    ensures (r - x) % 0x1_0000 == 0
    ensures 0 <= x ==> r == x
  {
    if x < 0 then x + 0x1_0000 else x
  }

  lemma I16RoundTrip(x: Int16)
    ensures U16ToI16(I16ToU16(x)) == x
  {
  }

  lemma U16RoundTrip(u: UInt16)
    ensures I16ToU16(U16ToI16(u)) == u
  {
  }

  /** Bit 0 of an unsigned word is its value modulo 2; the source's masks
      `& 0xFFFE` (clear bit 0) and `& 1` (test bit 0) are written so. */
  function ClearBit0(v: UInt16): (r: UInt16)
    ensures r % 2 == 0 && (r == v || r == v - 1)
  {
    v - v % 2
  }

  /** `| 1`: sets bit 0 and leaves the other fifteen bits alone. */
  function SetBit0(v: UInt16): (r: UInt16)
    ensures r % 2 == 1 && ClearBit0(r) == ClearBit0(v)
  {
    v - v % 2 + 1
  }

  /** C++ integer division, which truncates toward zero (Dafny's is Euclidean). */
  function TruncDiv(a: int, b: int): (q: int)
    requires b > 0
    ensures a >= 0 ==> q * b <= a < q * b + b
    ensures a < 0 ==> a <= q * b < a + b && q <= 0
  {
    if a >= 0 then a / b else -((-a) / b)
  }
}
