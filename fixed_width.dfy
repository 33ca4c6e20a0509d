/** The fixed-width C++ integer types the orchestrator uses, with their
    wrap-around written out: Dafny's `int` is unbounded. */
module FixedWidth {

  const TWO_TO_THE_8: int := 0x100
  const TWO_TO_THE_63: int := 0x8000_0000_0000_0000
  const TWO_TO_THE_64: int := 0x1_0000_0000_0000_0000

  type uint8 = x: int | 0 <= x < TWO_TO_THE_8
  type int64 = x: int | -TWO_TO_THE_63 <= x < TWO_TO_THE_63
  type uint64 = x: int | 0 <= x < TWO_TO_THE_64

  /** `x++` on a `uint8_t`: 255 wraps to 0. */
  function Increment8(x: uint8): (r: uint8)
    ensures r == (x + 1) % TWO_TO_THE_8
    ensures r == 0 <==> x == TWO_TO_THE_8 - 1
  {
    if x == TWO_TO_THE_8 - 1 then 0 else x + 1
  }

  /** `static_cast<uint64_t>(d)` on an `int64_t`: the same 64 bits read as
      unsigned, that is, `d` reduced modulo 2^64. */
  function AsUnsigned64(d: int64): (r: uint64)
    ensures r % TWO_TO_THE_64 == d % TWO_TO_THE_64
    ensures d >= 0 <==> r < TWO_TO_THE_63
  {
    if d < 0 then d + TWO_TO_THE_64 else d
  }

  /** The reverse reading, `static_cast<int64_t>(u)`: what a consumer of the
      profile must apply to a prefetch count to get its delta back. */
  function AsSigned64(u: uint64): (r: int64)
    ensures r % TWO_TO_THE_64 == u % TWO_TO_THE_64
    ensures AsUnsigned64(r) == u
  {
    if u < TWO_TO_THE_63 then u else u - TWO_TO_THE_64
  }

  /** No information is lost by the cast: the signed delta comes back. */
  lemma SignedRoundTrip(d: int64)
    ensures AsSigned64(AsUnsigned64(d)) == d
  {
  }
}
