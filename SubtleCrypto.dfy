/**
 * The Web Crypto extension `crypto.subtle.timingSafeEqual(a, b)` of the
 * Workers runtime: equality of two byte buffers of the same length, computed
 * without an early exit. The runtime throws when the lengths differ, so the
 * model requires equal lengths.
 */
module SubtleCrypto {

  type byte = bv8

  /**
   * The OR of the XORs of corresponding bytes. Every byte pair is visited
   * whatever the earlier pairs were, and the accumulator is zero exactly
   * when the buffers agree everywhere.
   */
  function DiffBits(a: seq<byte>, b: seq<byte>): (d: byte)
    requires |a| == |b|
    ensures d == 0 <==> a == b
    decreases |a|
  {
    if |a| == 0 then 0
    else
      assert a == [a[0]] + a[1..] && b == [b[0]] + b[1..];
      (a[0] ^ b[0]) | DiffBits(a[1..], b[1..])
  }

  /** True exactly when the two equal-length buffers hold the same bytes. */
  function TimingSafeEqual(a: seq<byte>, b: seq<byte>): (r: bool)
    requires |a| == |b|
    ensures r <==> a == b
  {
    DiffBits(a, b) == 0
  }

  /** The accumulated difference does not depend on argument order. */
  lemma {:induction false} DiffBitsSymmetric(a: seq<byte>, b: seq<byte>)
    requires |a| == |b|
    ensures DiffBits(a, b) == DiffBits(b, a)
    decreases |a|
  {
    if |a| > 0 {
      DiffBitsSymmetric(a[1..], b[1..]);
    }
  }
}
