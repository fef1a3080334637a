/** Bytes, and 16-bit lengths in network order. */
module Bytes {
  newtype byte = b: int | 0 <= b < 256

  const U16_LIMIT := 0x1_0000

  /** `to_be_bytes` of a length cast to 16 bits. */
  function U16(n: nat): (s: seq<byte>)
    ensures |s| == 2
  {
    [(n / 256 % 256) as byte, (n % 256) as byte]
  }

  function FromU16(hi: byte, lo: byte): nat { hi as nat * 256 + lo as nat }

  lemma U16Wraps(n: nat)
    ensures FromU16(U16(n)[0], U16(n)[1]) == n % U16_LIMIT
  {
    var q, r := n / U16_LIMIT, n % U16_LIMIT;
    var hi, lo := r / 256, r % 256;
    assert n == 256 * (256 * q + hi) + lo;
    Divides(n, 256 * q + hi, lo);
    Divides(256 * q + hi, q, hi);
  }

  lemma Divides(n: nat, q: nat, r: nat)
    requires n == 256 * q + r && r < 256
    ensures n / 256 == q && n % 256 == r
  {}

  lemma U16RoundTrip(n: nat)
    requires n < U16_LIMIT
    ensures FromU16(U16(n)[0], U16(n)[1]) == n
  {}
}
