/** Bytes as numbers, for the models that calculate with them or only carry them. */
module Octets {

  type Byte = x: int | 0 <= x < 256

  /** A byte is unchanged by the trip through eight bits. */
  lemma ThroughBits(n: int)
    requires 0 <= n < 256
    ensures (n as bv8) as int == n
  {
    assert 0 <= (n as bv8) as int < 256;
  }
}
