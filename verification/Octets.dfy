/** Numbers below 256 as bytes, and back. */
module Octets {

  lemma OctetValue(n: nat)
    requires n < 256
    ensures (n as bv8) as int == n
  {}

  lemma SmallOctet(n: nat)
    requires n < 128
    ensures (n as bv8) < 128
  {}
}
