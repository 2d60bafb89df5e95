/** Bytes of a stream, and the same octets seen as bits. */
module Octets {
  type byte = x: int | 0 <= x < 0x100
  /** A flags octet, as the bits the `flags` constants name. */
  type bits = bv8

  function FlagsOctet(f: bits): byte {
    f as int
  }

  function OctetFlags(b: byte): bits {
    b as bits
  }

  lemma FlagsRoundTrip(f: bits)
    ensures OctetFlags(FlagsOctet(f)) == f
  {
  }

  lemma BitsKeepOctets(x: int)
    requires 0 <= x < 0x100
    ensures (x as bits) as int == x
  {
    assert x % 0x100 == x;
  }

  lemma OctetRoundTrip(b: byte)
    ensures FlagsOctet(OctetFlags(b)) == b
  {
    BitsKeepOctets(b);
  }
}
