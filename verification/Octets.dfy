// Bytes that are compared, added up and moved, but never taken apart into bits.
module Octets {

  type Octet = n: nat | n < 256

  function Sixteen(high: nat, low: nat): nat { low + 256 * high }

  function High(n: nat): Octet { n / 256 % 256 }
  function Low(n: nat): Octet { n % 256 }

  lemma OctetsBack(n: nat)
    requires n < 65536
    ensures Sixteen(High(n), Low(n)) == n
  {
  }
}
