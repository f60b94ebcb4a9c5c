/** Bytes as numbers. */
module Octet {

  lemma ByteBack(n: nat)
    requires n < 256
    ensures (n as bv8) as nat == n
  {
  }
}
