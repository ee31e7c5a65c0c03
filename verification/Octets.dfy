/** Bytes as numbers and as eight bits. */
module Octets {
  lemma ByteBack(x: int)
    requires 0 <= x < 256
    ensures (x as bv8) as int == x
  {
  }
}
