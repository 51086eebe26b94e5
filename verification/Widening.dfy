/** A byte as a number and as eight bits. */
module Widening {
  import opened Bytes

  lemma WideningBack(x: byte)
    ensures (x as bv8) as int == x
  {
  }

  lemma WideningInjective(x: byte, y: byte)
    requires x != y
    ensures x as bv8 != y as bv8
  {
    WideningBack(x);
    WideningBack(y);
  }
}
