/** Unsigned 64-bit arithmetic. */
module Words {
  const TWO_TO_THE_64: nat := 0x1_0000_0000_0000_0000

  /** Unsigned 64-bit wrap-around. */
  function Wrap(x: int): nat
  {
    x % TWO_TO_THE_64
  }

  lemma WrapSmall(x: int)
    requires 0 <= x < TWO_TO_THE_64
    ensures Wrap(x) == x
  {
  }
}
