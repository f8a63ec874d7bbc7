/** The integer widths the code works with. */
module Words {
  /** Number of values of a `uint32_t`. */
  const WORD: nat := 0x1_0000_0000

  /** Number of values of a `size_t`. */
  const SIZE_T: nat := 0x1_0000_0000_0000_0000

  /** What remains of a number in a `uint32_t`. */
  function Wrap(x: nat): (r: nat)
    ensures r <= x && r < WORD
    ensures x < WORD ==> r == x
  {
    x % 0x1_0000_0000
  }

  /** The wrapped number is the remainder, so whole multiples of 2^32 are lost and nothing else is. */
  lemma WrapIsCongruent(x: nat, q: nat)
    ensures Wrap(x) == x % 0x1_0000_0000
    ensures Wrap(x + q * 0x1_0000_0000) == Wrap(x)
    ensures exists k: nat :: Exceeds(x, Wrap(x), k)
  {
    assert Exceeds(x, Wrap(x), x / 0x1_0000_0000);
  }

  /** `x` is `k` times 2^32 more than `y`. */
  ghost predicate Exceeds(x: nat, y: nat, k: nat) {
    x == y + k * 0x1_0000_0000
  }

  lemma AddWrapped(a: nat, b: nat)
    ensures Wrap(Wrap(a) + b) == Wrap(a + b)
  {
  }
}
