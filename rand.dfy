/** The random-number generator the wear processor draws its erosion points
    from. The real generator is a thread-local generator seeded by the
    operating system; here its raw output is a caller-supplied stream
    `entropy`, and the generator's state is the index of the next draw. */
module Rand {

  /** The value `random_range(lo..hi)` yields when the raw draw is `entropy(i)`:
      always inside the half-open range. */
  function Draw(entropy: nat -> nat, i: nat, lo: int, hi: int): (r: int)
    requires lo < hi
    ensures lo <= r < hi
    ensures hi == lo + 1 ==> r == lo
  {
    lo + entropy(i) % (hi - lo)
  }

  class Rng {
    /** The raw output of the generator, draw by draw. */
    const entropy: nat -> nat
    /** How many draws have been taken so far. */
    var cursor: nat

    constructor (entropy: nat -> nat)
      ensures this.entropy == entropy && cursor == 0
    {
      this.entropy := entropy;
      cursor := 0;
    }

    /** A value of the half-open range `lo..hi`; an empty range is a panic
        in the source, so callers must not ask for one. */
    method RandomRange(lo: int, hi: int) returns (r: int)
      requires lo < hi
      modifies this
      ensures lo <= r < hi
      ensures r == Draw(entropy, old(cursor), lo, hi)
      ensures cursor == old(cursor) + 1
    {
      r := Draw(entropy, cursor, lo, hi);
      cursor := cursor + 1;
    }
  }
}
