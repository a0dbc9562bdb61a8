/**
 * The program draws its randomness from `Math.random()`. The model injects it instead: a
 * `RandomSource` holds an infinite stream of draws and a cursor, and every call of `Next`
 * consumes exactly one draw, in order.
 */
module Random {

  /** Every draw lies in [0, 1), as `Math.random()` promises. */
  ghost predicate UnitDraws(draws: nat -> real) {
    forall i: nat :: 0.0 <= draws(i) < 1.0
  }

  class RandomSource {
    /** The whole stream of draws this source will ever hand out. */
    const draws: nat -> real
    /** How many draws have been consumed so far. */
    var used: nat

    constructor (draws: nat -> real)
      ensures this.draws == draws && used == 0
    {
      this.draws := draws;
      used := 0;
    }

    /** One call of `Math.random()`. */
    method Next() returns (r: real)
      modifies this
      ensures r == draws(old(used)) && used == old(used) + 1
    {
      r := draws(used);
      used := used + 1;
    }
  }
}
