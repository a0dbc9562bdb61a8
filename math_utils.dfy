/** `randSymmetricInt` of src/utils/math.ts: a pure function of one draw, and the call that takes that draw. */
module MathUtils {
  import Random

  /**
   * The symmetric random offset `floor((draw * 2 - 1) * spreadRange)` computed from one draw.
   * `Math.floor` rounds towards minus infinity, as `.Floor` does.
   */
  function RandSymmetricInt(draw: real, spreadRange: real): (k: int)
    ensures (k as real) <= (draw * 2.0 - 1.0) * spreadRange < (k as real) + 1.0
  {
    ((draw * 2.0 - 1.0) * spreadRange).Floor
  }

  /** `randSymmetricInt(spreadRange)`: one call of `Math.random()`, scaled to the symmetric offset. */
  method DrawSymmetricInt(spreadRange: real, rng: Random.RandomSource) returns (k: int)
    modifies rng
    ensures k == RandSymmetricInt(rng.draws(old(rng.used)), spreadRange)
    ensures rng.used == old(rng.used) + 1
  {
    var draw := rng.Next();
    k := ((draw * 2.0 - 1.0) * spreadRange).Floor;
  }

  /** The two vectors of the unit test: draw 0.3 gives -2 and draw 0.8 gives 3 with spread 5. */
  lemma RandSymmetricIntTestVectors()
    ensures RandSymmetricInt(0.3, 5.0) == -2
    ensures RandSymmetricInt(0.8, 5.0) == 3
  {
  }

  /**
   * For a whole spread `n` and a draw in [0, 1) the offset lies in [-n, n] as documented, and in
   * fact never reaches +n: it lies in [-n, n - 1] (and is 0 when n is 0).
   */
  lemma RandSymmetricIntBounds(draw: real, n: nat)
    requires 0.0 <= draw < 1.0
    ensures -(n as int) <= RandSymmetricInt(draw, n as real) <= n
    ensures n > 0 ==> RandSymmetricInt(draw, n as real) <= n - 1
    ensures n == 0 ==> RandSymmetricInt(draw, n as real) == 0
  {
    var s := n as real;
    var t := (draw * 2.0 - 1.0) * s;
    assert t == 2.0 * draw * s - s;
    assert 0.0 <= draw * s by { MulNonNegative(draw, s); }
    assert draw * s <= s by { MulAtMostOne(draw, s); }
    if n > 0 {
      assert draw * s < s by { MulBelowOne(draw, s); }
    }
  }

  /** A draw of exactly 0 gives the lowest offset -n, and a spread of 0 always gives 0. */
  lemma RandSymmetricIntExtremes(draw: real, n: nat)
    ensures RandSymmetricInt(0.0, n as real) == -(n as int)
    ensures RandSymmetricInt(draw, 0.0) == 0
  {
  }

  lemma MulNonNegative(a: real, b: real)
    requires 0.0 <= a && 0.0 <= b
    ensures 0.0 <= a * b
  {
  }

  lemma MulAtMostOne(a: real, b: real)
    requires 0.0 <= a <= 1.0 && 0.0 <= b
    ensures a * b <= b
  {
    MulNonNegative(1.0 - a, b);
  }

  lemma MulBelowOne(a: real, b: real)
    requires 0.0 <= a < 1.0 && 0.0 < b
    ensures a * b < b
  {
    assert (1.0 - a) * b > 0.0;
  }
}
