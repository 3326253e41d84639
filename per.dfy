/** Probabilistic early expiration ("XFetch") as written in
    `AbstractRedisServerRepository.getExpiryTimeBasedOnPER` and its copies.

    The score is `remaining - |delta * beta * ln(U)|` for a fresh uniform draw
    `U`. The model works over the reals and takes `ln(U)` itself as the input:
    for `U` in (0, 1) it is never positive. */
module Per {

  /** The value of `ln(Math.random())` for one call. */
  type LogDraw = x: real | x <= 0.0

  /** The default weight `beta = 1.0f`. */
  const DefaultBeta: real := 1.0

  /** The default recompute window `expireTimeGapMs = 3_000L` of `shouldRefreshKey`. */
  const DefaultExpireTimeGapMs: int := 3000

  function Abs(x: real): real { if x < 0.0 then -x else x }

  /** `getExpiryTimeBasedOnPER(remainingExpiryTimeMS, delta, beta)` for one draw. */
  function PerScore(remainingMs: int, delta: int, beta: real, lnDraw: LogDraw): (score: real)
    ensures score <= remainingMs as real
    ensures remainingMs <= 0 ==> score <= 0.0
  {
    remainingMs as real - Abs(delta as real * beta * lnDraw)
  }

  /** The test of `shouldRefreshKey`: a key with a TTL whose score has fallen
      to zero or below is treated as already expired. */
  predicate ShouldRefresh(remainingMs: int, delta: int, beta: real, lnDraw: LogDraw)
  {
    remainingMs >= 0 && PerScore(remainingMs, delta, beta, lnDraw) <= 0.0
  }

  /** For non-negative weights the subtracted penalty is `delta * beta * -ln(U)`. */
  lemma PenaltyIsProduct(delta: int, beta: real, lnDraw: LogDraw)
    requires delta >= 0 && beta >= 0.0
    ensures Abs(delta as real * beta * lnDraw) == delta as real * beta * (-(lnDraw as real))
  {
    var d := delta as real;
    assert d * beta >= 0.0;
    assert d * beta * lnDraw <= 0.0 by {
      assert (d * beta) * lnDraw == -((d * beta) * (-(lnDraw as real)));
      assert (d * beta) * (-(lnDraw as real)) >= 0.0;
    }
  }

  /** A larger `beta` never gives a larger score: recomputation becomes more
      eager, as the documentation of `beta` promises. */
  lemma ScoreAntitoneInBeta(remainingMs: int, delta: int, beta1: real, beta2: real, lnDraw: LogDraw)
    requires delta >= 0 && 0.0 <= beta1 <= beta2
    ensures PerScore(remainingMs, delta, beta2, lnDraw) <= PerScore(remainingMs, delta, beta1, lnDraw)
  {
    PenaltyIsProduct(delta, beta1, lnDraw);
    PenaltyIsProduct(delta, beta2, lnDraw);
    var k := delta as real * (-(lnDraw as real));
    assert k >= 0.0;
    assert delta as real * beta1 * (-(lnDraw as real)) == beta1 * k;
    assert delta as real * beta2 * (-(lnDraw as real)) == beta2 * k;
    assert beta1 * k <= beta2 * k;
  }

  /** A larger recompute window `delta` never gives a larger score. */
  lemma ScoreAntitoneInDelta(remainingMs: int, delta1: int, delta2: int, beta: real, lnDraw: LogDraw)
    requires 0 <= delta1 <= delta2 && beta >= 0.0
    ensures PerScore(remainingMs, delta2, beta, lnDraw) <= PerScore(remainingMs, delta1, beta, lnDraw)
  {
    PenaltyIsProduct(delta1, beta, lnDraw);
    PenaltyIsProduct(delta2, beta, lnDraw);
    var k := beta * (-(lnDraw as real));
    assert k >= 0.0;
    assert delta1 as real * beta * (-(lnDraw as real)) == delta1 as real * k;
    assert delta2 as real * beta * (-(lnDraw as real)) == delta2 as real * k;
    assert delta1 as real * k <= delta2 as real * k;
  }

  /** For one draw, a key that refreshes keeps refreshing as its remaining
      TTL shrinks toward zero: the early-expiry test only ever fires more
      often near expiry, never less. */
  lemma RefreshAntitoneInRemaining(r1: int, r2: int, delta: int, beta: real, lnDraw: LogDraw)
    requires 0 <= r1 <= r2
    requires ShouldRefresh(r2, delta, beta, lnDraw)
    ensures ShouldRefresh(r1, delta, beta, lnDraw)
  {
  }

  /** A key with no time left always refreshes, whatever the draw. */
  lemma ZeroRemainingAlwaysRefreshes(delta: int, beta: real, lnDraw: LogDraw)
    ensures ShouldRefresh(0, delta, beta, lnDraw)
  {
  }

  /** A missing key (-2) or one without expiry (-1) never refreshes. */
  lemma NegativeRemainingNeverRefreshes(remainingMs: int, delta: int, beta: real, lnDraw: LogDraw)
    requires remainingMs < 0
    ensures !ShouldRefresh(remainingMs, delta, beta, lnDraw)
  {
  }

  /** With the default window and weight, 100 ms of remaining TTL refreshes
      for some draws and not for others: early expiry of such a key is a
      matter of chance, not a certainty. */
  lemma ShortTtlRefreshDependsOnDraw()
    ensures ShouldRefresh(100, DefaultExpireTimeGapMs, DefaultBeta, -1.0)
    ensures !ShouldRefresh(100, DefaultExpireTimeGapMs, DefaultBeta, -0.01)
  {
    assert Abs(3000.0 * 1.0 * -1.0) == 3000.0;
    assert Abs(3000.0 * 1.0 * -0.01) == 30.0;
  }
}
