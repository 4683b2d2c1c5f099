/**
 * Points in the plane, the squared-distance form of the source's distance tests,
 * and straight-line motion by a fixed step.
 *
 * The source compares `math.hypot(dx, dy)` or `math.sqrt(dx**2 + dy**2)` with a
 * threshold. Square roots are not modelled: a test `distance < k` becomes
 * `SqDist < k * k`, and the lemmas below show that this agrees with the test on
 * the true Euclidean distance `d` (any `d >= 0` with `d * d == SqDist`).
 */
module Plane {

  datatype Pos = Pos(x: real, y: real)

  function SqDist(a: Pos, b: Pos): real
  {
    (a.x - b.x) * (a.x - b.x) + (a.y - b.y) * (a.y - b.y)
  }

  /** `d` is the Euclidean distance between `a` and `b` (what `math.hypot` computes). */
  ghost predicate IsDistance(d: real, a: Pos, b: Pos)
  {
    0.0 <= d && d * d == SqDist(a, b)
  }

  /** `distance(a, b) < k`, the strict threshold test. */
  predicate Closer(a: Pos, b: Pos, k: real)
  {
    SqDist(a, b) < k * k
  }

  /** `distance(a, b) <= k`, the inclusive threshold test. */
  predicate Within(a: Pos, b: Pos, k: real)
  {
    SqDist(a, b) <= k * k
  }

  lemma SquareMonotone(d: real, k: real)
    requires 0.0 <= d && 0.0 <= k
    ensures d < k <==> d * d < k * k
    ensures d <= k <==> d * d <= k * k
  {
    var dd, dk, kk := d * d, d * k, k * k;
    if d < k {
      assert dd <= dk;
      assert dk < kk;
    } else if d > k {
      assert kk <= dk;
      assert dk < dd;
    }
  }

  /** The strict squared test agrees with the strict test on the true distance. */
  lemma CloserIffDistanceBelow(a: Pos, b: Pos, k: real, d: real)
    requires 0.0 <= k
    requires IsDistance(d, a, b)
    ensures Closer(a, b, k) <==> d < k
  {
    SquareMonotone(d, k);
  }

  /** The inclusive squared test agrees with the inclusive test on the true distance. */
  lemma WithinIffDistanceAtMost(a: Pos, b: Pos, k: real, d: real)
    requires 0.0 <= k
    requires IsDistance(d, a, b)
    ensures Within(a, b, k) <==> d <= k
  {
    SquareMonotone(d, k);
  }

  /** `CloserIffDistanceBelow` for every candidate distance at once. */
  lemma CloserForAllDistances(a: Pos, b: Pos, k: real)
    requires 0.0 <= k
    ensures forall d :: IsDistance(d, a, b) ==> (Closer(a, b, k) <==> d < k)
  {
    forall d | IsDistance(d, a, b)
      ensures Closer(a, b, k) <==> d < k
    {
      CloserIffDistanceBelow(a, b, k, d);
    }
  }

  /** `WithinIffDistanceAtMost` for every candidate distance at once. */
  lemma WithinForAllDistances(a: Pos, b: Pos, k: real)
    requires 0.0 <= k
    ensures forall d :: IsDistance(d, a, b) ==> (Within(a, b, k) <==> d <= k)
  {
    forall d | IsDistance(d, a, b)
      ensures Within(a, b, k) <==> d <= k
    {
      WithinIffDistanceAtMost(a, b, k, d);
    }
  }

  /** The squared distance is never negative, and it is zero between equal points. */
  lemma SqDistNonNegative(a: Pos, b: Pos)
    ensures 0.0 <= SqDist(a, b)
    ensures a == b ==> SqDist(a, b) == 0.0
  {
    var u, w := a.x - b.x, a.y - b.y;
    assert 0.0 <= u * u && 0.0 <= w * w;
  }

  /** One move by the step `(vx, vy)`. */
  function Translate(p: Pos, vx: real, vy: real): Pos
  {
    Pos(p.x + vx, p.y + vy)
  }

  /** `n` successive moves by the same step. */
  function TranslateN(p: Pos, vx: real, vy: real, n: nat): Pos
  {
    if n == 0 then p else Translate(TranslateN(p, vx, vy, n - 1), vx, vy)
  }

  /** After `n` moves by a fixed step the position is the start plus `n` steps. */
  lemma {:induction false} TranslateNIsLinear(p: Pos, vx: real, vy: real, n: nat)
    ensures TranslateN(p, vx, vy, n) == Pos(p.x + (n as real) * vx, p.y + (n as real) * vy)
  {
    if n > 0 {
      TranslateNIsLinear(p, vx, vy, n - 1);
      assert (n as real) * vx == ((n - 1) as real) * vx + vx;
      assert (n as real) * vy == ((n - 1) as real) * vy + vy;
    }
  }
}
