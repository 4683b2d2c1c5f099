/**
 * The scripted single-projectile simulation (defense_simulation.py): one
 * projectile flies from the left edge towards the protected point by a fixed
 * step per animation frame; the frame in which it is first strictly inside the
 * defence radius counts one interception, and from then on nothing moves.
 *
 * The square root that normalises the projectile's step is not modelled: the
 * step `(dx, dy)` is given, together with the distance `dist` it was divided by,
 * and the constructor's precondition says how they are related.
 */
module DefenseSimulation {

  import opened Plane

  /** `protected_x`, `protected_y`: the centre of the protected zone. */
  const PROTECTED: Pos := Pos(60.0, 60.0)
  /** `defense_radius`. */
  const DEFENSE_RADIUS: real := 20.0
  /** `FuncAnimation(..., frames=range(150), repeat=False)`. */
  const FRAMES: nat := 150

  // ---------------------------------------------------------------------------
  // The frame machine on values
  // ---------------------------------------------------------------------------

  /** `detect_projectile` with the module's zone: strictly closer than the radius. */
  predicate Detected(p: Pos)
  {
    Closer(p, PROTECTED, DEFENSE_RADIUS)
  }

  /** What `update(frame)` reads and writes: the projectile's position and the two globals. */
  datatype SimState = SimState(pos: Pos, count: nat, intercepted: bool)

  /** The state before the first frame: `interception_count = 0`, `intercepted = False`. */
  function Initial(start: Pos): SimState
  {
    SimState(start, 0, false)
  }

  /**
   * One call of `update(frame)`: unless already intercepted, move by the step;
   * if the projectile is now inside the perimeter, count it and stop.
   */
  function UpdateFrame(s: SimState, vx: real, vy: real): SimState
  {
    if s.intercepted then s
    else
      var p := Translate(s.pos, vx, vy);
      if Detected(p) then SimState(p, s.count + 1, true) else SimState(p, s.count, false)
  }

  /** `n` successive calls of `update`. */
  function Run(s: SimState, vx: real, vy: real, n: nat): SimState
  {
    if n == 0 then s else UpdateFrame(Run(s, vx, vy, n - 1), vx, vy)
  }

  /** Running `n` frames and then `m` more is running `n + m` frames. */
  lemma {:induction false} RunSplit(s: SimState, vx: real, vy: real, n: nat, m: nat)
    ensures Run(s, vx, vy, n + m) == Run(Run(s, vx, vy, n), vx, vy, m)
    decreases m
  {
    if m > 0 {
      RunSplit(s, vx, vy, n, m - 1);
      assert n + m - 1 == n + (m - 1);
    }
  }

  /** An intercepted state is never changed by further frames. */
  lemma {:induction false} RunFrozen(s: SimState, vx: real, vy: real, n: nat)
    requires s.intercepted
    ensures Run(s, vx, vy, n) == s
  {
    if n > 0 {
      RunFrozen(s, vx, vy, n - 1);
    }
  }

  /** Once a run is intercepted after `n` frames, every later frame leaves it as it is. */
  lemma StaysFrozen(s: SimState, vx: real, vy: real, n: nat, m: nat)
    requires Run(s, vx, vy, n).intercepted
    ensures Run(s, vx, vy, n + m) == Run(s, vx, vy, n)
  {
    RunSplit(s, vx, vy, n, m);
    RunFrozen(Run(s, vx, vy, n), vx, vy, m);
  }

  /** The count is 1 exactly when the flag is set, and 0 otherwise. */
  predicate CountMatchesFlag(s: SimState)
  {
    s.count == if s.intercepted then 1 else 0
  }

  lemma {:induction false} RunKeepsCount(s: SimState, vx: real, vy: real, n: nat)
    requires CountMatchesFlag(s)
    ensures CountMatchesFlag(Run(s, vx, vy, n))
  {
    if n > 0 {
      RunKeepsCount(s, vx, vy, n - 1);
    }
  }

  /**
   * From the initial state, after any number of frames at most one
   * interception has been counted, and it has been counted exactly when the
   * run is intercepted.
   */
  lemma {:induction false} CountAtMostOne(start: Pos, vx: real, vy: real, n: nat)
    ensures Run(Initial(start), vx, vy, n).count <= 1
    ensures Run(Initial(start), vx, vy, n).count == 1 <==> Run(Initial(start), vx, vy, n).intercepted
  {
    RunKeepsCount(Initial(start), vx, vy, n);
  }

  /** No position after frames `1..n` of the straight flight from `start` is inside the perimeter. */
  predicate UndetectedUpTo(start: Pos, vx: real, vy: real, n: nat)
  {
    forall m :: 1 <= m <= n ==> !Detected(TranslateN(start, vx, vy, m))
  }

  /** Until the first detection the projectile flies straight on, and nothing is counted. */
  lemma {:induction false} NoDetectionYet(start: Pos, vx: real, vy: real, n: nat)
    requires UndetectedUpTo(start, vx, vy, n)
    ensures Run(Initial(start), vx, vy, n) == SimState(TranslateN(start, vx, vy, n), 0, false)
  {
    if n > 0 {
      assert UndetectedUpTo(start, vx, vy, n - 1);
      NoDetectionYet(start, vx, vy, n - 1);
      assert !Detected(TranslateN(start, vx, vy, n));
    }
  }

  /** Before any detection, after `n` frames the position is the start plus `n` steps. */
  lemma LinearFlight(start: Pos, vx: real, vy: real, n: nat)
    requires UndetectedUpTo(start, vx, vy, n)
    ensures Run(Initial(start), vx, vy, n).pos == Pos(start.x + (n as real) * vx, start.y + (n as real) * vy)
  {
    NoDetectionYet(start, vx, vy, n);
    TranslateNIsLinear(start, vx, vy, n);
  }

  /**
   * If frame `m` is the first whose position is inside the perimeter, then
   * after any `n >= m` frames the projectile is frozen where frame `m` left it,
   * with one interception counted.
   */
  lemma FirstDetectionFrame(start: Pos, vx: real, vy: real, m: nat, n: nat)
    requires 1 <= m <= n
    requires Detected(TranslateN(start, vx, vy, m)) && UndetectedUpTo(start, vx, vy, m - 1)
    ensures Run(Initial(start), vx, vy, n) == SimState(TranslateN(start, vx, vy, m), 1, true)
  {
    NoDetectionYet(start, vx, vy, m - 1);
    assert Run(Initial(start), vx, vy, m) == SimState(TranslateN(start, vx, vy, m), 1, true);
    StaysFrozen(Initial(start), vx, vy, m, n - m);
  }

  /** The first frame in `1..m` whose position is inside the perimeter, given that frame `m`'s is. */
  lemma {:induction false} FirstDetected(start: Pos, vx: real, vy: real, m: nat) returns (f: nat)
    requires 1 <= m && Detected(TranslateN(start, vx, vy, m))
    ensures 1 <= f <= m && Detected(TranslateN(start, vx, vy, f)) && UndetectedUpTo(start, vx, vy, f - 1)
  {
    if UndetectedUpTo(start, vx, vy, m - 1) {
      f := m;
    } else {
      var m' :| 1 <= m' <= m - 1 && Detected(TranslateN(start, vx, vy, m'));
      f := FirstDetected(start, vx, vy, m');
    }
  }

  /** After `n` frames the run is intercepted exactly when one of frames `1..n` was inside the perimeter. */
  lemma InterceptedIffDetectedWithin(start: Pos, vx: real, vy: real, n: nat)
    ensures Run(Initial(start), vx, vy, n).intercepted
        <==> exists m :: 1 <= m <= n && Detected(TranslateN(start, vx, vy, m))
  {
    if m :| 1 <= m <= n && Detected(TranslateN(start, vx, vy, m)) {
      var f := FirstDetected(start, vx, vy, m);
      FirstDetectionFrame(start, vx, vy, f, n);
    } else {
      NoDetectionYet(start, vx, vy, n);
    }
  }

  /**
   * The detection test is strict: a projectile whose true distance `d` to the
   * zone's centre equals the radius is not detected, and in general it is
   * detected exactly when `d` is below the radius.
   */
  lemma DetectedIffInsideRadius(p: Pos, d: real)
    requires IsDistance(d, p, PROTECTED)
    ensures Detected(p) <==> d < DEFENSE_RADIUS
    ensures d == DEFENSE_RADIUS ==> !Detected(p)
  {
    CloserIffDistanceBelow(p, PROTECTED, DEFENSE_RADIUS, d);
  }

  /**
   * A projectile starts at `x = 0` with integer `y` in `[10, 110]`: at least 60
   * from the zone's centre, so it starts outside the perimeter.
   */
  lemma StartOutsidePerimeter(startY: int)
    requires 10 <= startY <= 110
    ensures SqDist(Pos(0.0, startY as real), PROTECTED) >= 3600.0
    ensures !Detected(Pos(0.0, startY as real))
  {
    var dy := startY as real - 60.0;
    assert dy * dy >= 0.0;
  }

  /** Hence the distance from the start to the zone's centre is at least 60. */
  lemma StartDistance(startY: int, dist: real)
    requires 10 <= startY <= 110
    requires IsDistance(dist, Pos(0.0, startY as real), PROTECTED)
    ensures 60.0 <= dist
  {
    StartOutsidePerimeter(startY);
    SquareMonotone(dist, 60.0);
  }

  /**
   * The step `(dx, dy)` the constructor computes: the offset to the target
   * divided by the distance `dist` and scaled by the speed.
   */
  ghost predicate NormalisedStep(start: Pos, target: Pos, speed: real, dx: real, dy: real, dist: real)
  {
    IsDistance(dist, start, target) && dx * dist == (target.x - start.x) * speed
    && dy * dist == (target.y - start.y) * speed
  }

  /** A normalised step, taken at a positive distance from the target, has length `speed` and points at the target. */
  lemma StepTowardTarget(start: Pos, target: Pos, speed: real, dx: real, dy: real, dist: real)
    requires 0.0 < dist && NormalisedStep(start, target, speed, dx, dy, dist)
    ensures dx * dx + dy * dy == speed * speed
    ensures dx * (target.y - start.y) == dy * (target.x - start.x)
    ensures 0.0 <= speed ==> 0.0 <= dx * (target.x - start.x) && 0.0 <= dy * (target.y - start.y)
  {
    var ox, oy := target.x - start.x, target.y - start.y;
    assert dist * dist == ox * ox + oy * oy by {
      NegatedSquare(start.x - target.x);
      NegatedSquare(start.y - target.y);
    }
    StepLength(dx, dy, ox, oy, speed, dist);
    StepHeading(dx, dy, ox, oy, speed, dist);
    if 0.0 <= speed {
      StepSign(dx, ox, speed, dist);
      StepSign(dy, oy, speed, dist);
    }
  }

  lemma NegatedSquare(v: real)
    ensures (-v) * (-v) == v * v
  {
  }

  /** Scaling (ox, oy) by speed / dist, where dist is its length, gives a vector of length speed. */
  lemma StepLength(dx: real, dy: real, ox: real, oy: real, speed: real, dist: real)
    requires 0.0 < dist && dist * dist == ox * ox + oy * oy
    requires dx * dist == ox * speed && dy * dist == oy * speed
    ensures dx * dx + dy * dy == speed * speed
  {
    ScaledLength(dx, dy, ox, oy, speed, dist);
    CancelSquare(dx * dx + dy * dy, speed * speed, dist);
  }

  lemma ScaledLength(dx: real, dy: real, ox: real, oy: real, speed: real, dist: real)
    requires dist * dist == ox * ox + oy * oy
    requires dx * dist == ox * speed && dy * dist == oy * speed
    ensures (dx * dx + dy * dy) * (dist * dist) == (speed * speed) * (dist * dist)
  {
    calc {
      (dx * dx + dy * dy) * (dist * dist);
    ==  { ScaledSquares(dx, dy, dist); }
      (dx * dist) * (dx * dist) + (dy * dist) * (dy * dist);
    ==
      (ox * speed) * (ox * speed) + (oy * speed) * (oy * speed);
    ==  { ScaledSquares(ox, oy, speed); }
      (ox * ox + oy * oy) * (speed * speed);
    ==
      (speed * speed) * (dist * dist);
    }
  }

  /** Scaling (ox, oy) by the same factor keeps its direction. */
  lemma StepHeading(dx: real, dy: real, ox: real, oy: real, speed: real, dist: real)
    requires 0.0 < dist
    requires dx * dist == ox * speed && dy * dist == oy * speed
    ensures dx * oy == dy * ox
  {
    assert (dx * oy) * dist == (dy * ox) * dist by {
      assert (dx * oy) * dist == (dx * dist) * oy;
      assert (dy * ox) * dist == (dy * dist) * ox;
    }
    CancelNonZero(dx * oy, dy * ox, dist);
  }

  /** A component scaled by a non-negative factor over a positive one keeps its sign. */
  lemma StepSign(d: real, o: real, speed: real, dist: real)
    requires 0.0 < dist && 0.0 <= speed
    requires d * dist == o * speed
    ensures 0.0 <= d * o
  {
    assert (d * o) * dist == (o * o) * speed by {
      assert (d * o) * dist == (d * dist) * o;
    }
    NonNegativeProduct(o, speed);
    NonNegativeFactor(d * o, dist, (o * o) * speed);
  }

  lemma NonNegativeProduct(o: real, speed: real)
    requires 0.0 <= speed
    ensures 0.0 <= (o * o) * speed
  {
    assert 0.0 <= o * o;
  }

  /** If u times a positive c is non-negative, so is u. */
  lemma NonNegativeFactor(u: real, c: real, v: real)
    requires 0.0 < c && u * c == v && 0.0 <= v
    ensures 0.0 <= u
  {
  }

  lemma ScaledSquares(p: real, q: real, k: real)
    ensures (p * k) * (p * k) + (q * k) * (q * k) == (p * p + q * q) * (k * k)
  {
  }

  /** The square of a factor other than zero cancels from both sides of an equation. */
  lemma CancelSquare(u: real, w: real, d: real)
    requires d != 0.0
    requires u * (d * d) == w * (d * d)
    ensures u == w
  {
    assert (u * d) * d == (w * d) * d;
    CancelNonZero(u * d, w * d, d);
    CancelNonZero(u, w, d);
  }

  /** A factor other than zero cancels from both sides of an equation. */
  lemma CancelNonZero(u: real, w: real, c: real)
    requires c != 0.0
    requires u * c == w * c
    ensures u == w
  {
    assert (u - w) * c == 0.0;
  }

  // ---------------------------------------------------------------------------
  // The objects
  // ---------------------------------------------------------------------------

  /** The incoming projectile. */
  class Projectile {
    var x: real
    var y: real
    const protectedX: real
    const protectedY: real
    const speed: real
    const dx: real
    const dy: real

    /**
     * A projectile on the left edge at height `startY`, drawn by `randint(10, 110)`,
     * with speed drawn by `uniform(0.8, 1.2)`. Its step is given: `dist` is the
     * distance to the target that the source computes with `math.sqrt`, and
     * which must be positive (the source divides by it).
     */
    constructor (protectedX: real, protectedY: real, startY: int, speed: real, dx: real, dy: real, ghost dist: real)
      requires 10 <= startY <= 110 && 0.8 <= speed <= 1.2
      requires 0.0 < dist
      requires NormalisedStep(Pos(0.0, startY as real), Pos(protectedX, protectedY), speed, dx, dy, dist)
      ensures x == 0.0 && y == startY as real
      ensures this.protectedX == protectedX && this.protectedY == protectedY
      ensures this.speed == speed && this.dx == dx && this.dy == dy
    {
      x, y := 0.0, startY as real;
      this.protectedX, this.protectedY := protectedX, protectedY;
      this.speed, this.dx, this.dy := speed, dx, dy;
    }

    function Position(): Pos
      reads this
    {
      Pos(x, y)
    }

    /** `move`: add the step to the position. */
    method Move()
      modifies this
      ensures Position() == Translate(old(Position()), dx, dy)
    {
      x := x + dx;
      y := y + dy;
    }

    /** `distance_to_target`, squared. */
    function SqDistanceToTarget(targetX: real, targetY: real): (r: real)
      reads this
      ensures 0.0 <= r
      ensures Position() == Pos(targetX, targetY) ==> r == 0.0
    {
      SqDistNonNegative(Position(), Pos(targetX, targetY));
      SqDist(Position(), Pos(targetX, targetY))
    }
  }

  /** The defence system: the protected point and the radius around it. */
  class AirDefense {
    const protectedX: real
    const protectedY: real
    const defenseRadius: real

    constructor (protectedX: real, protectedY: real, defenseRadius: real)
      ensures this.protectedX == protectedX && this.protectedY == protectedY
      ensures this.defenseRadius == defenseRadius
    {
      this.protectedX, this.protectedY := protectedX, protectedY;
      this.defenseRadius := defenseRadius;
    }

    /**
     * `detect_projectile`: the projectile is strictly closer than the radius,
     * the source's `distance < defense_radius` on the true distance `d`. A
     * negative radius detects nothing, since no distance is below it.
     */
    function DetectProjectile(projectile: Projectile): (r: bool)
      reads projectile
      ensures forall d :: IsDistance(d, projectile.Position(), Pos(protectedX, protectedY)) ==> (r <==> d < defenseRadius)
    {
      if 0.0 <= defenseRadius then
        CloserForAllDistances(projectile.Position(), Pos(protectedX, protectedY), defenseRadius);
        projectile.SqDistanceToTarget(protectedX, protectedY) < defenseRadius * defenseRadius
      else
        false
    }

    /** `engage_target`: reports the position (printing is not modelled) and always succeeds. */
    method EngageTarget(projectile: Projectile) returns (engaged: bool)
      ensures engaged
    {
      engaged := true;
    }
  }

  /** The script's globals: the defence, the projectile, `interception_count` and `intercepted`. */
  class Scene {
    const defense: AirDefense
    const projectile: Projectile
    var interceptionCount: nat
    var intercepted: bool

    /** The defence watches the module's zone. */
    ghost predicate Valid()
    {
      defense.protectedX == PROTECTED.x && defense.protectedY == PROTECTED.y
      && defense.defenseRadius == DEFENSE_RADIUS
    }

    function State(): SimState
      reads this, projectile
    {
      SimState(projectile.Position(), interceptionCount, intercepted)
    }

    /** The module-level set-up: the defence, one new projectile, and the two globals. */
    constructor (startY: int, speed: real, dx: real, dy: real, ghost dist: real)
      requires 10 <= startY <= 110 && 0.8 <= speed <= 1.2
      requires NormalisedStep(Pos(0.0, startY as real), PROTECTED, speed, dx, dy, dist)
      ensures Valid() && fresh(projectile)
      ensures State() == Initial(Pos(0.0, startY as real))
      ensures projectile.dx == dx && projectile.dy == dy
    {
      StartOutsidePerimeter(startY);
      StartDistance(startY, dist);
      defense := new AirDefense(PROTECTED.x, PROTECTED.y, DEFENSE_RADIUS);
      projectile := new Projectile(PROTECTED.x, PROTECTED.y, startY, speed, dx, dy, dist);
      interceptionCount := 0;
      intercepted := false;
    }

    /**
     * `update(frame)` without the marker and title calls. The frame number is
     * not used by the source.
     */
    method Update(frame: int)
      requires Valid()
      modifies this, projectile
      ensures State() == UpdateFrame(old(State()), projectile.dx, projectile.dy)
    {
      if !intercepted {
        projectile.Move();
        if defense.DetectProjectile(projectile) {
          var _ := defense.EngageTarget(projectile);
          interceptionCount := interceptionCount + 1;
          intercepted := true;
        }
      }
    }

    /**
     * The animation. With no `init_func`, `FuncAnimation` first draws frame 0
     * once to initialise, then calls `update` for the frames `0..149` in order:
     * `FRAMES + 1` calls in all.
     */
    method Animate()
      requires Valid()
      modifies this, projectile
      ensures State() == Run(old(State()), projectile.dx, projectile.dy, FRAMES + 1)
    {
      Update(0);
      for frame := 0 to FRAMES
        invariant State() == Run(old(State()), projectile.dx, projectile.dy, frame + 1)
      {
        Update(frame);
      }
    }
  }
}
