/**
 * The value-level rules of the interactive air-defence loop (air_defense.py):
 * the button hit-test, the distance tests, how a defence missile moves, which
 * missiles `detect_and_launch` appends, which (missile, threat) pairs
 * `update_defense_missiles` reports, and how the tick removes reported threats
 * and counts the score. The classes in module AirDefense are specified by these
 * functions; the properties of the game are proved here, on values.
 */
module AirDefenseRules {

  import opened Wrappers
  import opened Plane

  const SCREEN_WIDTH: int := 800
  const DEFENSE_MISSILE_SPEED: real := 10.0
  const DETECTION_RANGE: real := 150.0
  const RADAR_POSITION: Pos := Pos(400.0, 500.0)
  /** `is_at_target` and `has_intercepted` both use a bound of 5. */
  const ARRIVAL_DISTANCE: real := 5.0
  const INTERCEPT_DISTANCE: real := 5.0

  // ---------------------------------------------------------------------------
  // Buttons
  // ---------------------------------------------------------------------------

  datatype ThreatKind = Swift | Heavy

  /** A screen rectangle as `pygame.draw.rect` takes it: left, top, width, height. */
  datatype Rect = Rect(left: int, top: int, width: int, height: int)

  const SWIFT_BUTTON: Rect := Rect(50, 50, 100, 40)
  const HEAVY_BUTTON: Rect := Rect(200, 50, 100, 40)

  /** The closed rectangle, both edges included. */
  predicate Covers(r: Rect, x: int, y: int)
  {
    r.left <= x <= r.left + r.width && r.top <= y <= r.top + r.height
  }

  /**
   * The hit-test of a mouse click. A click selects a threat kind exactly when
   * it falls on the closed rectangle of that kind's drawn button; the two
   * rectangles do not overlap, so at most one kind is selected.
   */
  function CheckButtonClick(x: int, y: int): (r: Option<ThreatKind>)
    ensures r == Some(Swift) <==> Covers(SWIFT_BUTTON, x, y)
    ensures r == Some(Heavy) <==> Covers(HEAVY_BUTTON, x, y)
    ensures r == None <==> !Covers(SWIFT_BUTTON, x, y) && !Covers(HEAVY_BUTTON, x, y)
  {
    if 50 <= x <= 150 && 50 <= y <= 90 then Some(Swift)
    else if 200 <= x <= 300 && 50 <= y <= 90 then Some(Heavy)
    else None
  }

  // ---------------------------------------------------------------------------
  // Headings and distance tests
  // ---------------------------------------------------------------------------

  /**
   * A heading angle, kept as its cosine and sine. The source computes the angle
   * with `math.atan2`; here the two components are given.
   */
  datatype Dir = Dir(cos: real, sin: real)

  /** One move at `speed` along heading `h`: `x += speed * cos`, `y += speed * sin`. */
  function Advance(p: Pos, speed: real, h: Dir): Pos
  {
    Translate(p, speed * h.cos, speed * h.sin)
  }

  /** `Threat.is_at_target`: strictly closer than 5 to its target. */
  predicate ThreatAtTarget(p: Pos, target: Pos)
  {
    Closer(p, target, ARRIVAL_DISTANCE)
  }

  /** `Threat.is_in_detection_range`: at most 150 from the radar. */
  predicate InDetectionRange(p: Pos, radar: Pos)
  {
    Within(p, radar, DETECTION_RANGE)
  }

  /** `DefenseMissile.has_intercepted`: strictly closer than 5 to the threat. */
  predicate Intercepts(missile: Pos, threat: Pos)
  {
    Closer(missile, threat, INTERCEPT_DISTANCE)
  }

  /** Arrival is strict: a threat at exactly 5 from its target has not arrived. */
  lemma ArrivalIsStrict(p: Pos, target: Pos, d: real)
    requires IsDistance(d, p, target)
    ensures ThreatAtTarget(p, target) <==> d < 5.0
  {
    CloserIffDistanceBelow(p, target, ARRIVAL_DISTANCE, d);
  }

  /** Detection is inclusive: a threat at exactly 150 from the radar is detected. */
  lemma DetectionIsInclusive(p: Pos, radar: Pos, d: real)
    requires IsDistance(d, p, radar)
    ensures InDetectionRange(p, radar) <==> d <= 150.0
  {
    WithinIffDistanceAtMost(p, radar, DETECTION_RANGE, d);
  }

  /** Interception is strict: a missile at exactly 5 from a threat has not hit it. */
  lemma InterceptionIsStrict(missile: Pos, threat: Pos, d: real)
    requires IsDistance(d, missile, threat)
    ensures Intercepts(missile, threat) <==> d < 5.0
  {
    CloserIffDistanceBelow(missile, threat, INTERCEPT_DISTANCE, d);
  }

  // ---------------------------------------------------------------------------
  // Defence missiles
  // ---------------------------------------------------------------------------

  /**
   * What `calculate_interception` stores: the target point and the heading.
   * The source sets `target_x`, `target_y` and `angle` together and nothing
   * else writes them, so the three are one optional value here.
   */
  datatype Aim = Aim(target: Pos, heading: Dir)

  datatype MissileState = MissileState(pos: Pos, aim: Option<Aim>)

  /** `DefenseMissile.update_position`: moves only once a target is set. */
  function MoveMissile(m: MissileState): MissileState
  {
    match m.aim
    case None => m
    case Some(a) => MissileState(Advance(m.pos, DEFENSE_MISSILE_SPEED, a.heading), m.aim)
  }

  function MoveMissileN(m: MissileState, n: nat): MissileState
  {
    if n == 0 then m else MoveMissile(MoveMissileN(m, n - 1))
  }

  lemma {:induction false} MoveMissileNTranslates(m: MissileState, a: Aim, n: nat)
    requires m.aim == Some(a)
    ensures MoveMissileN(m, n)
         == MissileState(TranslateN(m.pos, DEFENSE_MISSILE_SPEED * a.heading.cos,
                                    DEFENSE_MISSILE_SPEED * a.heading.sin, n), m.aim)
  {
    if n > 0 {
      MoveMissileNTranslates(m, a, n - 1);
    }
  }

  /**
   * A missile without a target never moves; an aimed missile advances by the
   * same step, 10 along its launch heading, on every call, and keeps its aim.
   */
  lemma {:induction false} MissileFlight(m: MissileState, n: nat)
    ensures m.aim.None? ==> MoveMissileN(m, n) == m
    ensures m.aim.Some? ==>
      MoveMissileN(m, n)
        == MissileState(Pos(m.pos.x + (n as real) * (DEFENSE_MISSILE_SPEED * m.aim.value.heading.cos),
                            m.pos.y + (n as real) * (DEFENSE_MISSILE_SPEED * m.aim.value.heading.sin)),
                        m.aim)
  {
    if m.aim.None? {
      if n > 0 {
        MissileFlight(m, n - 1);
      }
    } else {
      var a := m.aim.value;
      MoveMissileNTranslates(m, a, n);
      TranslateNIsLinear(m.pos, DEFENSE_MISSILE_SPEED * a.heading.cos, DEFENSE_MISSILE_SPEED * a.heading.sin, n);
    }
  }

  /** Every missile of the list moved once, as the outer loop of `update_defense_missiles` does. */
  function MoveAll(ms: seq<MissileState>): seq<MissileState>
  {
    seq(|ms|, i requires 0 <= i < |ms| => MoveMissile(ms[i]))
  }

  // ---------------------------------------------------------------------------
  // Detection and launch
  // ---------------------------------------------------------------------------

  /**
   * `is_defense_missile_launched_for`: some missile's stored target equals the
   * threat's current position exactly.
   */
  predicate Targeted(ms: seq<MissileState>, p: Pos)
  {
    exists i :: 0 <= i < |ms| && ms[i].aim.Some? && ms[i].aim.value.target == p
  }

  /**
   * The missile `launch_defense_missile` appends: built at the radar, aimed at
   * the threat's current position along the heading `aimAt(radar, threat)`.
   */
  function LaunchedAt(radar: Pos, threat: Pos, aimAt: (Pos, Pos) -> Dir): MissileState
  {
    MissileState(radar, Some(Aim(threat, aimAt(radar, threat))))
  }

  /** What every missile appended by a launch looks like. */
  predicate FreshLaunch(radar: Pos, m: MissileState, aimAt: (Pos, Pos) -> Dir)
  {
    m.aim.Some? && m == LaunchedAt(radar, m.aim.value.target, aimAt)
    && InDetectionRange(m.aim.value.target, radar)
  }

  /** One iteration of `detect_and_launch`'s loop, for the threat at `p`. */
  function LaunchStep(radar: Pos, ms: seq<MissileState>, p: Pos, aimAt: (Pos, Pos) -> Dir): seq<MissileState>
  {
    if InDetectionRange(p, radar) && !Targeted(ms, p) then ms + [LaunchedAt(radar, p, aimAt)] else ms
  }

  /**
   * `detect_and_launch`: the threats' positions `ts` are visited in list order,
   * each against the missiles launched so far, including those launched for
   * earlier threats of the same call.
   */
  function DetectAndLaunch(radar: Pos, ms: seq<MissileState>, ts: seq<Pos>, aimAt: (Pos, Pos) -> Dir): seq<MissileState>
    decreases |ts|
  {
    if ts == [] then ms else DetectAndLaunch(radar, LaunchStep(radar, ms, ts[0], aimAt), ts[1..], aimAt)
  }

  lemma TargetedExtends(ms: seq<MissileState>, ms': seq<MissileState>, p: Pos)
    requires |ms| <= |ms'| && ms'[..|ms|] == ms
    requires Targeted(ms, p)
    ensures Targeted(ms', p)
  {
    var i :| 0 <= i < |ms| && ms[i].aim.Some? && ms[i].aim.value.target == p;
    assert ms'[i] == ms[i];
  }

  /** `detect_and_launch` only appends, at most one missile per threat. */
  lemma {:induction false} DetectAndLaunchAppends(radar: Pos, ms: seq<MissileState>, ts: seq<Pos>, aimAt: (Pos, Pos) -> Dir)
    ensures var r := DetectAndLaunch(radar, ms, ts, aimAt);
      |ms| <= |r| <= |ms| + |ts| && r[..|ms|] == ms
    decreases |ts|
  {
    if ts != [] {
      var ms1 := LaunchStep(radar, ms, ts[0], aimAt);
      DetectAndLaunchAppends(radar, ms1, ts[1..], aimAt);
      var r := DetectAndLaunch(radar, ms1, ts[1..], aimAt);
      assert ms1[..|ms|] == ms;
      assert r[..|ms1|][..|ms|] == r[..|ms|];
    }
  }

  /**
   * Every missile `detect_and_launch` appends starts at the radar, aimed at the
   * position of a threat that is in range and that no earlier missile targeted.
   */
  lemma {:induction false} DetectAndLaunchNewMissiles(radar: Pos, ms: seq<MissileState>, ts: seq<Pos>, aimAt: (Pos, Pos) -> Dir)
    ensures var r := DetectAndLaunch(radar, ms, ts, aimAt);
      forall i :: |ms| <= i < |r| ==>
        FreshLaunch(radar, r[i], aimAt) && r[i].aim.value.target in ts && !Targeted(ms, r[i].aim.value.target)
    decreases |ts|
  {
    if ts != [] {
      var p := ts[0];
      var ms1 := LaunchStep(radar, ms, p, aimAt);
      DetectAndLaunchNewMissiles(radar, ms1, ts[1..], aimAt);
      DetectAndLaunchAppends(radar, ms1, ts[1..], aimAt);
      var r := DetectAndLaunch(radar, ms1, ts[1..], aimAt);
      assert |ms| <= |ms1| && ms1[..|ms|] == ms;
      forall i | |ms| <= i < |r|
        ensures FreshLaunch(radar, r[i], aimAt) && r[i].aim.value.target in ts && !Targeted(ms, r[i].aim.value.target)
      {
        if i < |ms1| {
          assert ms1 == ms + [LaunchedAt(radar, p, aimAt)];
          assert r[i] == ms1[i] by {
            assert r[..|ms1|][i] == r[i];
          }
        } else {
          var t := r[i].aim.value.target;
          assert t in ts[1..];
          if Targeted(ms, t) {
            TargetedExtends(ms, ms1, t);
          }
        }
      }
    }
  }

  /** No two missiles appended by one `detect_and_launch` aim at the same point. */
  lemma {:induction false} DetectAndLaunchDistinctTargets(radar: Pos, ms: seq<MissileState>, ts: seq<Pos>, aimAt: (Pos, Pos) -> Dir)
    ensures var r := DetectAndLaunch(radar, ms, ts, aimAt);
      |ms| <= |r| &&
      forall i, j :: |ms| <= i < j < |r| ==> r[i].aim.Some? && r[j].aim.Some? && r[i].aim.value.target != r[j].aim.value.target
    decreases |ts|
  {
    DetectAndLaunchAppends(radar, ms, ts, aimAt);
    DetectAndLaunchNewMissiles(radar, ms, ts, aimAt);
    if ts != [] {
      var p := ts[0];
      var ms1 := LaunchStep(radar, ms, p, aimAt);
      DetectAndLaunchDistinctTargets(radar, ms1, ts[1..], aimAt);
      DetectAndLaunchAppends(radar, ms1, ts[1..], aimAt);
      DetectAndLaunchNewMissiles(radar, ms1, ts[1..], aimAt);
      var r := DetectAndLaunch(radar, ms1, ts[1..], aimAt);
      if ms1 != ms {
        assert ms1 == ms + [LaunchedAt(radar, p, aimAt)];
        assert r[|ms|] == ms1[|ms|] by {
          assert r[..|ms1|][|ms|] == r[|ms|];
        }
        assert Targeted(ms1, p) by {
          assert ms1[|ms|].aim.value.target == p;
        }
        forall j | |ms1| <= j < |r|
          ensures r[j].aim.value.target != p
        {
          assert !Targeted(ms1, r[j].aim.value.target);
        }
      }
    }
  }

  /** After `detect_and_launch` every threat in range is targeted. */
  lemma {:induction false} DetectAndLaunchCovers(radar: Pos, ms: seq<MissileState>, ts: seq<Pos>, aimAt: (Pos, Pos) -> Dir)
    ensures var r := DetectAndLaunch(radar, ms, ts, aimAt);
      forall p :: p in ts && InDetectionRange(p, radar) ==> Targeted(r, p)
    decreases |ts|
  {
    if ts != [] {
      var p := ts[0];
      var ms1 := LaunchStep(radar, ms, p, aimAt);
      DetectAndLaunchCovers(radar, ms1, ts[1..], aimAt);
      DetectAndLaunchAppends(radar, ms1, ts[1..], aimAt);
      var r := DetectAndLaunch(radar, ms1, ts[1..], aimAt);
      if InDetectionRange(p, radar) {
        assert Targeted(ms1, p) by {
          if !Targeted(ms, p) {
            assert ms1[|ms|] == LaunchedAt(radar, p, aimAt);
          }
        }
        TargetedExtends(ms1, r, p);
      }
      forall q | q in ts && InDetectionRange(q, radar) && q != p
        ensures Targeted(r, q)
      {
        assert q in ts[1..];
      }
    }
  }

  /**
   * What `detect_and_launch` does to the missile list:
   * - it only appends: the old missiles are an unchanged prefix, and at most one
   *   missile is added per threat;
   * - every appended missile starts at the radar, aimed at the position of some
   *   threat that is in range and that no existing missile targeted;
   * - no two appended missiles aim at the same point;
   * - afterwards every threat in range is targeted.
   * Together: for each in-range position not already targeted exactly one
   * missile is appended, and nothing else is.
   */
  lemma DetectAndLaunchSpec(radar: Pos, ms: seq<MissileState>, ts: seq<Pos>, aimAt: (Pos, Pos) -> Dir)
    ensures var r := DetectAndLaunch(radar, ms, ts, aimAt);
      && |ms| <= |r| <= |ms| + |ts|
      && r[..|ms|] == ms
      && (forall i :: |ms| <= i < |r| ==>
            FreshLaunch(radar, r[i], aimAt) && r[i].aim.value.target in ts && !Targeted(ms, r[i].aim.value.target))
      && (forall i, j :: |ms| <= i < j < |r| ==> r[i].aim.value.target != r[j].aim.value.target)
      && (forall p :: p in ts && InDetectionRange(p, radar) ==> Targeted(r, p))
  {
    DetectAndLaunchAppends(radar, ms, ts, aimAt);
    DetectAndLaunchNewMissiles(radar, ms, ts, aimAt);
    DetectAndLaunchDistinctTargets(radar, ms, ts, aimAt);
    DetectAndLaunchCovers(radar, ms, ts, aimAt);
  }

  /** When every in-range threat is already targeted, nothing is launched. */
  lemma {:induction false} NothingLaunchedWhenCovered(radar: Pos, ms: seq<MissileState>, ts: seq<Pos>, aimAt: (Pos, Pos) -> Dir)
    requires forall p :: p in ts && InDetectionRange(p, radar) ==> Targeted(ms, p)
    ensures DetectAndLaunch(radar, ms, ts, aimAt) == ms
    decreases |ts|
  {
    if ts != [] {
      assert LaunchStep(radar, ms, ts[0], aimAt) == ms;
      NothingLaunchedWhenCovered(radar, ms, ts[1..], aimAt);
    }
  }

  /**
   * Calling `detect_and_launch` again while no threat has moved launches
   * nothing more.
   */
  lemma DetectAndLaunchIdempotent(radar: Pos, ms: seq<MissileState>, ts: seq<Pos>, aimAt: (Pos, Pos) -> Dir)
    ensures var r := DetectAndLaunch(radar, ms, ts, aimAt);
      DetectAndLaunch(radar, r, ts, aimAt) == r
  {
    DetectAndLaunchSpec(radar, ms, ts, aimAt);
    NothingLaunchedWhenCovered(radar, DetectAndLaunch(radar, ms, ts, aimAt), ts, aimAt);
  }

  /** The threats are handled in list order: a call on `ts1 + ts2` is a call on `ts1` followed by one on `ts2`. */
  lemma {:induction false} DetectAndLaunchSplits(radar: Pos, ms: seq<MissileState>, ts1: seq<Pos>, ts2: seq<Pos>, aimAt: (Pos, Pos) -> Dir)
    ensures DetectAndLaunch(radar, ms, ts1 + ts2, aimAt)
         == DetectAndLaunch(radar, DetectAndLaunch(radar, ms, ts1, aimAt), ts2, aimAt)
    decreases |ts1|
  {
    if ts1 != [] {
      assert (ts1 + ts2)[0] == ts1[0];
      assert (ts1 + ts2)[1..] == ts1[1..] + ts2;
      DetectAndLaunchSplits(radar, LaunchStep(radar, ms, ts1[0], aimAt), ts1[1..], ts2, aimAt);
    } else {
      assert ts1 + ts2 == ts2;
    }
  }

  /** One more threat handled by the loop of `detect_and_launch`. */
  lemma DetectAndLaunchPrefixStep(radar: Pos, ms: seq<MissileState>, ts: seq<Pos>, i: nat, aimAt: (Pos, Pos) -> Dir)
    requires i < |ts|
    ensures DetectAndLaunch(radar, ms, ts[..i + 1], aimAt)
         == LaunchStep(radar, DetectAndLaunch(radar, ms, ts[..i], aimAt), ts[i], aimAt)
  {
    assert ts[..i + 1] == ts[..i] + [ts[i]];
    DetectAndLaunchSplits(radar, ms, ts[..i], [ts[i]], aimAt);
  }

  /**
   * Targets are matched by coordinates, not by threat: once a threat has moved
   * away from the point its missile was aimed at, the next `detect_and_launch`
   * no longer recognises it and launches a second missile for the same threat.
   */
  lemma MovedThreatGetsSecondMissile(radar: Pos, ms: seq<MissileState>, p: Pos, q: Pos, aimAt: (Pos, Pos) -> Dir)
    requires InDetectionRange(p, radar) && InDetectionRange(q, radar)
    requires p != q && !Targeted(ms, q)
    ensures var once := DetectAndLaunch(radar, ms, [p], aimAt);
      && Targeted(once, p)
      && DetectAndLaunch(radar, once, [q], aimAt) == once + [LaunchedAt(radar, q, aimAt)]
  {
    var once := LaunchStep(radar, ms, p, aimAt);
    assert DetectAndLaunch(radar, ms, [p], aimAt) == once by {
      assert [p][1..] == [];
    }
    if !Targeted(ms, p) {
      assert once[|ms|].aim.value.target == p;
    }
    forall i | 0 <= i < |once| && once[i].aim.Some?
      ensures once[i].aim.value.target != q
    {
      if i < |ms| {
        assert once[i] == ms[i];
      }
    }
    assert DetectAndLaunch(radar, once, [q], aimAt) == LaunchStep(radar, once, q, aimAt) by {
      assert [q][1..] == [];
    }
  }

  // ---------------------------------------------------------------------------
  // Interception reports
  // ---------------------------------------------------------------------------

  /** `(a, b)` comes before `(c, d)` in missile-major, then threat order. */
  predicate LexLess(a: (nat, nat), b: (nat, nat))
  {
    a.0 < b.0 || (a.0 == b.0 && a.1 < b.1)
  }

  /**
   * The inner loop of `update_defense_missiles` for missile number `i` at `m`,
   * from threat number `j` on: a pair `(i, j')` for each threat it reached.
   */
  function RowHitsFrom(m: MissileState, i: nat, ts: seq<Pos>, j: nat): (r: seq<(nat, nat)>)
    requires j <= |ts|
    ensures forall k :: 0 <= k < |r| ==> r[k].0 == i && j <= r[k].1 < |ts|
    decreases |ts| - j
  {
    if j == |ts| then []
    else (if Intercepts(m.pos, ts[j]) then [(i, j)] else []) + RowHitsFrom(m, i, ts, j + 1)
  }

  /** The whole inner loop for missile number `i`. */
  function RowHits(m: MissileState, i: nat, ts: seq<Pos>): seq<(nat, nat)>
  {
    RowHitsFrom(m, i, ts, 0)
  }

  /** The pairs the outer loop of `update_defense_missiles` reports from missile number `i` on. */
  function HitPairsFrom(ms: seq<MissileState>, ts: seq<Pos>, i: nat): (r: seq<(nat, nat)>)
    requires i <= |ms|
    ensures forall k :: 0 <= k < |r| ==> i <= r[k].0 < |ms| && r[k].1 < |ts|
    decreases |ms| - i
  {
    if i == |ms| then []
    else RowHits(ms[i], i, ts) + HitPairsFrom(ms, ts, i + 1)
  }

  /**
   * The (missile, threat) index pairs that `update_defense_missiles` reports,
   * given the missiles after they moved.
   */
  function HitPairs(ms: seq<MissileState>, ts: seq<Pos>): seq<(nat, nat)>
  {
    HitPairsFrom(ms, ts, 0)
  }

  /** The threats named by the second components of `pairs`, in order. */
  function Pick<T>(ts: seq<T>, pairs: seq<(nat, nat)>): seq<T>
    requires forall k :: 0 <= k < |pairs| ==> pairs[k].1 < |ts|
  {
    seq(|pairs|, k requires 0 <= k < |pairs| => ts[pairs[k].1])
  }

  /** Picking along concatenated pair lists concatenates the picks. */
  lemma PickAppend<T>(ts: seq<T>, a: seq<(nat, nat)>, b: seq<(nat, nat)>)
    requires forall k :: 0 <= k < |a| ==> a[k].1 < |ts|
    requires forall k :: 0 <= k < |b| ==> b[k].1 < |ts|
    ensures forall k :: 0 <= k < |a + b| ==> (a + b)[k].1 < |ts|
    ensures Pick(ts, a + b) == Pick(ts, a) + Pick(ts, b)
  {
  }

  /**
   * Loop state of `update_defense_missiles` after the first `i` missiles:
   * `got` followed by what the remaining missiles report is the whole report.
   */
  ghost predicate CollectedUpTo<T>(ts: seq<T>, ms: seq<MissileState>, ps: seq<Pos>, i: nat, got: seq<T>)
  {
    |ts| == |ps| && i <= |ms| && got + Pick(ts, HitPairsFrom(ms, ps, i)) == Pick(ts, HitPairs(ms, ps))
  }

  /** Appending missile `i`'s own report advances the loop state by one missile. */
  lemma CollectedStep<T>(ts: seq<T>, ms: seq<MissileState>, ps: seq<Pos>, i: nat, got: seq<T>, found: seq<T>)
    requires CollectedUpTo(ts, ms, ps, i, got) && i < |ms|
    requires found == Pick(ts, RowHits(ms[i], i, ps))
    ensures CollectedUpTo(ts, ms, ps, i + 1, got + found)
  {
    var row := RowHits(ms[i], i, ps);
    var rest := HitPairsFrom(ms, ps, i + 1);
    assert HitPairsFrom(ms, ps, i) == row + rest;
    PickAppend(ts, row, rest);
    assert got + (found + Pick(ts, rest)) == (got + found) + Pick(ts, rest);
  }

  /** After the last missile the collected threats are the whole report. */
  lemma CollectedAll<T>(ts: seq<T>, ms: seq<MissileState>, ps: seq<Pos>, got: seq<T>)
    requires CollectedUpTo(ts, ms, ps, |ms|, got)
    ensures got == Pick(ts, HitPairs(ms, ps))
  {
    assert got + [] == got;
  }

  /** Every pair of `r` names a missile of `ms` and a threat of `ts` less than 5 apart. */
  predicate AllReached(ms: seq<MissileState>, ts: seq<Pos>, r: seq<(nat, nat)>)
  {
    forall k :: 0 <= k < |r| ==> r[k].0 < |ms| && r[k].1 < |ts| && Intercepts(ms[r[k].0].pos, ts[r[k].1])
  }

  /** The pairs of `r` are strictly increasing in missile-major, then threat order. */
  predicate Increasing(r: seq<(nat, nat)>)
  {
    forall k, l :: 0 <= k < l < |r| ==> LexLess(r[k], r[l])
  }

  /** Every pair of the row names a threat the missile reached. */
  lemma {:induction false} RowHitsSound(ms: seq<MissileState>, i: nat, ts: seq<Pos>, j: nat)
    requires i < |ms| && j <= |ts|
    ensures AllReached(ms, ts, RowHitsFrom(ms[i], i, ts, j))
    decreases |ts| - j
  {
    if j < |ts| {
      RowHitsSound(ms, i, ts, j + 1);
      var rest := RowHitsFrom(ms[i], i, ts, j + 1);
      if Intercepts(ms[i].pos, ts[j]) {
        var r := [(i, j)] + rest;
        assert r == RowHitsFrom(ms[i], i, ts, j);
        forall k | 0 <= k < |r|
          ensures r[k].0 < |ms| && r[k].1 < |ts| && Intercepts(ms[r[k].0].pos, ts[r[k].1])
        {
          if k == 0 {
            assert r[k] == (i, j);
          } else {
            assert r[k] == rest[k - 1];
          }
        }
      } else {
        assert rest == RowHitsFrom(ms[i], i, ts, j);
      }
    }
  }

  /** Every threat from number `j` on that the missile reached has its pair in the row. */
  lemma {:induction false} RowHitsComplete(m: MissileState, i: nat, ts: seq<Pos>, j: nat)
    requires j <= |ts|
    ensures forall j' :: j <= j' < |ts| && Intercepts(m.pos, ts[j']) ==> (i, j') in RowHitsFrom(m, i, ts, j)
    decreases |ts| - j
  {
    if j < |ts| {
      RowHitsComplete(m, i, ts, j + 1);
      var rest := RowHitsFrom(m, i, ts, j + 1);
      var r := RowHitsFrom(m, i, ts, j);
      forall j' | j <= j' < |ts| && Intercepts(m.pos, ts[j'])
        ensures (i, j') in r
      {
        if j' == j {
          assert r == [(i, j)] + rest;
          assert r[0] == (i, j);
        } else {
          assert (i, j') in rest;
        }
      }
    }
  }

  /** The row lists threats in increasing order. */
  lemma {:induction false} RowHitsSorted(m: MissileState, i: nat, ts: seq<Pos>, j: nat)
    requires j <= |ts|
    ensures Increasing(RowHitsFrom(m, i, ts, j))
    decreases |ts| - j
  {
    if j < |ts| {
      RowHitsSorted(m, i, ts, j + 1);
      var rest := RowHitsFrom(m, i, ts, j + 1);
      if Intercepts(m.pos, ts[j]) {
        var r := [(i, j)] + rest;
        assert r == RowHitsFrom(m, i, ts, j);
        forall k, l | 0 <= k < l < |r|
          ensures LexLess(r[k], r[l])
        {
          assert r[l] == rest[l - 1];
          if k > 0 {
            assert r[k] == rest[k - 1];
          } else {
            assert r[0] == (i, j);
          }
        }
      } else {
        assert rest == RowHitsFrom(m, i, ts, j);
      }
    }
  }

  /** Every reported pair names a missile and a threat less than 5 apart. */
  lemma {:induction false} HitPairsSound(ms: seq<MissileState>, ts: seq<Pos>, i: nat)
    requires i <= |ms|
    ensures AllReached(ms, ts, HitPairsFrom(ms, ts, i))
    decreases |ms| - i
  {
    if i < |ms| {
      HitPairsSound(ms, ts, i + 1);
      RowHitsSound(ms, i, ts, 0);
      var a := RowHits(ms[i], i, ts);
      var b := HitPairsFrom(ms, ts, i + 1);
      assert HitPairsFrom(ms, ts, i) == a + b;
      assert forall k :: |a| <= k < |a + b| ==> (a + b)[k] == b[k - |a|];
    }
  }

  /** Every pair of a missile from number `i` on and a threat less than 5 apart is reported. */
  lemma {:induction false} HitPairsComplete(ms: seq<MissileState>, ts: seq<Pos>, i: nat)
    requires i <= |ms|
    ensures forall i', j :: i <= i' < |ms| && 0 <= j < |ts| && Intercepts(ms[i'].pos, ts[j])
                         ==> (i', j) in HitPairsFrom(ms, ts, i)
    decreases |ms| - i
  {
    if i < |ms| {
      HitPairsComplete(ms, ts, i + 1);
      RowHitsComplete(ms[i], i, ts, 0);
      var a := RowHits(ms[i], i, ts);
      var b := HitPairsFrom(ms, ts, i + 1);
      var r := HitPairsFrom(ms, ts, i);
      assert r == a + b;
      forall i', j | i <= i' < |ms| && 0 <= j < |ts| && Intercepts(ms[i'].pos, ts[j])
        ensures (i', j) in r
      {
        if i' > i {
          assert (i', j) in b;
        } else {
          assert (i', j) in a;
        }
      }
    }
  }

  /** The report is in missile-major order and, for one missile, in threat order. */
  lemma {:induction false} HitPairsSorted(ms: seq<MissileState>, ts: seq<Pos>, i: nat)
    requires i <= |ms|
    ensures Increasing(HitPairsFrom(ms, ts, i))
    decreases |ms| - i
  {
    if i < |ms| {
      HitPairsSorted(ms, ts, i + 1);
      RowHitsSorted(ms[i], i, ts, 0);
      var a := RowHits(ms[i], i, ts);
      var b := HitPairsFrom(ms, ts, i + 1);
      var r := a + b;
      assert r == HitPairsFrom(ms, ts, i);
      forall k, l | 0 <= k < l < |r|
        ensures LexLess(r[k], r[l])
      {
        if l < |a| {
          assert r[k] == a[k] && r[l] == a[l];
        } else if k < |a| {
          assert r[k] == a[k] && r[l] == b[l - |a|];
        } else {
          assert r[k] == b[k - |a|] && r[l] == b[l - |a|];
        }
      }
    }
  }

  /**
   * The report is not de-duplicated: two missiles that both end within 5 of
   * the same threat report that threat twice.
   */
  lemma SameThreatReportedTwice(m1: MissileState, m2: MissileState, t: Pos)
    requires Intercepts(m1.pos, t) && Intercepts(m2.pos, t)
    ensures HitPairs([m1, m2], [t]) == [(0, 0), (1, 0)]
  {
    var ms := [m1, m2];
    assert RowHitsFrom(m1, 0, [t], 1) == [] && RowHitsFrom(m2, 1, [t], 1) == [];
    assert RowHits(m1, 0, [t]) == [(0, 0)];
    assert RowHits(m2, 1, [t]) == [(1, 0)];
    assert HitPairsFrom(ms, [t], 2) == [];
    assert HitPairsFrom(ms, [t], 1) == [(1, 0)];
  }

  // ---------------------------------------------------------------------------
  // Removing reported threats and scoring
  // ---------------------------------------------------------------------------

  /** No entry occurs twice (Python lists of objects, compared by identity). */
  predicate Distinct<T(==)>(s: seq<T>)
    decreases |s|
  {
    s == [] || (s[0] !in s[1..] && Distinct(s[1..]))
  }

  /** Equivalently: every entry of the list occurs in it exactly once. */
  lemma {:induction false} DistinctCounts<T>(s: seq<T>)
    ensures Distinct(s) <==> forall x | x in s :: multiset(s)[x] == 1
    decreases |s|
  {
    if s != [] {
      var y, p := s[0], s[1..];
      DistinctCounts(p);
      assert s == [y] + p;
      assert forall x :: multiset(s)[x] == multiset(p)[x] + (if x == y then 1 else 0);
      if forall x | x in s :: multiset(s)[x] == 1 {
        assert multiset(s)[y] == 1;
        forall x | x in p
          ensures multiset(p)[x] == 1
        {
          assert x in s;
        }
      }
    }
  }

  /** Appending an entry the list does not hold keeps it free of repeats. */
  lemma {:induction false} DistinctAppend<T>(s: seq<T>, x: T)
    requires Distinct(s) && x !in s
    ensures Distinct(s + [x])
    decreases |s|
  {
    if s == [] {
      assert [] + [x] == [x];
    } else {
      DistinctAppend(s[1..], x);
      assert (s + [x])[0] == s[0] && (s + [x])[1..] == s[1..] + [x];
    }
  }

  /** Two entries of a list at different places are the same object only if it occurs twice. */
  lemma EqualEntriesCountTwice<T>(s: seq<T>, i: nat, j: nat)
    requires i < j < |s|
    ensures s[i] == s[j] ==> multiset(s)[s[i]] >= 2
  {
    assert s == s[..i] + [s[i]] + s[i + 1..j] + [s[j]] + s[j + 1..];
  }

  lemma DistinctIndices<T>(s: seq<T>, i: nat, j: nat)
    requires Distinct(s) && i < |s| && j < |s| && i != j
    ensures s[i] != s[j]
  {
    DistinctCounts(s);
    if i < j {
      EqualEntriesCountTwice(s, i, j);
    } else {
      EqualEntriesCountTwice(s, j, i);
    }
  }

  /** `list.remove(x)` on a list that holds `x`: the first occurrence goes. */
  function RemoveFirst<T(==)>(s: seq<T>, x: T): (r: seq<T>)
    requires x in s
    ensures |r| == |s| - 1
    decreases |s|
  {
    if s[0] == x then s[1..]
    else [s[0]] + RemoveFirst(s[1..], x)
  }

  /** `list.remove(x)` takes exactly one `x` out of the list and leaves everything else. */
  lemma {:induction false} RemoveFirstMultiset<T>(s: seq<T>, x: T)
    requires x in s
    ensures multiset(RemoveFirst(s, x)) == multiset(s) - multiset{x}
    decreases |s|
  {
    assert s == [s[0]] + s[1..];
    if s[0] != x {
      RemoveFirstMultiset(s[1..], x);
    }
  }

  /**
   * The result of the tick's loop `for threat in intercepted: threats.remove(threat);
   * score += 1`: the list left, the points added, and whether the loop finished.
   * `ok` is false when a reported threat is no longer in the list: there
   * `list.remove` raises `ValueError`, and `remaining` and `scored` are the
   * values at that moment.
   */
  datatype Resolution<T> = Resolution(remaining: seq<T>, scored: nat, ok: bool)

  function ResolveHits<T(==)>(ts: seq<T>, hits: seq<T>): Resolution<T>
    decreases |hits|
  {
    if hits == [] then Resolution(ts, 0, true)
    else if hits[0] !in ts then Resolution(ts, 0, false)
    else
      var r := ResolveHits(RemoveFirst(ts, hits[0]), hits[1..]);
      Resolution(r.remaining, r.scored + 1, r.ok)
  }

  /** Each completed removal adds one point, and the points plus the list left make up the old list. */
  lemma {:induction false} ResolveHitsCounts<T>(ts: seq<T>, hits: seq<T>)
    ensures var r := ResolveHits(ts, hits);
      && r.scored <= |hits|
      && |r.remaining| + r.scored == |ts|
      && (r.ok ==> r.scored == |hits|)
    decreases |hits|
  {
    if hits != [] && hits[0] in ts {
      ResolveHitsCounts(RemoveFirst(ts, hits[0]), hits[1..]);
    }
  }

  lemma {:induction false} ResolveHitsContents<T>(ts: seq<T>, hits: seq<T>)
    ensures ResolveHits(ts, hits).ok <==> multiset(hits) <= multiset(ts)
    ensures ResolveHits(ts, hits).ok ==> multiset(ResolveHits(ts, hits).remaining) == multiset(ts) - multiset(hits)
    decreases |hits|
  {
    if hits != [] {
      var h := hits[0];
      var rest := hits[1..];
      assert hits == [h] + rest;
      assert multiset(hits) == multiset{h} + multiset(rest);
      if h in ts {
        var ts' := RemoveFirst(ts, h);
        RemoveFirstMultiset(ts, h);
        ResolveHitsContents(ts', rest);
        var mt, mt' := multiset(ts), multiset(ts');
        assert h in mt;
        assert mt == mt' + multiset{h};
        assert multiset(rest) <= mt' <==> multiset{h} + multiset(rest) <= mt;
      } else {
        assert multiset(ts)[h] == 0;
        assert multiset(hits)[h] >= 1;
      }
    }
  }

  /**
   * The removal loop finishes exactly when every reported entry can be matched
   * to its own occurrence in the list (as multisets). Each removal adds one
   * point, so when it finishes the score grows by exactly the number of
   * entries and those entries are gone from the list.
   */
  lemma ResolveHitsSpec<T>(ts: seq<T>, hits: seq<T>)
    ensures var r := ResolveHits(ts, hits);
      && (r.ok <==> multiset(hits) <= multiset(ts))
      && r.scored <= |hits|
      && |r.remaining| + r.scored == |ts|
      && (r.ok ==> r.scored == |hits| && multiset(r.remaining) == multiset(ts) - multiset(hits))
  {
    ResolveHitsCounts(ts, hits);
    ResolveHitsContents(ts, hits);
  }

  /**
   * When two entries of the report are the same threat (a threat hit by two
   * missiles in one tick) and the list holds no threat twice, the second
   * `threats.remove` raises `ValueError`.
   */
  lemma RepeatedHitRaises<T>(ts: seq<T>, hits: seq<T>, i: nat, j: nat)
    requires Distinct(ts)
    requires i < j < |hits| && hits[i] == hits[j]
    ensures !ResolveHits(ts, hits).ok
  {
    ResolveHitsSpec(ts, hits);
    EqualEntriesCountTwice(hits, i, j);
    DistinctCounts(ts);
    assert multiset(ts)[hits[i]] <= 1;
  }

  // ---------------------------------------------------------------------------
  // The threat-moving loop of the tick
  // ---------------------------------------------------------------------------

  /** The entries of `s` whose flag in `gone` is false, in order. */
  function Kept<T>(s: seq<T>, gone: seq<bool>): (r: seq<T>)
    requires |s| == |gone|
    ensures |r| <= |s|
    decreases |s|
  {
    if s == [] then []
    else (if gone[0] then [] else [s[0]]) + Kept(s[1..], gone[1..])
  }

  lemma {:induction false} KeptMembers<T>(s: seq<T>, gone: seq<bool>, x: T)
    requires |s| == |gone|
    ensures x in Kept(s, gone) <==> exists i :: 0 <= i < |s| && s[i] == x && !gone[i]
    decreases |s|
  {
    if s != [] {
      KeptMembers(s[1..], gone[1..], x);
      if x in Kept(s[1..], gone[1..]) {
        var i :| 0 <= i < |s| - 1 && s[1..][i] == x && !gone[1..][i];
        assert s[i + 1] == x && !gone[i + 1];
      }
      if exists i :: 0 <= i < |s| && s[i] == x && !gone[i] {
        var i :| 0 <= i < |s| && s[i] == x && !gone[i];
        if i > 0 {
          assert s[1..][i - 1] == x && !gone[1..][i - 1];
        }
      }
    }
  }

  /**
   * A list midway through the moving loop, after `k` iterations: the first `k`
   * entries are in their `after` form, less those that arrived (`gone`); the
   * rest are still in their `before` form. On the threat list itself both
   * forms are the threats; on their positions this is what the `k`-th call of
   * `detect_and_launch` sees.
   */
  function Midway<T>(before: seq<T>, after: seq<T>, gone: seq<bool>, k: nat): seq<T>
    requires |before| == |after| == |gone| && k <= |before|
    decreases k
  {
    if k == 0 then before
    else (if gone[0] then [] else [after[0]]) + Midway(before[1..], after[1..], gone[1..], k - 1)
  }

  /**
   * The missile list after the first `k` iterations of the loop
   * `for threat in threats.copy(): move; remove if arrived; detect_and_launch(threats)`.
   */
  function MovePhase(radar: Pos, ms: seq<MissileState>, before: seq<Pos>, after: seq<Pos>, gone: seq<bool>,
                     k: nat, aimAt: (Pos, Pos) -> Dir): seq<MissileState>
    requires |before| == |after| == |gone| && k <= |before|
    decreases k
  {
    if k == 0 then ms
    else DetectAndLaunch(radar, MovePhase(radar, ms, before, after, gone, k - 1, aimAt),
                         Midway(before, after, gone, k), aimAt)
  }

  /** `p` is among the positions the `c`-th `detect_and_launch` call of the moving loop is offered. */
  predicate OfferedAt(before: seq<Pos>, after: seq<Pos>, gone: seq<bool>, c: nat, p: Pos)
  {
    |before| == |after| == |gone| && 1 <= c <= |before| && p in Midway(before, after, gone, c)
  }

  /** `r` holds `ms` as an unchanged prefix. */
  predicate Extends<T(==)>(ms: seq<T>, r: seq<T>)
  {
    |ms| <= |r| && r[..|ms|] == ms
  }

  /** Extending is transitive. */
  lemma ExtendsTrans<T>(a: seq<T>, b: seq<T>, c: seq<T>)
    requires Extends(a, b) && Extends(b, c)
    ensures Extends(a, c)
  {
    assert c[..|b|][..|a|] == c[..|a|];
  }

  /**
   * Every missile of `r` after those of `ms` was launched from the radar at a
   * position one of the first `k` `detect_and_launch` calls of the moving loop saw.
   */
  predicate LaunchedByMove(radar: Pos, ms: seq<MissileState>, r: seq<MissileState>, before: seq<Pos>, after: seq<Pos>,
                           gone: seq<bool>, k: nat, aimAt: (Pos, Pos) -> Dir)
  {
    forall i :: |ms| <= i < |r| ==>
      FreshLaunch(radar, r[i], aimAt)
      && exists c :: 1 <= c <= k && OfferedAt(before, after, gone, c, r[i].aim.value.target)
  }

  /**
   * The moving loop only appends missiles, each launched from the radar at
   * some position a `detect_and_launch` call of the loop saw.
   */
  lemma {:induction false} MovePhaseOnlyAppends(radar: Pos, ms: seq<MissileState>, before: seq<Pos>, after: seq<Pos>,
                                                gone: seq<bool>, k: nat, aimAt: (Pos, Pos) -> Dir)
    requires |before| == |after| == |gone| && k <= |before|
    ensures Extends(ms, MovePhase(radar, ms, before, after, gone, k, aimAt))
    ensures LaunchedByMove(radar, ms, MovePhase(radar, ms, before, after, gone, k, aimAt), before, after, gone, k, aimAt)
    decreases k
  {
    if k == 0 {
      assert ms[..|ms|] == ms;
    } else {
      MovePhaseOnlyAppends(radar, ms, before, after, gone, k - 1, aimAt);
      var q := MovePhase(radar, ms, before, after, gone, k - 1, aimAt);
      DetectAndLaunchAppends(radar, q, Midway(before, after, gone, k), aimAt);
      DetectAndLaunchNewMissiles(radar, q, Midway(before, after, gone, k), aimAt);
      var r := MovePhase(radar, ms, before, after, gone, k, aimAt);
      assert r == DetectAndLaunch(radar, q, Midway(before, after, gone, k), aimAt);
      assert |ms| <= |q| <= |r|;
      assert r[..|ms|] == ms by {
        assert r[..|q|][..|ms|] == r[..|ms|];
      }
      forall i | |ms| <= i < |r|
        ensures FreshLaunch(radar, r[i], aimAt)
             && exists c :: 1 <= c <= k && OfferedAt(before, after, gone, c, r[i].aim.value.target)
      {
        if i < |q| {
          assert r[i] == q[i] by {
            assert r[..|q|][i] == r[i];
          }
        } else {
          assert OfferedAt(before, after, gone, k, r[i].aim.value.target);
        }
      }
    }
  }

  /**
   * A threat that two missiles reach in the same tick is reported twice, and
   * the tick's removal loop then raises `ValueError` on the second entry.
   */
  lemma DoubleHitRaises<T>(ms: seq<MissileState>, ps: seq<Pos>, ts: seq<T>, i1: nat, i2: nat, j: nat)
    requires |ps| == |ts| && Distinct(ts)
    requires i1 < i2 < |ms| && j < |ts|
    requires Intercepts(ms[i1].pos, ps[j]) && Intercepts(ms[i2].pos, ps[j])
    ensures !ResolveHits(ts, Pick(ts, HitPairs(ms, ps))).ok
  {
    var k1, k2 := HitIndices(ms, ps, i1, i2, j);
    var hits := Pick(ts, HitPairs(ms, ps));
    assert hits[k1] == ts[j] && hits[k2] == ts[j];
    RepeatedHitRaises(ts, hits, k1, k2);
  }

  /** Two missiles that both reach threat `j` give two entries of the report, the lower-numbered missile's first. */
  lemma HitIndices(ms: seq<MissileState>, ps: seq<Pos>, i1: nat, i2: nat, j: nat) returns (k1: nat, k2: nat)
    requires i1 < i2 < |ms| && j < |ps|
    requires Intercepts(ms[i1].pos, ps[j]) && Intercepts(ms[i2].pos, ps[j])
    ensures k1 < k2 < |HitPairs(ms, ps)|
    ensures HitPairs(ms, ps)[k1] == (i1, j) && HitPairs(ms, ps)[k2] == (i2, j)
  {
    HitPairsComplete(ms, ps, 0);
    HitPairsSorted(ms, ps, 0);
    var r := HitPairs(ms, ps);
    assert (i1, j) in r && (i2, j) in r;
    k1 :| 0 <= k1 < |r| && r[k1] == (i1, j);
    k2 :| 0 <= k2 < |r| && r[k2] == (i2, j);
    assert k1 < k2 by {
      assert !LexLess(r[k2], r[k1]);
    }
  }


  /**
   * One iteration of the moving loop on the threat list `Midway(s, s, g, k)`:
   * the `k`-th threat is in the list, and when it arrived, `threats.remove`
   * takes out exactly that threat; otherwise the list is left as it is.
   */
  lemma KeptStep<T>(s: seq<T>, g: seq<bool>, k: nat)
    requires |s| == |g| && k < |s| && Distinct(s)
    ensures s[k] in Midway(s, s, g, k)
    ensures Midway(s, s, g, k + 1)
         == if g[k] then RemoveFirst(Midway(s, s, g, k), s[k]) else Midway(s, s, g, k)
    decreases k
  {
    var t, h := s[1..], if g[0] then [] else [s[0]];
    assert s == [s[0]] + t;
    if k > 0 {
      KeptStep(t, g[1..], k - 1);
      assert s[k] == t[k - 1];
      assert s[k] != s[0];
      RemoveFirstPast(h, Midway(t, t, g[1..], k - 1), s[k]);
    }
  }

  /** `list.remove` passes over entries other than the one it removes. */
  lemma RemoveFirstPast<T>(h: seq<T>, m: seq<T>, x: T)
    requires x in m && x !in h && |h| <= 1
    ensures RemoveFirst(h + m, x) == h + RemoveFirst(m, x)
  {
    if h != [] {
      var l := h + m;
      assert h == [h[0]] && l[0] == h[0] && h[0] != x;
      assert l[1..] == m;
      assert RemoveFirst(l, x) == [l[0]] + RemoveFirst(l[1..], x);
    } else {
      assert h + m == m && h + RemoveFirst(m, x) == RemoveFirst(m, x);
    }
  }

  /** The moving loop starts from the whole list and ends with the threats that did not arrive. */
  lemma MidwayEnds<T>(before: seq<T>, after: seq<T>, gone: seq<bool>)
    requires |before| == |after| == |gone|
    ensures Midway(before, after, gone, 0) == before
    ensures Midway(before, after, gone, |before|) == Kept(after, gone)
    decreases |before|
  {
    if before != [] {
      MidwayEnds(before[1..], after[1..], gone[1..]);
    }
  }

  lemma RemoveFirstDistinct<T>(s: seq<T>, x: T)
    requires x in s && Distinct(s)
    ensures Distinct(RemoveFirst(s, x))
    ensures forall y :: y in RemoveFirst(s, x) ==> y in s && y != x
  {
    var r := RemoveFirst(s, x);
    RemoveFirstMultiset(s, x);
    DistinctCounts(s);
    DistinctCounts(r);
    forall y | y in r
      ensures y in s && y != x && multiset(r)[y] == 1
    {
      assert multiset(r)[y] >= 1;
    }
  }

}
