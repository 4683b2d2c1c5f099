/**
 * The objects of the interactive air-defence loop (air_defense.py): threats and
 * defence missiles whose positions are updated in place, the detection system
 * that owns the growing list of missiles, and the game state of
 * `main_simulation` (the threat list and the score). Each method is specified
 * by the value-level rules of module AirDefenseRules.
 */
module AirDefense {

  import opened Wrappers
  import opened Plane
  import opened AirDefenseRules

  /** An incoming threat. Its speed and heading are fixed when it is created. */
  class Threat {
    const startX: real
    const startY: real
    const targetX: real
    const targetY: real
    const speed: real
    /** The heading `atan2(target - start)`, as its cosine and sine. */
    const heading: Dir
    var x: real
    var y: real

    constructor (startX: real, startY: real, targetX: real, targetY: real, speed: real, heading: Dir)
      ensures this.startX == startX && this.startY == startY
      ensures this.targetX == targetX && this.targetY == targetY
      ensures this.speed == speed && this.heading == heading
      ensures x == startX && y == startY
    {
      this.startX, this.startY := startX, startY;
      this.targetX, this.targetY := targetX, targetY;
      this.speed, this.heading := speed, heading;
      x, y := startX, startY;
    }

    function Target(): Pos
    {
      Pos(targetX, targetY)
    }

    /** `update_position`: one step along the heading at the threat's speed. */
    method UpdatePosition()
      modifies this
      ensures Pos(x, y) == Advance(old(Pos(x, y)), speed, heading)
    {
      x := x + speed * heading.cos;
      y := y + speed * heading.sin;
    }

    function Position(): Pos
      reads this
    {
      Pos(x, y)
    }

    /** `is_at_target`: strictly closer than 5 to the target, for the true distance `d`. */
    function IsAtTarget(): (r: bool)
      reads this
      ensures forall d :: IsDistance(d, Position(), Target()) ==> (r <==> d < 5.0)
    {
      CloserForAllDistances(Position(), Target(), ARRIVAL_DISTANCE);
      ThreatAtTarget(Pos(x, y), Target())
    }

    /** `is_in_detection_range`: at most 150 from the radar, for the true distance `d`. */
    function IsInDetectionRange(radarX: real, radarY: real): (r: bool)
      reads this
      ensures forall d :: IsDistance(d, Position(), Pos(radarX, radarY)) ==> (r <==> d <= 150.0)
    {
      WithinForAllDistances(Position(), Pos(radarX, radarY), DETECTION_RANGE);
      InDetectionRange(Pos(x, y), Pos(radarX, radarY))
    }
  }

  /** The current positions of a list of threats. */
  function Positions(ts: seq<Threat>): seq<Pos>
    reads ts
  {
    seq(|ts|, i reads ts requires 0 <= i < |ts| => ts[i].Position())
  }

  /** For each threat of the list, whether it is at its target now. */
  function ArrivedFlags(ts: seq<Threat>): seq<bool>
    reads ts
  {
    seq(|ts|, i reads ts requires 0 <= i < |ts| => ts[i].IsAtTarget())
  }

  /** Where each threat of `ts`, now at `ps`, is after one `update_position`. */
  function Advanced(ts: seq<Threat>, ps: seq<Pos>): (r: seq<Pos>)
    requires |ps| == |ts|
    ensures |r| == |ts|
    decreases |ts|
  {
    if ts == [] then []
    else
      var n := |ts| - 1;
      Advanced(ts[..n], ps[..n]) + [Advance(ps[n], ts[n].speed, ts[n].heading)]
  }

  lemma {:induction false} AdvancedAt(ts: seq<Threat>, ps: seq<Pos>, i: nat)
    requires |ps| == |ts| && i < |ts|
    ensures Advanced(ts, ps)[i] == Advance(ps[i], ts[i].speed, ts[i].heading)
    decreases |ts|
  {
    var n := |ts| - 1;
    if i < n {
      AdvancedAt(ts[..n], ps[..n], i);
    }
  }

  /** For each threat of `ts`, placed at the matching entry of `ps`, whether it is at its target. */
  function Arrivals(ts: seq<Threat>, ps: seq<Pos>): (r: seq<bool>)
    requires |ps| == |ts|
    ensures |r| == |ts|
    decreases |ts|
  {
    if ts == [] then []
    else
      var n := |ts| - 1;
      Arrivals(ts[..n], ps[..n]) + [ThreatAtTarget(ps[n], ts[n].Target())]
  }

  lemma {:induction false} ArrivalsAt(ts: seq<Threat>, ps: seq<Pos>, i: nat)
    requires |ps| == |ts| && i < |ts|
    ensures Arrivals(ts, ps)[i] == ThreatAtTarget(ps[i], ts[i].Target())
    decreases |ts|
  {
    var n := |ts| - 1;
    if i < n {
      ArrivalsAt(ts[..n], ps[..n], i);
    }
  }

  /** At the threats' current positions, `Arrivals` are the flags `is_at_target` reports. */
  lemma ArrivalsAreFlags(ts: seq<Threat>)
    ensures Arrivals(ts, Positions(ts)) == ArrivedFlags(ts)
  {
    forall i | 0 <= i < |ts|
      ensures Arrivals(ts, Positions(ts))[i] == ArrivedFlags(ts)[i]
    {
      ArrivalsAt(ts, Positions(ts), i);
    }
  }

  lemma {:induction false} PositionsOfKept(ts: seq<Threat>, g: seq<bool>)
    requires |ts| == |g|
    ensures Positions(Kept(ts, g)) == Kept(Positions(ts), g)
    decreases |ts|
  {
    if ts != [] {
      PositionsOfKept(ts[1..], g[1..]);
      assert Positions(ts)[1..] == Positions(ts[1..]);
      var a: seq<Threat> := if g[0] then [] else [ts[0]];
      var b := Kept(ts[1..], g[1..]);
      assert Positions(a + b) == Positions(a) + Positions(b);
    }
  }

  /** Once every threat has moved, the positions are the moved ones. */
  lemma PositionsAllMoved(ts: seq<Threat>, after: seq<Pos>)
    requires |after| == |ts|
    requires forall i :: 0 <= i < |ts| ==> ts[i].Position() == after[i]
    ensures Positions(ts) == after
  {
  }

  /**
   * Midway through the moving loop, with the first `k` threats moved, the
   * positions of the current list are the positions `detect_and_launch` is
   * offered.
   */
  lemma {:induction false} PositionsMidway(ts: seq<Threat>, before: seq<Pos>, after: seq<Pos>, gone: seq<bool>, k: nat)
    requires |before| == |after| == |gone| == |ts| && k <= |ts|
    requires forall i {:trigger ts[i].Position()} :: 0 <= i < |ts| ==>
               ts[i].Position() == if i < k then after[i] else before[i]
    ensures Positions(Midway(ts, ts, gone, k)) == Midway(before, after, gone, k)
    decreases k
  {
    if k == 0 {
      assert Positions(ts) == before;
    } else {
      var t := ts[1..];
      forall i | 0 <= i < |t|
        ensures t[i].Position() == if i < k - 1 then after[1..][i] else before[1..][i]
      {
        assert t[i] == ts[i + 1];
      }
      PositionsMidway(t, before[1..], after[1..], gone[1..], k - 1);
      var h: seq<Threat> := if gone[0] then [] else [ts[0]];
      var m := Midway(t, t, gone[1..], k - 1);
      assert Midway(ts, ts, gone, k) == h + m;
      PositionsAppend(h, m);
      assert ts[0].Position() == after[0];
      assert Positions(h) == if gone[0] then [] else [after[0]];
    }
  }

  lemma PositionsAppend(a: seq<Threat>, b: seq<Threat>)
    ensures Positions(a + b) == Positions(a) + Positions(b)
  {
  }

  /** A defence missile. It moves only after `calculate_interception` has aimed it. */
  class DefenseMissile {
    var x: real
    var y: real
    const speed: real := DEFENSE_MISSILE_SPEED
    /** `target_x`, `target_y` and `angle`; `None` until the missile is aimed. */
    var aim: Option<Aim>

    constructor (startX: real, startY: real)
      ensures x == startX && y == startY && aim == None
    {
      x, y := startX, startY;
      aim := None;
    }

    function State(): MissileState
      reads this
    {
      MissileState(Pos(x, y), aim)
    }

    /**
     * `calculate_interception`: lock on to the threat's current position. The
     * heading `atan2` would compute from the missile to that point is given.
     */
    method CalculateInterception(threat: Threat, heading: Dir)
      modifies this
      ensures aim == Some(Aim(Pos(threat.x, threat.y), heading))
      ensures x == old(x) && y == old(y)
    {
      aim := Some(Aim(Pos(threat.x, threat.y), heading));
    }

    method UpdatePosition()
      modifies this
      ensures State() == MoveMissile(old(State()))
    {
      if aim.Some? {
        x := x + speed * aim.value.heading.cos;
        y := y + speed * aim.value.heading.sin;
      }
    }

    /** `has_intercepted`: strictly closer than 5 to the threat, for the true distance `d`. */
    function HasIntercepted(threat: Threat): (r: bool)
      reads this, threat
      ensures forall d :: IsDistance(d, Pos(x, y), threat.Position()) ==> (r <==> d < 5.0)
    {
      CloserForAllDistances(Pos(x, y), threat.Position(), INTERCEPT_DISTANCE);
      Intercepts(Pos(x, y), Pos(threat.x, threat.y))
    }
  }

  /** The current states of a list of missiles. */
  function States(ms: seq<DefenseMissile>): seq<MissileState>
    reads ms
  {
    seq(|ms|, i reads ms requires 0 <= i < |ms| => ms[i].State())
  }

  /** The radar: a fixed position and the list of missiles it has launched. */
  class DetectionSystem {
    const x: real
    const y: real
    var defenseMissiles: seq<DefenseMissile>

    /** Every launch builds a new missile, so no missile is in the list twice. */
    ghost predicate Valid()
      reads this
    {
      Distinct(defenseMissiles)
    }

    constructor (radarX: real, radarY: real)
      ensures Valid() && x == radarX && y == radarY && defenseMissiles == []
    {
      x, y := radarX, radarY;
      defenseMissiles := [];
    }

    function Radar(): Pos
    {
      Pos(x, y)
    }

    /**
     * `is_defense_missile_launched_for`: whether some missile's stored target
     * equals the threat's current position.
     */
    method IsDefenseMissileLaunchedFor(threat: Threat) returns (launched: bool)
      ensures launched == Targeted(States(defenseMissiles), Pos(threat.x, threat.y))
    {
      var i := 0;
      while i < |defenseMissiles|
        invariant 0 <= i <= |defenseMissiles|
        invariant !Targeted(States(defenseMissiles)[..i], Pos(threat.x, threat.y))
      {
        var m := defenseMissiles[i];
        if m.aim.Some? && m.aim.value.target.x == threat.x && m.aim.value.target.y == threat.y {
          assert States(defenseMissiles)[i] == m.State();
          return true;
        }
        assert States(defenseMissiles)[..i + 1] == States(defenseMissiles)[..i] + [m.State()];
        i := i + 1;
      }
      assert States(defenseMissiles)[..i] == States(defenseMissiles);
      return false;
    }

    /** `launch_defense_missile`: build a missile at the radar, aim it, append it. */
    method LaunchDefenseMissile(threat: Threat, aimAt: (Pos, Pos) -> Dir)
      requires Valid()
      modifies this
      ensures Valid()
      ensures |defenseMissiles| == |old(defenseMissiles)| + 1
      ensures defenseMissiles[..|old(defenseMissiles)|] == old(defenseMissiles)
      ensures fresh(defenseMissiles[|defenseMissiles| - 1])
      ensures States(defenseMissiles)
           == old(States(defenseMissiles)) + [LaunchedAt(Radar(), Pos(threat.x, threat.y), aimAt)]
    {
      var m := new DefenseMissile(x, y);
      m.CalculateInterception(threat, aimAt(Pos(m.x, m.y), Pos(threat.x, threat.y)));
      DistinctAppend(defenseMissiles, m);
      defenseMissiles := defenseMissiles + [m];
      assert States(defenseMissiles)[..|defenseMissiles| - 1] == old(States(defenseMissiles));
    }

    /**
     * One pass of `detect_and_launch`'s loop: launch a missile at the threat
     * when it is in range and no missile is aimed at its position yet.
     */
    method DetectOne(threat: Threat, aimAt: (Pos, Pos) -> Dir)
      requires Valid()
      modifies this
      ensures Valid()
      ensures |old(defenseMissiles)| <= |defenseMissiles|
      ensures defenseMissiles[..|old(defenseMissiles)|] == old(defenseMissiles)
      ensures forall k :: |old(defenseMissiles)| <= k < |defenseMissiles| ==> fresh(defenseMissiles[k])
      ensures States(defenseMissiles) == LaunchStep(Radar(), old(States(defenseMissiles)), threat.Position(), aimAt)
    {
      if threat.IsInDetectionRange(x, y) {
        var launched := IsDefenseMissileLaunchedFor(threat);
        if !launched {
          LaunchDefenseMissile(threat, aimAt);
        }
      } else {
        assert defenseMissiles[..|defenseMissiles|] == defenseMissiles;
      }
    }

    /**
     * `detect_and_launch`: for each threat in list order that is in range and
     * not yet targeted, launch one missile. Existing missiles are untouched.
     */
    method DetectAndLaunch(threats: seq<Threat>, aimAt: (Pos, Pos) -> Dir)
      requires Valid()
      modifies this
      ensures Valid()
      ensures |old(defenseMissiles)| <= |defenseMissiles|
      ensures defenseMissiles[..|old(defenseMissiles)|] == old(defenseMissiles)
      ensures forall m :: m in defenseMissiles ==> m in old(defenseMissiles) || fresh(m)
      ensures Positions(threats) == old(Positions(threats))
      ensures States(defenseMissiles)
           == AirDefenseRules.DetectAndLaunch(Radar(), old(States(defenseMissiles)), Positions(threats), aimAt)
    {
      ghost var ms0 := States(defenseMissiles);
      ghost var ps := Positions(threats);
      for i := 0 to |threats|
        invariant Valid()
        invariant |old(defenseMissiles)| <= |defenseMissiles|
        invariant defenseMissiles[..|old(defenseMissiles)|] == old(defenseMissiles)
        invariant forall k :: |old(defenseMissiles)| <= k < |defenseMissiles| ==> fresh(defenseMissiles[k])
        invariant Positions(threats) == ps
        invariant States(defenseMissiles) == AirDefenseRules.DetectAndLaunch(Radar(), ms0, ps[..i], aimAt)
      {
        ghost var prev := defenseMissiles;
        assert ps[i] == threats[i].Position();
        DetectOne(threats[i], aimAt);
        forall k | |old(defenseMissiles)| <= k < |defenseMissiles|
          ensures fresh(defenseMissiles[k])
        {
          if k < |prev| {
            assert defenseMissiles[k] == prev[k];
          }
        }
        assert defenseMissiles[..|old(defenseMissiles)|] == old(defenseMissiles) by {
          assert defenseMissiles[..|prev|][..|old(defenseMissiles)|] == defenseMissiles[..|old(defenseMissiles)|];
        }
        DetectAndLaunchPrefixStep(Radar(), ms0, ps, i, aimAt);
      }
      assert ps[..|threats|] == ps;
      forall m | m in defenseMissiles
        ensures m in old(defenseMissiles) || fresh(m)
      {
        var i :| 0 <= i < |defenseMissiles| && defenseMissiles[i] == m;
        if i < |old(defenseMissiles)| {
          assert defenseMissiles[..|old(defenseMissiles)|][i] == m;
        }
      }
    }

    /**
     * The inner loop of `update_defense_missiles` for the missile `m`, number
     * `i` in the list: the threats closer than 5 to it, in list order.
     */
    method InterceptedBy(m: DefenseMissile, i: nat, threats: seq<Threat>) returns (found: seq<Threat>)
      ensures found == Pick(threats, RowHits(m.State(), i, Positions(threats)))
    {
      ghost var ps := Positions(threats);
      ghost var row: seq<(nat, nat)> := [];
      found := [];
      for j := 0 to |threats|
        invariant forall k :: 0 <= k < |row| ==> row[k].1 < j
        invariant row + RowHitsFrom(m.State(), i, ps, j) == RowHits(m.State(), i, ps)
        invariant found == Pick(threats, row)
      {
        ghost var rest := RowHitsFrom(m.State(), i, ps, j + 1);
        if m.HasIntercepted(threats[j]) {
          found := found + [threats[j]];
          assert row + ([(i, j)] + rest) == (row + [(i, j)]) + rest;
          row := row + [(i, j)];
        } else {
          assert RowHitsFrom(m.State(), i, ps, j) == rest;
        }
      }
      assert row + [] == row;
    }

    /**
     * One pass of `update_defense_missiles`' outer loop: move missile number
     * `i`, then report the threats it reached. `got` is what the missiles
     * before it reported, starting from the states `ms0`.
     */
    method MoveAndReport(i: nat, threats: seq<Threat>, ghost ms0: seq<MissileState>, ghost got: seq<Threat>)
      returns (found: seq<Threat>)
      requires Valid() && i < |defenseMissiles| == |ms0|
      requires States(defenseMissiles) == MoveAll(ms0)[..i] + ms0[i..]
      requires CollectedUpTo(threats, MoveAll(ms0), Positions(threats), i, got)
      modifies defenseMissiles[i]
      ensures States(defenseMissiles) == MoveAll(ms0)[..i + 1] + ms0[i + 1..]
      ensures Positions(threats) == old(Positions(threats))
      ensures CollectedUpTo(threats, MoveAll(ms0), Positions(threats), i + 1, got + found)
    {
      ghost var cur := States(defenseMissiles);
      var m := defenseMissiles[i];
      forall k | 0 <= k < |defenseMissiles| && k != i
        ensures defenseMissiles[k] != m
      {
        DistinctIndices(defenseMissiles, k, i);
      }
      assert m.State() == cur[i] == ms0[i];
      m.UpdatePosition();
      found := InterceptedBy(m, i, threats);
      ghost var moved := MoveAll(ms0);
      assert States(defenseMissiles) == cur[i := moved[i]];
      assert moved[..i + 1] + ms0[i + 1..] == cur[i := moved[i]];
      CollectedStep(threats, moved, Positions(threats), i, got, found);
    }

    /**
     * `update_defense_missiles`: move every missile once, and after moving a
     * missile report every threat closer than 5 to it.
     */
    method UpdateDefenseMissiles(threats: seq<Threat>) returns (interceptedThreats: seq<Threat>)
      requires Valid()
      modifies defenseMissiles
      ensures States(defenseMissiles) == MoveAll(old(States(defenseMissiles)))
      ensures interceptedThreats == Pick(threats, HitPairs(States(defenseMissiles), Positions(threats)))
    {
      ghost var ms0 := States(defenseMissiles);
      ghost var ps := Positions(threats);
      interceptedThreats := [];
      assert MoveAll(ms0)[..0] + ms0[0..] == ms0;
      var i := 0;
      while i < |defenseMissiles|
        invariant 0 <= i <= |defenseMissiles|
        invariant Positions(threats) == ps
        invariant States(defenseMissiles) == MoveAll(ms0)[..i] + ms0[i..]
        invariant CollectedUpTo(threats, MoveAll(ms0), ps, i, interceptedThreats)
      {
        var found := MoveAndReport(i, threats, ms0, interceptedThreats);
        interceptedThreats := interceptedThreats + found;
        i := i + 1;
      }
      assert States(defenseMissiles) == MoveAll(ms0);
      CollectedAll(threats, MoveAll(ms0), ps, interceptedThreats);
    }
  }

  /**
   * The state of `main_simulation`: the threat list, the detection system at
   * the radar position, and the score. The two threat speeds are drawn once,
   * when `THREAT_TYPES` is built, and shared by every threat of that kind.
   */
  class Simulation {
    var threats: seq<Threat>
    const detectionSystem: DetectionSystem
    var score: nat
    const swiftSpeed: real
    const heavySpeed: real

    ghost predicate Valid()
      reads this, detectionSystem
    {
      detectionSystem.Valid() && detectionSystem.Radar() == RADAR_POSITION && Distinct(threats)
    }

    constructor (swiftSpeed: real, heavySpeed: real)
      requires 6.0 <= swiftSpeed <= 10.0 && 2.0 <= heavySpeed <= 5.0
      ensures Valid() && fresh(detectionSystem)
      ensures threats == [] && score == 0 && detectionSystem.defenseMissiles == []
      ensures this.swiftSpeed == swiftSpeed && this.heavySpeed == heavySpeed
    {
      threats := [];
      detectionSystem := new DetectionSystem(RADAR_POSITION.x, RADAR_POSITION.y);
      score := 0;
      this.swiftSpeed, this.heavySpeed := swiftSpeed, heavySpeed;
    }

    function SpeedOf(kind: ThreatKind): real
    {
      match kind
      case Swift => swiftSpeed
      case Heavy => heavySpeed
    }

    /**
     * `launch_threat`: a new threat at `(startX, 0)`, `startX` being the value
     * `random.randint(0, SCREEN_WIDTH)` drew, aimed at the radar.
     */
    method LaunchThreat(kind: ThreatKind, startX: int, heading: Dir)
      requires Valid() && 0 <= startX <= SCREEN_WIDTH
      modifies this
      ensures Valid() && score == old(score)
      ensures |threats| == |old(threats)| + 1 && threats[..|old(threats)|] == old(threats)
      ensures var t := threats[|threats| - 1];
        && fresh(t)
        && t.x == startX as real && t.y == 0.0
        && t.Target() == RADAR_POSITION
        && t.speed == SpeedOf(kind) && t.heading == heading
    {
      var t := new Threat(startX as real, 0.0, RADAR_POSITION.x, RADAR_POSITION.y, SpeedOf(kind), heading);
      DistinctAppend(threats, t);
      threats := threats + [t];
    }

    /** A mouse click: launch a threat of the kind whose button was hit, if any. */
    method HandleClick(x: int, y: int, startX: int, heading: Dir)
      requires Valid() && 0 <= startX <= SCREEN_WIDTH
      modifies this
      ensures Valid() && score == old(score)
      ensures CheckButtonClick(x, y).None? ==> threats == old(threats)
      ensures CheckButtonClick(x, y).Some? ==>
        && |threats| == |old(threats)| + 1 && threats[..|old(threats)|] == old(threats)
        && var t := threats[|threats| - 1];
           fresh(t) && t.x == startX as real && t.y == 0.0 && t.Target() == RADAR_POSITION
           && t.speed == SpeedOf(CheckButtonClick(x, y).value) && t.heading == heading
    {
      var action := CheckButtonClick(x, y);
      if action == Some(Swift) {
        LaunchThreat(Swift, startX, heading);
      } else if action == Some(Heavy) {
        LaunchThreat(Heavy, startX, heading);
      }
    }

    /**
     * How far the loop `for threat in threats.copy()` has got: of the list as
     * it was (`snapshot`, at positions `before`), the first `k` threats have
     * moved to their positions in `after`, those flagged in `gone` have left
     * the list, and the rest are untouched.
     */
    ghost predicate Stage(snapshot: seq<Threat>, before: seq<Pos>, after: seq<Pos>, gone: seq<bool>, k: nat)
      reads this, snapshot
    {
      && |before| == |after| == |gone| == |snapshot| && k <= |snapshot| && Distinct(snapshot)
      && threats == Midway(snapshot, snapshot, gone, k)
      && forall i {:trigger snapshot[i].Position()} :: 0 <= i < |snapshot| ==>
           snapshot[i].Position() == if i < k then after[i] else before[i]
    }

    /**
     * The first half of a pass of the loop `for threat in threats.copy()`:
     * `update_position`, then `threats.remove(threat)` if the threat is now at
     * its target.
     */
    method AdvanceThreat(threat: Threat, ghost snapshot: seq<Threat>, ghost before: seq<Pos>,
                         ghost after: seq<Pos>, ghost gone: seq<bool>, ghost k: nat)
      requires Valid() && Stage(snapshot, before, after, gone, k)
      requires k < |snapshot| && snapshot[k] == threat
      requires after[k] == Advance(before[k], threat.speed, threat.heading)
      requires gone[k] == ThreatAtTarget(after[k], threat.Target())
      modifies this, threat
      ensures Valid() && score == old(score) && Stage(snapshot, before, after, gone, k + 1)
      ensures detectionSystem.defenseMissiles == old(detectionSystem.defenseMissiles)
      ensures States(detectionSystem.defenseMissiles) == old(States(detectionSystem.defenseMissiles))
    {
      KeptStep(snapshot, gone, k);
      assert threat.Position() == before[k];
      threat.UpdatePosition();
      if threat.IsAtTarget() {
        RemoveFirstDistinct(threats, threat);
        threats := RemoveFirst(threats, threat);
      }
      forall i | 0 <= i < |snapshot| && i != k
        ensures snapshot[i].Position() == old(snapshot[i].Position())
      {
        DistinctIndices(snapshot, i, k);
      }
      assert threat.Position() == after[k];
      assert threats == Midway(snapshot, snapshot, gone, k + 1);
    }

    /**
     * One pass of the loop `for threat in threats.copy()`: move the threat,
     * remove it if it arrived, then run `detect_and_launch` on the current list.
     * The ghost parameters describe the loop: the list as it was (`snapshot`,
     * at `before`), where its threats end up (`after`, `gone`), the pass
     * number `k`, and the missiles (`base`, in states `ms0`) before the loop.
     */
    method MoveThreat(threat: Threat, aimAt: (Pos, Pos) -> Dir, ghost snapshot: seq<Threat>, ghost before: seq<Pos>,
                      ghost after: seq<Pos>, ghost gone: seq<bool>, ghost k: nat,
                      ghost base: seq<DefenseMissile>, ghost ms0: seq<MissileState>)
      requires Valid() && Stage(snapshot, before, after, gone, k) && k < |snapshot| && snapshot[k] == threat
      requires after == Advanced(snapshot, before) && gone == Arrivals(snapshot, after)
      requires Extends(base, detectionSystem.defenseMissiles)
      requires States(detectionSystem.defenseMissiles) == MovePhase(RADAR_POSITION, ms0, before, after, gone, k, aimAt)
      modifies this, detectionSystem, threat
      ensures Valid() && score == old(score) && Stage(snapshot, before, after, gone, k + 1)
      ensures Extends(base, detectionSystem.defenseMissiles)
      ensures forall m :: m in detectionSystem.defenseMissiles ==> m in old(detectionSystem.defenseMissiles) || fresh(m)
      ensures States(detectionSystem.defenseMissiles) == MovePhase(RADAR_POSITION, ms0, before, after, gone, k + 1, aimAt)
    {
      AdvancedAt(snapshot, before, k);
      ArrivalsAt(snapshot, after, k);
      AdvanceThreat(threat, snapshot, before, after, gone, k);
      DetectAfterMove(aimAt, snapshot, before, after, gone, k, base, ms0);
    }

    /** The `detect_and_launch` call that ends pass `k` of the loop `for threat in threats.copy()`. */
    method DetectAfterMove(aimAt: (Pos, Pos) -> Dir, ghost snapshot: seq<Threat>, ghost before: seq<Pos>,
                           ghost after: seq<Pos>, ghost gone: seq<bool>, ghost k: nat,
                           ghost base: seq<DefenseMissile>, ghost ms0: seq<MissileState>)
      requires Valid() && Stage(snapshot, before, after, gone, k + 1)
      requires Extends(base, detectionSystem.defenseMissiles)
      requires States(detectionSystem.defenseMissiles) == MovePhase(RADAR_POSITION, ms0, before, after, gone, k, aimAt)
      modifies detectionSystem
      ensures Valid() && Stage(snapshot, before, after, gone, k + 1)
      ensures Extends(base, detectionSystem.defenseMissiles)
      ensures forall m :: m in detectionSystem.defenseMissiles ==> m in old(detectionSystem.defenseMissiles) || fresh(m)
      ensures States(detectionSystem.defenseMissiles) == MovePhase(RADAR_POSITION, ms0, before, after, gone, k + 1, aimAt)
    {
      ghost var prev := detectionSystem.defenseMissiles;
      PositionsMidway(snapshot, before, after, gone, k + 1);
      detectionSystem.DetectAndLaunch(threats, aimAt);
      ExtendsTrans(base, prev, detectionSystem.defenseMissiles);
    }

    /**
     * The loop `for threat in threats.copy()`: each threat of the list as it
     * was moves once, arrived threats leave the list, and `detect_and_launch`
     * runs after each of them.
     */
    method MoveThreats(aimAt: (Pos, Pos) -> Dir)
      requires Valid()
      modifies this, detectionSystem, threats
      ensures Valid() && score == old(score)
      ensures Positions(old(threats)) == Advanced(old(threats), old(Positions(threats)))
      ensures threats == Kept(old(threats), ArrivedFlags(old(threats)))
      ensures Extends(old(detectionSystem.defenseMissiles), detectionSystem.defenseMissiles)
      ensures forall m :: m in detectionSystem.defenseMissiles ==> m in old(detectionSystem.defenseMissiles) || fresh(m)
      ensures States(detectionSystem.defenseMissiles)
           == MovePhase(RADAR_POSITION, old(States(detectionSystem.defenseMissiles)),
                        old(Positions(threats)), Positions(old(threats)), ArrivedFlags(old(threats)),
                        |old(threats)|, aimAt)
    {
      var snapshot := threats;
      ghost var ms0 := States(detectionSystem.defenseMissiles);
      ghost var base := detectionSystem.defenseMissiles;
      ghost var before := Positions(snapshot);
      ghost var after := Advanced(snapshot, before);
      ghost var gone := Arrivals(snapshot, after);
      MidwayEnds(snapshot, snapshot, gone);
      for k := 0 to |snapshot|
        invariant Valid() && score == old(score) && Stage(snapshot, before, after, gone, k)
        invariant Extends(base, detectionSystem.defenseMissiles)
        invariant forall m :: m in detectionSystem.defenseMissiles ==> m in base || fresh(m)
        invariant States(detectionSystem.defenseMissiles) == MovePhase(RADAR_POSITION, ms0, before, after, gone, k, aimAt)
      {
        MoveThreat(snapshot[k], aimAt, snapshot, before, after, gone, k, base, ms0);
      }
      PositionsAllMoved(snapshot, after);
      ArrivalsAreFlags(snapshot);
    }

    /**
     * The loop `for threat in intercepted_threats: threats.remove(threat); score += 1`.
     * It returns false where `threats.remove` raises `ValueError`.
     */
    method RemoveIntercepted(interceptedThreats: seq<Threat>) returns (ok: bool)
      requires Valid()
      modifies this
      ensures Valid()
      ensures var r := ResolveHits(old(threats), interceptedThreats);
        threats == r.remaining && score == old(score) + r.scored && ok == r.ok
    {
      ghost var final := ResolveHits(threats, interceptedThreats);
      var k := 0;
      while k < |interceptedThreats|
        invariant 0 <= k <= |interceptedThreats|
        invariant Valid()
        invariant var r := ResolveHits(threats, interceptedThreats[k..]);
          r.remaining == final.remaining && score + r.scored == old(score) + final.scored && r.ok == final.ok
      {
        var threat := interceptedThreats[k];
        assert interceptedThreats[k..][0] == threat;
        assert interceptedThreats[k..][1..] == interceptedThreats[k + 1..];
        if threat !in threats {
          return false;
        }
        RemoveFirstDistinct(threats, threat);
        threats := RemoveFirst(threats, threat);
        score := score + 1;
        k := k + 1;
      }
      return true;
    }

    /**
     * The first half of the tick: `detect_and_launch` on the list as it is, then
     * the threat-moving loop.
     */
    method DetectAndMove(aimAt: (Pos, Pos) -> Dir)
      requires Valid()
      modifies this, detectionSystem, threats
      ensures Valid() && score == old(score)
      ensures Positions(old(threats)) == Advanced(old(threats), old(Positions(threats)))
      ensures threats == Kept(old(threats), ArrivedFlags(old(threats)))
      ensures var ds := detectionSystem;
        && |old(ds.defenseMissiles)| <= |ds.defenseMissiles|
        && ds.defenseMissiles[..|old(ds.defenseMissiles)|] == old(ds.defenseMissiles)
        && (forall m :: m in ds.defenseMissiles ==> m in old(ds.defenseMissiles) || fresh(m))
      ensures States(detectionSystem.defenseMissiles)
           == MovePhase(RADAR_POSITION,
                        AirDefenseRules.DetectAndLaunch(RADAR_POSITION, old(States(detectionSystem.defenseMissiles)),
                                                        old(Positions(threats)), aimAt),
                        old(Positions(threats)), Positions(old(threats)), ArrivedFlags(old(threats)),
                        |old(threats)|, aimAt)
    {
      detectionSystem.DetectAndLaunch(threats, aimAt);
      MoveThreats(aimAt);
    }

    /**
     * The second half of the tick: `update_defense_missiles` on the current
     * threat list, then the removal of the threats it reports.
     */
    method InterceptPhase(ghost snapshot: seq<Threat>) returns (interceptedThreats: seq<Threat>, ok: bool)
      requires Valid()
      modifies this, set m | m in detectionSystem.defenseMissiles
      ensures Valid()
      ensures Positions(snapshot) == old(Positions(snapshot))
      ensures detectionSystem.defenseMissiles == old(detectionSystem.defenseMissiles)
      ensures States(detectionSystem.defenseMissiles) == MoveAll(old(States(detectionSystem.defenseMissiles)))
      ensures interceptedThreats
           == Pick(old(threats), HitPairs(States(detectionSystem.defenseMissiles), old(Positions(threats))))
      ensures var r := ResolveHits(old(threats), interceptedThreats);
        threats == r.remaining && score == old(score) + r.scored && ok == r.ok
    {
      interceptedThreats := detectionSystem.UpdateDefenseMissiles(threats);
      ok := RemoveIntercepted(interceptedThreats);
    }

    /**
     * The non-drawing part of one pass of `main_simulation`'s loop, after the
     * events: `detect_and_launch`, the threat-moving loop, the missile update,
     * and the removal of intercepted threats with the score. `ok` is false when
     * the removal raises `ValueError`.
     */
    method Tick(aimAt: (Pos, Pos) -> Dir) returns (interceptedThreats: seq<Threat>, ok: bool)
      requires Valid()
      modifies this, detectionSystem, threats, detectionSystem.defenseMissiles
      ensures Valid()
      ensures Positions(old(threats)) == Advanced(old(threats), old(Positions(threats)))
      ensures var ds := detectionSystem;
        && |old(ds.defenseMissiles)| <= |ds.defenseMissiles|
        && ds.defenseMissiles[..|old(ds.defenseMissiles)|] == old(ds.defenseMissiles)
      ensures var survivors := Kept(old(threats), ArrivedFlags(old(threats)));
        && Distinct(survivors)
        && States(detectionSystem.defenseMissiles)
           == MoveAll(MovePhase(RADAR_POSITION,
                                AirDefenseRules.DetectAndLaunch(RADAR_POSITION, old(States(detectionSystem.defenseMissiles)),
                                                                old(Positions(threats)), aimAt),
                                old(Positions(threats)), Positions(old(threats)), ArrivedFlags(old(threats)),
                                |old(threats)|, aimAt))
        && interceptedThreats == Pick(survivors, HitPairs(States(detectionSystem.defenseMissiles), Positions(survivors)))
        && var r := ResolveHits(survivors, interceptedThreats);
           threats == r.remaining && score == old(score) + r.scored && ok == r.ok
    {
      ghost var snapshot := threats;
      ghost var launched := AirDefenseRules.DetectAndLaunch(RADAR_POSITION, States(detectionSystem.defenseMissiles),
                                                            Positions(threats), aimAt);
      ghost var before := Positions(threats);
      DetectAndMove(aimAt);
      ghost var survivors := threats;
      ghost var moved := States(detectionSystem.defenseMissiles);
      ghost var after := Positions(snapshot);
      ghost var gone := ArrivedFlags(snapshot);
      ArrivalsAreFlags(snapshot);
      ghost var ps := Positions(survivors);
      ghost var missiles := detectionSystem.defenseMissiles;
      assert moved == MovePhase(RADAR_POSITION, launched, before, after, gone, |snapshot|, aimAt);
      assert survivors == Kept(snapshot, gone);
      assert Distinct(survivors);
      interceptedThreats, ok := InterceptPhase(snapshot);
      assert Positions(snapshot) == after;
      ArrivalsAreFlags(snapshot);
      PositionsOfKept(snapshot, gone);
      assert Positions(survivors) == ps;
      assert detectionSystem.defenseMissiles == missiles;
      assert States(detectionSystem.defenseMissiles) == MoveAll(moved);
    }
  }
}
