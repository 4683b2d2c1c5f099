# Air defence simulations: a verified model

This project models the two small simulations of the air-defence repository.
It models their bookkeeping and leaves out their rendering.

- **air_defense.py** is the interactive game.
  - The player clicks one of two buttons, and a *Swift* or *Heavy* threat is launched from the top edge towards the radar.
  - Every tick, the radar launches a defence missile at each threat that is in range (150, inclusive) and not yet targeted. "Targeted" means some missile's aim point equals the threat's current position exactly.
  - The threats then move. A threat closer than 5 to the radar has arrived and is dropped.
  - The missiles move next, and every (missile, threat) pair closer than 5 is reported.
  - Each reported threat is removed from the list and scores one point.
- **defense_simulation.py** is the scripted animation.
  - One projectile flies from the left edge towards the protected point (60, 60), by a fixed step per frame. `FuncAnimation` calls `update` 151 times: once for its initial draw of frame 0, then for the frames 0 to 149.
  - In the first frame where it is strictly within 20 of that point, the interception count goes up once. From then on nothing moves.

The Dafny files:

- `plane.dfy`, module `Plane`: positions as pairs of reals, squared distance, motion by a fixed step. It also has lemmas showing that the squared tests (`SqDist < k * k`, `SqDist <= k * k`) agree with the source's `hypot`/`sqrt` tests on the true distance.
- `wrappers.dfy`, module `Wrappers`: `Option`.
- `air_defense_rules.dfy`, module `AirDefenseRules`: the rules of the game as functions on values. It contains:
  - the button test and the three distance tests;
  - missile motion;
  - `DetectAndLaunch`, the missile list after one `detect_and_launch` call;
  - `HitPairs`, the (missile, threat) index pairs `update_defense_missiles` reports;
  - `Kept` and `Midway`, the threat list during the moving loop;
  - `MovePhase`, the missile list during that loop;
  - `ResolveHits`, the removal-and-score loop, including its `ValueError` exit.

  The game's properties are proved as lemmas about these functions.
- `air_defense.dfy`, module `AirDefense`: the classes `Threat`, `DefenseMissile`, `DetectionSystem` and `Simulation`. Their fields are updated in place, and the missile and threat lists are sequence fields that the methods reassign. Every loop of the modelled part is a `while` or `for` loop here. Each method is proved to compute what the functions of `AirDefenseRules` say.
- `defense_simulation.dfy`, module `DefenseSimulation`: the classes `Projectile`, `AirDefense` and `Scene`. `Scene` holds the script's globals. There is also a value-level frame machine, `UpdateFrame` and `Run`, that `Scene.Update` and `Scene.Animate` are proved against. The lemmas about the frame machine state the script's properties.

Distances are never square-rooted. Each test `hypot(...) < k` or `sqrt(...) < k` becomes `SqDist(...) < k * k`, which is exact because both sides are non-negative. The `*IsStrict`, `*IsInclusive` and `*IffDistance*` lemmas, and the contracts of the class predicates `IsAtTarget`, `IsInDetectionRange`, `HasIntercepted` and `DetectProjectile`, prove the two tests agree for any `d` with `d >= 0` and `d * d == SqDist`. Each squared test is exact only for a threshold `k >= 0`. The game's thresholds are the constants 5 and 150. `DetectProjectile` takes its radius as a parameter, so it checks `0 <= defense_radius` first: a negative radius detects nothing, as `distance < defense_radius` never holds then.

A threat that two missiles reach in the same tick is appended to `intercepted_threats` once per missile, so the second `threats.remove` raises `ValueError`. The model keeps that: `ResolveHits` reports `ok == false`, and `DoubleHitRaises` proves this happens whenever two missiles reach the same threat in one tick.

## Model

| member | source | states |
|---|---|---|
| AirDefenseRules.CheckButtonClick | air_defense.py:171-178 | Returns Swift exactly when (x, y) lies in [50, 150] × [50, 90], Heavy exactly when it lies in [200, 300] × [50, 90], and None exactly when it lies in neither; hence at most one label applies |
| AirDefenseRules.ArrivalIsStrict | air_defense.py:56-58 | For the true distance d to the target, the arrival test holds iff d < 5 (exactly 5 is not arrived) |
| AirDefenseRules.DetectionIsInclusive | air_defense.py:60-62 | For the true distance d to the radar, the detection test holds iff d <= 150 (exactly 150 is detected) |
| AirDefenseRules.InterceptionIsStrict | air_defense.py:86-88 | For the true distance d between missile and threat, the hit test holds iff d < 5 |
| AirDefenseRules.MissileFlight | air_defense.py:80-84 | A missile with no target never moves; a missile with a target is, after n moves, at its position plus n times the fixed step (speed 10 along its heading), with its aim unchanged |
| AirDefenseRules.MoveMissileNTranslates | air_defense.py:80-84 | n moves of an aimed missile are n translations by the same step |
| AirDefense.Threat.constructor | air_defense.py:38-49 | A new threat is at its start, with the given target, speed and heading |
| AirDefense.Threat.UpdatePosition | air_defense.py:51-54 | The threat moves by its speed along its heading |
| AirDefense.Threat.IsAtTarget | air_defense.py:56-58 | For every true distance d from the threat to its target, it holds iff d < 5 |
| AirDefense.Threat.IsInDetectionRange | air_defense.py:60-62 | For every true distance d from the threat to the radar, it holds iff d <= 150 |
| AirDefense.DefenseMissile.constructor | air_defense.py:66-72 | A new missile is at the given point with no target |
| AirDefense.DefenseMissile.CalculateInterception | air_defense.py:74-78 | The aim point becomes the threat's current position and the heading the given one; the position is unchanged |
| AirDefense.DefenseMissile.UpdatePosition | air_defense.py:80-84 | The new state is one step of the missile motion: unchanged without a target, one fixed step along the heading with one |
| AirDefense.DefenseMissile.HasIntercepted | air_defense.py:86-88 | For every true distance d from the missile to the threat, it holds iff d < 5 |
| AirDefense.DetectionSystem.constructor | air_defense.py:92-96 | The radar is at the given point and has no missiles |
| AirDefense.DetectionSystem.IsDefenseMissileLaunchedFor | air_defense.py:105-111 | True iff some missile's aim point equals the threat's position exactly |
| AirDefenseRules.MovedThreatGetsSecondMissile | air_defense.py:105-111 | Once a targeted threat has moved to another in-range point, the next check does not recognise it, and exactly one more missile is launched at its new position |
| AirDefense.DetectionSystem.LaunchDefenseMissile | air_defense.py:113-117 | Appends exactly one fresh missile that starts at the radar and is aimed at the threat's position; earlier missiles are unchanged |
| AirDefense.DetectionSystem.DetectOne | air_defense.py:100-103 | One loop iteration: the missile list grows by a launch at the threat iff the threat is in range and not targeted |
| AirDefense.DetectionSystem.DetectAndLaunch | air_defense.py:98-103 | The missile states become the rules' DetectAndLaunch of the old states and the threat positions; old missiles keep their place, new ones are fresh, and no threat moves |
| AirDefenseRules.DetectAndLaunchAppends | air_defense.py:98-117 | The old missile list is an unchanged prefix of the result, and at most one missile is added per threat |
| AirDefenseRules.DetectAndLaunchNewMissiles | air_defense.py:98-117 | Every added missile starts at the radar, is aimed at a position in the threat list, and that position was not targeted before |
| AirDefenseRules.DetectAndLaunchDistinctTargets | air_defense.py:98-117 | No two added missiles share an aim point |
| AirDefenseRules.DetectAndLaunchCovers | air_defense.py:98-117 | Afterwards, every in-range threat position is targeted |
| AirDefenseRules.DetectAndLaunchSpec | air_defense.py:98-117 | All of the above together: only appends, each addition is a fresh launch at an untargeted listed position, additions are distinct, and every in-range threat ends up covered |
| AirDefenseRules.NothingLaunchedWhenCovered | air_defense.py:98-111 | When every in-range threat is already targeted, nothing is launched |
| AirDefenseRules.DetectAndLaunchIdempotent | air_defense.py:98-111 | A second call on unchanged threats launches nothing |
| AirDefenseRules.DetectAndLaunchSplits | air_defense.py:100-103 | Scanning a list is scanning its first part and then its second part |
| AirDefenseRules.RowHitsSound | air_defense.py:125-127 | Every pair reported for a missile is that missile with a threat it is closer than 5 to |
| AirDefenseRules.RowHitsComplete | air_defense.py:125-127 | Every threat the missile is closer than 5 to is reported for it |
| AirDefenseRules.RowHitsSorted | air_defense.py:125-127 | A missile's reports are in threat order |
| AirDefenseRules.HitPairsSound | air_defense.py:123-129 | Every reported (missile, threat) pair is closer than 5 |
| AirDefenseRules.HitPairsComplete | air_defense.py:123-129 | Every (missile, threat) pair closer than 5 is reported |
| AirDefenseRules.HitPairsSorted | air_defense.py:123-129 | Reports are in missile-major, then threat order (strictly increasing, so each pair at most once) |
| AirDefenseRules.SameThreatReportedTwice | air_defense.py:123-129 | A threat reached by two missiles appears twice in the report |
| AirDefenseRules.CollectedStep | air_defense.py:123-128 | Appending one missile's reports to those of the earlier missiles gives the reports of one more missile |
| AirDefense.DetectionSystem.InterceptedBy | air_defense.py:125-127 | Returns the threats the given missile is closer than 5 to, in list order |
| AirDefense.DetectionSystem.MoveAndReport | air_defense.py:123-128 | One outer iteration: missile i moves one step and its reports are appended; no threat moves |
| AirDefense.DetectionSystem.UpdateDefenseMissiles | air_defense.py:120-129 | Every missile moves once, and the result lists, for each (missile, threat) pair of the moved missiles closer than 5, that threat, in missile-major then threat order |
| AirDefenseRules.RemoveFirstMultiset | air_defense.py:219 | `list.remove` takes away exactly one copy of the element |
| AirDefenseRules.ResolveHitsCounts | air_defense.py:224-226 | The removal loop scores at most one point per report, the list left plus the points make up the old list, and a loop that finishes scores exactly the number of reports |
| AirDefenseRules.ResolveHitsContents | air_defense.py:224-226 | The loop finishes iff the reports are a sub-multiset of the threat list, and then the list left is the old list minus the reports |
| AirDefenseRules.ResolveHitsSpec | air_defense.py:224-226 | All of the above together |
| AirDefenseRules.RepeatedHitRaises | air_defense.py:224-226 | With distinct threats, a threat reported twice makes the loop stop with the `ValueError` exit |
| AirDefenseRules.DoubleHitRaises | air_defense.py:223-226 | Two missiles closer than 5 to the same threat in one tick make the removal loop raise |
| AirDefenseRules.HitIndices | air_defense.py:123-129 | Two missiles reaching a threat yield two reports, at increasing positions |
| AirDefenseRules.KeptMembers | air_defense.py:216-219 | A threat survives the moving loop iff it was in the list and did not arrive |
| AirDefenseRules.MovePhaseOnlyAppends | air_defense.py:216-220 | The moving loop only appends to the missile list, and each new missile is a launch from the radar at a position one of the loop's detect calls saw |
| AirDefense.Simulation.constructor | air_defense.py:191-194 | The game starts with no threats, score 0 and no missiles; the two type speeds drawn at start-up lie in [6, 10] and [2, 5] |
| AirDefense.Simulation.LaunchThreat | air_defense.py:180-186 | Appends one fresh threat at (startX, 0), startX in [0, 800], aimed at the radar, with the kind's speed; the earlier threats and the score are unchanged |
| AirDefense.Simulation.HandleClick | air_defense.py:201-206 | A click outside both buttons changes nothing; a click on a button launches exactly one threat of that button's kind |
| AirDefense.Simulation.AdvanceThreat | air_defense.py:217-219 | One threat moves one step and is dropped iff it then lies closer than 5 to its target; the missiles are unchanged |
| AirDefense.Simulation.MoveThreat | air_defense.py:216-220 | One iteration of the moving loop: move, drop if arrived, then detect on the shortened list |
| AirDefense.Simulation.DetectAfterMove | air_defense.py:220 | The detect call inside the moving loop sees the list as it is at that point |
| AirDefense.Simulation.MoveThreats | air_defense.py:216-220 | Every threat of the copied list moves once, the arrived ones are dropped, and the missiles are those the loop's detect calls launch, each call seeing the list with earlier arrivals already gone |
| AirDefense.Simulation.DetectAndMove | air_defense.py:213-220 | The first detect call followed by the moving loop |
| AirDefense.Simulation.RemoveIntercepted | air_defense.py:224-226 | The threat list, score and outcome are those of the removal loop |
| AirDefense.Simulation.InterceptPhase | air_defense.py:223-226 | Missiles move and report; the reports are removed and scored; no threat moves |
| AirDefense.Simulation.Tick | air_defense.py:213-226 | One tick: detect, move threats and detect after each, move missiles, then remove and score the reported threats; the missile list only grows, the threats that survive the moving loop have no repeats (so `DoubleHitRaises` applies to them), and the new threat list, score and outcome are given by the rules |
| Plane.TranslateNIsLinear | defense_simulation.py:28-31 | n steps of (vx, vy) from p reach p + n·(vx, vy) |
| DefenseSimulation.Projectile.constructor | defense_simulation.py:8-26 | A new projectile is at (0, startY), startY in [10, 110], with the given target, speed in [0.8, 1.2] and step |
| DefenseSimulation.StepTowardTarget | defense_simulation.py:17-26 | The normalised step has length equal to the speed, lies on the line of the offset to the target, and (for a non-negative speed) each component has the sign of the offset's, so it points toward the target rather than away |
| DefenseSimulation.StartOutsidePerimeter | defense_simulation.py:10-11 | A projectile starts at squared distance at least 3600 from (60, 60), so it is not detected at the start |
| DefenseSimulation.StartDistance | defense_simulation.py:17-20 | The normalising distance from the start to (60, 60) is at least 60, so the division is safe |
| DefenseSimulation.Projectile.Move | defense_simulation.py:28-31 | The position gains exactly (dx, dy) |
| DefenseSimulation.Projectile.SqDistanceToTarget | defense_simulation.py:33-35 | The squared distance to the given point is never negative, and it is zero when the projectile is at that point |
| DefenseSimulation.AirDefense.constructor | defense_simulation.py:39-44 | The defence keeps the given protected point and radius |
| DefenseSimulation.AirDefense.DetectProjectile | defense_simulation.py:46-49 | For every true distance d to the protected point and every radius, negative ones included, detection holds iff d < defense_radius |
| DefenseSimulation.DetectedIffInsideRadius | defense_simulation.py:46-49 | With the script's zone, detection holds iff d < 20, so a distance of exactly 20 is not detected |
| DefenseSimulation.AirDefense.EngageTarget | defense_simulation.py:51-54 | Always returns true |
| DefenseSimulation.Scene.constructor | defense_simulation.py:57-65 | The defence watches (60, 60) with radius 20, the projectile is new, the count is 0 and intercepted is false |
| DefenseSimulation.Scene.Update | defense_simulation.py:96-123 | The new position, count and flag are one frame of the frame machine: nothing changes once intercepted; otherwise move, and when detected add one to the count and set the flag |
| DefenseSimulation.Scene.Animate | defense_simulation.py:126 | After the animation, the state is 151 frames of the frame machine from the initial state: the initial draw of frame 0, then the frames 0 to 149 |
| DefenseSimulation.RunSplit | defense_simulation.py:96-123 | n frames followed by m frames are n + m frames |
| DefenseSimulation.RunFrozen | defense_simulation.py:100-103 | From an intercepted state, any number of frames changes nothing |
| DefenseSimulation.StaysFrozen | defense_simulation.py:100-103 | Once intercepted after n frames, the position, count and flag stay fixed for all later frames |
| DefenseSimulation.RunKeepsCount | defense_simulation.py:109-113 | If the count is 1 when intercepted and 0 otherwise, that stays so across frames |
| DefenseSimulation.CountAtMostOne | defense_simulation.py:92-113 | From the initial state, the count is at most 1 at every frame, and it is 1 iff intercepted |
| DefenseSimulation.NoDetectionYet | defense_simulation.py:100-121 | While no frame so far has detected, the projectile is at the start plus n steps, with count 0 |
| DefenseSimulation.LinearFlight | defense_simulation.py:28-31 | Until detection, after n frames the projectile is at start + n·(dx, dy) |
| DefenseSimulation.FirstDetectionFrame | defense_simulation.py:101-113 | If frame m is the first to detect, every later frame shows the position after m steps, count 1 and intercepted |
| DefenseSimulation.FirstDetected | defense_simulation.py:109-113 | If some frame detects, there is a first such frame |
| DefenseSimulation.InterceptedIffDetectedWithin | defense_simulation.py:101-113 | After n frames it is intercepted iff some step m in 1..n lands strictly inside the radius |

## Left out

- Rendering: every pygame and matplotlib call (screen, circles, buttons, radar drawing, explosions, markers, titles, legend, grid, `FuncAnimation` set-up, `plt.show`). These are foreign libraries with no effect on the state.
- Sound, the asset paths, `pygame.event.get` and `clock.tick`. These are I/O and wall-clock pacing.
- The `while running` loop and the quit event of `main_simulation`. The model covers one tick (`Tick`) and one click (`HandleClick`), not their repetition.
- The radar sweep angle (air_defense.py:96, 137-152). It is only drawn.
- Headings. `math.atan2`/`cos`/`sin` are not modelled:
  - a threat's heading is a `Dir(cos, sin)` passed to its constructor;
  - a missile's launch heading is computed by a function parameter `aimAt(from, to)`.
- AirDefense.Threat.constructor: the given heading is not constrained to point at the target.
- The square root of defense_simulation.py:20. The step `(dx, dy)` and the distance `dist` are given, related by `NormalisedStep`.
- DefenseSimulation.Projectile.constructor requires `0 < dist`, which excludes a start equal to the target, where the source divides by zero. With the script's own start and target this never happens (`StartDistance`).
- Random values become parameters with the source's ranges: the type speeds drawn once at import (`random.uniform(6, 10)`, `random.uniform(2, 5)`), the threat's `startX` (`randint(0, 800)`), the projectile's `startY` (`randint(10, 110)`) and its speed (`uniform(0.8, 1.2)`).
- Floating point. Positions are exact reals, so the exact coordinate comparison of air_defense.py:108-109 is exact real equality, with no rounding.
- Colours and sizes of threat types, and `draw_buttons`.
- The `print` inside `engage_target`.
- DefenseSimulation.Projectile.SqDistanceToTarget: states that the squared distance is never negative and is zero at the target point, but not the converse, that it is zero only there. No other member relies on the converse.
- DefenseSimulation.Scene.Update takes `frame` but ignores it, as the source does.
- What happens after `ValueError`. `Tick` returns `ok == false` with the list and score as at the failing `remove`. The source's exception would end the program.
