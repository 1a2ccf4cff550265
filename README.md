# Air defence simulation: a verified model of the tick engine

`airdefensev.py` simulates two ballistic missiles flying towards a radar at
the origin. Each missile is a simpy process. Every tick it:

- checks whether it is inside the 80 000-unit radar range;
- orders one interceptor on its first detection;
- moves by its velocity;
- is grounded once it reaches `y <= 0`.

Each interceptor is also a process. Every tick it:

- stands down when its target is no longer flying;
- destroys the target when it is within the 500-unit hit radius;
- otherwise steers by lead prediction. It aims for the point the target will
  reach in the time the interceptor needs to cover the current distance, then
  moves 7000 units towards that point and logs its new position, stamped with
  the tick, in the trail log.

The renderer plots only the trail records of the last ten ticks.

The model has eight modules:

- `Entities`: the records and the constants.
- `Geometry`: squared norms and exact square roots.
- `Radar`: the detection test.
- `Guidance`: the hit test, time to impact, predicted point and heading.
- `Sim`: one missile step, one interceptor step and one whole tick, as
  functions of a `World` value.
- `Invariants`: properties of ticks and of sequences of ticks.
- `Trails`: the recent-trail window.
- `Driving`: a `Driver` class. It holds the shared collections, the trail
  log and the clock as fields and updates them in place, as the processes
  do. Each of its methods is proved equal to the matching `Sim` function.

Records are linked by index. An interceptor's `target` is the index of its
missile in `missiles`, which stands for the source's reference to the
missile's dictionary. The source's `hit` flag, which it sets both on
grounding and on interception, becomes a three-valued `Status`: `Flying`,
`Grounded` or `Intercepted`.

`math.sqrt` is a parameter `sqrt: real -> real` of every operation that uses
it. The pure operations work with any such function. Lemmas about distances
and headings require `IsSqrt(sqrt)`, which says it is an exact square root
on the non-negative reals. The hit and detection tests are squared
comparisons. `Radar.DetectionIsDistanceTest` and
`Guidance.HitTestIsDistanceTest` prove them equal to the source's
`sqrt(...) <= r` when `sqrt` is exact.

Detection uses the missile's position before it moves in that tick, and
the interceptor is spawned before the move (airdefensev.py:22-41). The
radar range, hit radius, interceptor speed and trail window are fixed
constants (airdefensev.py:7, 32, 62, 149). No configuration is validated.

## Model

| member | source | states |
|---|---|---|
| Entities.Launch | airdefensev.py:28-34 | a spawned interceptor is active, targets the detecting missile, flies at 7000 and starts at the radar position |
| Entities.SourceMissiles | airdefensev.py:11-14 | the two configured missiles start flying with no interceptor launched and with both velocity components negative |
| Geometry.SqNormNonNegative | airdefensev.py:78-82 | a squared distance is never negative and is zero exactly for the zero vector |
| Geometry.WithinIff | airdefensev.py:62 | for an exact square root, `sqrt(d2) <= r` holds exactly when `d2 <= r*r` |
| Geometry.PositiveIff | airdefensev.py:80-82 | for an exact square root, the distance is positive exactly when the squared distance is |
| Radar.DetectionIsDistanceTest | airdefensev.py:22-26 | the squared detection test is the same as comparing the Euclidean distance to the radar with the 80 000 range |
| Radar.SourceMissilesStartOutOfRange | airdefensev.py:7-14 | neither configured missile is in radar range at tick 0 |
| Guidance.HitTestIsDistanceTest | airdefensev.py:57-62 | the squared hit test is the same as comparing the Euclidean distance to the target with the 500 hit radius |
| Guidance.TimeToImpactCoversRange | airdefensev.py:71 | the time to impact is non-negative, and that many ticks at the interceptor's speed cover exactly the current distance |
| Guidance.HeadingTowardsPrediction | airdefensev.py:74-85 | no move is made exactly when the predicted point is the interceptor's own position; otherwise the move has length `speed`, is parallel to the line to the predicted point and points towards it |
| Guidance.SteerTowards | airdefensev.py:78-85 | normalising the displacement and scaling it by the speed is skipped exactly for a zero displacement, and otherwise gives a vector of that length along it |
| Guidance.UnitScaled | airdefensev.py:84-85 | dividing a vector by its length and multiplying by `s` gives a vector of length `s` with the same direction |
| Sim.Flown | airdefensev.py:21-48 | a missile that is no longer flying is unchanged; a flying one moves by exactly its velocity, keeps its name and velocity, is grounded exactly when it ends at `y <= 0` and is never marked intercepted; its launch flag becomes set exactly when it was set or the missile should launch in this step |
| Sim.MissileTurn | airdefensev.py:20-48 | one missile step replaces only that missile's record by `Flown`, appends exactly one interceptor for it exactly when it is flying, not yet launched and in range before moving, and changes nothing else; a step of a finished missile changes nothing |
| Sim.InterceptorTurn | airdefensev.py:52-100 | an inactive interceptor changes nothing; one whose target is not flying stands down; one within the hit radius marks its target intercepted and stands down without moving or logging; otherwise it stays active, leaves the missiles alone and, when guidance yields a heading, moves by it and appends exactly one trail record of its new position stamped with the current tick; no other interceptor or missile changes |
| Sim.MissilePass | airdefensev.py:104-105 | the missile steps of a tick keep every existing interceptor in place and add at most as many interceptors as there are missiles still to step |
| Sim.InterceptorPass | airdefensev.py:55-96 | the interceptor steps of a tick keep the trail as a prefix and stamp every new record with the current tick |
| Sim.Step | airdefensev.py:159-162 | a tick advances the clock by exactly one, keeps the missile count, adds at most as many interceptors as there are missiles (one per missile follows from `Invariants.StepKeepsInv`) and only appends current-tick records to the trail |
| Invariants.TargetedGrows | airdefensev.py:35 | appending to the interceptor list keeps every missile that was already targeted |
| Invariants.MissileTurnKeepsSpawnInv | airdefensev.py:26-37 | after a missile step, a missile has its launch flag set exactly when some interceptor targets it |
| Invariants.MissilePassKeepsSpawnInv | airdefensev.py:26-37 | the same correspondence holds after all missile steps of a tick |
| Invariants.InterceptorTurnKeepsSpawnInv | airdefensev.py:52-100 | an interceptor step keeps the correspondence between launch flags and targets |
| Invariants.InterceptorPassKeepsSpawnInv | airdefensev.py:52-100 | all interceptor steps of a tick keep the same correspondence |
| Invariants.InterceptorTurnSettles | airdefensev.py:55-100 | after its step an active interceptor's target is still flying, and no two interceptors share a target |
| Invariants.InterceptorPassSettles | airdefensev.py:55-100 | after the interceptor steps of a tick every interceptor that is still active has a flying target |
| Invariants.InitialInv | airdefensev.py:11-18 | the initial world of fresh missiles, no interceptors and an empty trail satisfies the invariant |
| Invariants.StepKeepsInv | airdefensev.py:20-105 | every tick keeps the invariant: targets are valid and unique (at most one interceptor is ever spawned per missile), launch flags match the targets, active interceptors have flying targets, and every trail record is older than the clock |
| Invariants.MissilePassAt | airdefensev.py:104-105 | after the missile steps from index `k0` on, missile `k` is `Flown` when `k0 <= k` and unchanged otherwise |
| Invariants.InterceptorPassAt | airdefensev.py:62-67 | an interceptor pass changes a missile only by marking a flying missile intercepted |
| Invariants.StepMissile | airdefensev.py:20-67 | after a tick each missile is its `Flown` record, or that record marked intercepted when it is still flying; a missile that grounds in a tick is never recorded as intercepted in it |
| Invariants.StepFreezesHitMissile | airdefensev.py:21 | a missile that is no longer flying is left unchanged by a tick |
| Invariants.InterceptorPassAtInterceptor | airdefensev.py:52-55 | an interceptor pass keeps every interceptor's target and leaves inactive interceptors unchanged |
| Invariants.StepFreezesInactiveInterceptor | airdefensev.py:55-100 | a tick keeps every interceptor's target and leaves an inactive interceptor unchanged |
| Invariants.MissilePassSpawns | airdefensev.py:26-36 | every interceptor a missile pass adds is a fresh launch from the radar targeting a missile that was flying, not yet launched and in range |
| Invariants.StepSpawnsOnDetection | airdefensev.py:26-36 | every interceptor a tick adds targets a missile that was flying, not yet launched and in radar range at the start of the tick |
| Invariants.QuietMissilePass | airdefensev.py:21 | when no missile is flying the missile steps change nothing |
| Invariants.QuietInterceptorPass | airdefensev.py:55 | when no interceptor is active the interceptor steps change nothing |
| Invariants.QuiescentStep | airdefensev.py:159-162 | once no missile flies and no interceptor is active, a tick only advances the clock |
| Invariants.PursuitStep | airdefensev.py:69-96 | with an exact square root, an active interceptor out of hit range whose target flies stays active and leaves the missiles alone; it stays put when the predicted point is its own position, and otherwise moves exactly `speed` towards the predicted point and logs exactly one record of its new position stamped with the current tick |
| Invariants.Logged | airdefensev.py:91-96 | an interceptor step appends at most one trail record and keeps the rest of the log as it was |
| Invariants.InterceptorTurnIsLocal | airdefensev.py:52-100 | an interceptor step depends only on the interceptor, its target and the clock: two worlds that agree on those see the same change to the interceptor and its target and the same logged records |
| Invariants.MissileInterceptorCommute | airdefensev.py:20-100 | a missile step and the step of an interceptor chasing another missile give the same world in either order |
| Invariants.InterceptorTurnsCommute | airdefensev.py:52-100 | two interceptors chasing different missiles end with the same missiles and interceptors in either order; each order logs both steps' records in that order |
| Trails.Recent | airdefensev.py:149 | the recent trail holds exactly the records less than ten ticks old and is no longer than the trail |
| Trails.RecentAppend | airdefensev.py:149 | filtering a concatenation is concatenating the filtered parts, so the window keeps the log's order |
| Trails.RecentKeepsAllRecent | airdefensev.py:149 | a log whose records are all recent is kept whole |
| Trails.RecentIdempotent | airdefensev.py:149 | filtering the window again changes nothing |
| Trails.RecentAfterAppend | airdefensev.py:149 | appended records that are still recent all appear, in order, at the end of the window; this covers the previous tick's records, the newest a frame sees |
| Driving.Driver.constructor | airdefensev.py:11-18 | the driver starts at tick 0 with the given fresh missiles, no interceptors and an empty trail, and satisfies the invariant |
| Driving.Driver.MissileStep | airdefensev.py:20-48 | the in-place missile step leaves the state equal to `Sim.MissileTurn` of the old state |
| Driving.Driver.InterceptorStep | airdefensev.py:52-100 | the in-place interceptor step leaves the state equal to `Sim.InterceptorTurn` of the old state |
| Driving.Driver.Pursue | airdefensev.py:69-96 | the in-place pursuit branch leaves the state equal to `Sim.InterceptorTurn` of the old state |
| Driving.Driver.MissilePhase | airdefensev.py:104-105 | the loop over the missiles leaves the state equal to `Sim.MissilePass` from index 0 |
| Driving.Driver.InterceptorPhase | airdefensev.py:52-100 | the loop over the interceptors, including ones spawned in this tick, leaves the state equal to `Sim.InterceptorPass` from index 0 |
| Driving.Driver.Tick | airdefensev.py:159-162 | a tick leaves the state equal to `Sim.Step` of the old state and keeps the invariant |

## Left out

- Rendering (airdefensev.py:107-165) is not modelled. This covers the
  figure, circles, labels, legend, colours (lines 47, 64, and the trail
  records' constant colour at line 94) and the animation
  loop. The window that rendering reads is modelled as `Trails.Recent`.
- Console output (lines 27, 45, 63) is not modelled.
- The `distances` log (lines 18, 23) is written and never read, so it is
  not modelled.
- The unused `target_speed` (line 70) is not modelled.
- `math.sqrt` and floating-point rounding: positions, distances and
  headings are exact reals. The square root is a parameter, and geometric
  facts are proved only for an exact square root.
- This also means that scenario outcomes which depend on rounding are not
  proved. An example is which tick a given missile is intercepted in.
- simpy's order inside a tick differs from the model's. In every tick,
  simpy runs each interceptor after its own missile, but not necessarily
  right after it, and not necessarily in creation order. A new interceptor's
  first step runs straight after the missile step that spawned it, so it
  runs ahead of every older interceptor whose own missile comes later in
  the tick. The exception is tick 0, where it runs after every missile's
  first step. The model runs all missile steps, then all interceptor steps
  in creation order. Two lemmas cover the pairs of steps whose order
  differs:
  - `Invariants.MissileInterceptorCommute`: a missile step and the step of
    an interceptor chasing another missile give the same world in either
    order.
  - `Invariants.InterceptorTurnsCommute`: two interceptors with different
    targets end with the same missiles and interceptors in either order.
    Only the order of their trail records differs.

  Targets are unique (`Invariants.StepKeepsInv`), so every pair of steps
  that simpy and the model order differently is of one of these two kinds.
  The model does not prove that chaining these swaps makes whole ticks
  equal. That argument leaves one difference: the order of trail records
  logged in the same tick.
- The driving loop's frame budget (line 164) and simpy's `EmptySchedule`
  handling (lines 159-162) are not modelled. `Tick` is always allowed, and
  `Invariants.QuiescentStep` shows it is a no-op apart from the clock once
  everything has finished.
