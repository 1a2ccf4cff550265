/**
 * One tick of the simulation as a function of the world state: every
 * missile step (airdefensev.py:20-50) in order, then every interceptor step
 * (airdefensev.py:52-100) in order, then the clock advances.
 */
module Sim {
  import opened Entities
  import opened Radar
  import opened Guidance

  /** Everything the steps read and write: the two shared collections, the trail log and the clock. */
  datatype World = World(missiles: seq<Missile>, interceptors: seq<Interceptor>, trail: seq<TrailPoint>, now: nat)

  /** Every interceptor names an existing missile and flies at the configured speed. */
  predicate WellFormed(w: World) {
    forall j :: 0 <= j < |w.interceptors| ==>
      w.interceptors[j].target < |w.missiles| && w.interceptors[j].speed == InterceptorSpeed
  }

  /** A missile step spawns an interceptor when the missile flies, has none yet, and is in range before it moves. */
  predicate ShouldLaunch(m: Missile) {
    m.status == Flying && !m.launched && InRadarRange(m.x, m.y)
  }

  /**
   * The missile's own record after one step (airdefensev.py:21-48): a
   * missile that is hit does not move; a flying one records a launch if it
   * was detected, moves by its speed, and is grounded when it ends at or
   * below y = 0.
   */
  function Flown(m: Missile): (r: Missile)
    ensures m.status != Flying ==> r == m
    ensures m.status == Flying ==>
      r.x == m.x + m.vx && r.y == m.y + m.vy &&
      r.name == m.name && r.vx == m.vx && r.vy == m.vy &&
      r.status != Intercepted && (r.status == Grounded <==> r.y <= 0)
    ensures r.launched <==> m.launched || ShouldLaunch(m)
  {
    if m.status != Flying then m
    else
      var moved := m.(x := m.x + m.vx, y := m.y + m.vy, launched := m.launched || InRadarRange(m.x, m.y));
      if moved.y <= 0 then moved.(status := Grounded) else moved
  }

  /**
   * One step of missile `k`: its record becomes `Flown`, and exactly one
   * interceptor record for it is appended when it should launch one.
   */
  function MissileTurn(w: World, k: nat): (r: World)
    requires k < |w.missiles|
    ensures r.missiles == w.missiles[k := Flown(w.missiles[k])]
    ensures r.interceptors == w.interceptors + (if ShouldLaunch(w.missiles[k]) then [Launch(k)] else [])
    ensures r.trail == w.trail && r.now == w.now
    ensures w.missiles[k].status != Flying ==> r == w
    ensures WellFormed(w) ==> WellFormed(r)
  {
    var m := w.missiles[k];
    if m.status != Flying then w
    else
      w.(missiles := w.missiles[k := Flown(m)],
         interceptors := if ShouldLaunch(m) then w.interceptors + [Launch(k)] else w.interceptors)
  }

  /**
   * One step of interceptor `j` (airdefensev.py:55-100). An inactive
   * interceptor does nothing. One whose target is already hit stands down.
   * One within the hit radius destroys its target and stands down without
   * moving. Otherwise it stays active and, when guidance yields a heading,
   * moves by it and logs one trail record stamped with the current tick.
   */
  function InterceptorTurn(w: World, j: nat, sqrt: real -> real): (r: World)
    requires WellFormed(w) && j < |w.interceptors|
    ensures WellFormed(r)
    ensures |r.missiles| == |w.missiles| && |r.interceptors| == |w.interceptors| && r.now == w.now
    ensures w.trail <= r.trail && |r.trail| <= |w.trail| + 1
    ensures forall n :: 0 <= n < |w.interceptors| && n != j ==> r.interceptors[n] == w.interceptors[n]
    ensures forall k :: 0 <= k < |w.missiles| && k != w.interceptors[j].target ==> r.missiles[k] == w.missiles[k]
    ensures r.interceptors[j].target == w.interceptors[j].target
    ensures r.interceptors[j].speed == w.interceptors[j].speed
    ensures !w.interceptors[j].active ==> r == w
    ensures r.interceptors[j].active ==> w.interceptors[j].active && r.missiles == w.missiles
    ensures r.interceptors[j].active ==> w.missiles[w.interceptors[j].target].status == Flying
    ensures var i := w.interceptors[j]; var t := w.missiles[i.target];
      i.active && t.status != Flying ==>
        r.interceptors[j] == i.(active := false) && r.missiles == w.missiles && r.trail == w.trail
    ensures var i := w.interceptors[j]; var t := w.missiles[i.target];
      i.active && t.status == Flying && WithinHitRadius(i, t) ==>
        r.interceptors[j] == i.(active := false) && r.trail == w.trail &&
        r.missiles[i.target] == t.(status := Intercepted)
    ensures var i := w.interceptors[j]; var t := w.missiles[i.target];
      i.active && t.status == Flying && !WithinHitRadius(i, t) ==>
        r.interceptors[j].active && r.missiles == w.missiles &&
        match Heading(i, t, sqrt)
        case None => r == w
        case Some(v) =>
          r.interceptors[j] == i.(x := i.x + v.0, y := i.y + v.1) &&
          r.trail == w.trail + [TrailPoint(i.x + v.0, i.y + v.1, w.now)]
  {
    var i := w.interceptors[j];
    var t := w.missiles[i.target];
    if !i.active then w
    else if t.status != Flying then
      w.(interceptors := w.interceptors[j := i.(active := false)])
    else if WithinHitRadius(i, t) then
      w.(missiles := w.missiles[i.target := t.(status := Intercepted)],
         interceptors := w.interceptors[j := i.(active := false)])
    else
      match Heading(i, t, sqrt)
      case None => w
      case Some(v) =>
        var moved := i.(x := i.x + v.0, y := i.y + v.1);
        w.(interceptors := w.interceptors[j := moved],
           trail := w.trail + [TrailPoint(moved.x, moved.y, w.now)])
  }

  /** The missile steps of one tick, from missile `k` on. At most one interceptor is added per missile. */
  function MissilePass(w: World, k: nat): (r: World)
    requires k <= |w.missiles|
    ensures |r.missiles| == |w.missiles| && r.trail == w.trail && r.now == w.now
    ensures w.interceptors <= r.interceptors
    ensures |r.interceptors| <= |w.interceptors| + (|w.missiles| - k)
    ensures WellFormed(w) ==> WellFormed(r)
    decreases |w.missiles| - k
  {
    if k == |w.missiles| then w else MissilePass(MissileTurn(w, k), k + 1)
  }

  /** The interceptor steps of one tick, from interceptor `j` on. The trail only grows, with records of this tick. */
  function InterceptorPass(w: World, j: nat, sqrt: real -> real): (r: World)
    requires WellFormed(w) && j <= |w.interceptors|
    ensures WellFormed(r)
    ensures |r.missiles| == |w.missiles| && |r.interceptors| == |w.interceptors| && r.now == w.now
    ensures w.trail <= r.trail
    ensures forall n :: |w.trail| <= n < |r.trail| ==> r.trail[n].time == w.now
    decreases |w.interceptors| - j
  {
    if j == |w.interceptors| then w else InterceptorPass(InterceptorTurn(w, j, sqrt), j + 1, sqrt)
  }

  /**
   * One tick: all missiles, then all interceptors, including those spawned
   * during this tick, then the clock advances by one.
   */
  function Step(w: World, sqrt: real -> real): (r: World)
    requires WellFormed(w)
    ensures WellFormed(r) && r.now == w.now + 1 && |r.missiles| == |w.missiles|
    ensures |w.interceptors| <= |r.interceptors| <= |w.interceptors| + |w.missiles|
    ensures w.trail <= r.trail
    ensures forall n :: |w.trail| <= n < |r.trail| ==> r.trail[n].time == w.now
  {
    var afterMissiles := MissilePass(w, 0);
    var afterInterceptors := InterceptorPass(afterMissiles, 0, sqrt);
    afterInterceptors.(now := w.now + 1)
  }
}
