/** The entities of the simulation and the constants the source hard-codes. */
module Entities {

  datatype Option<T> = None | Some(value: T)

  /** Radar position and detection radius (airdefensev.py:7-8). */
  const RadarRange: int := 80000
  const RadarX: int := 0
  const RadarY: int := 0

  /** Hit radius and interceptor speed, hard-coded in the source (airdefensev.py:32, 62). */
  const HitRadius: int := 500
  const InterceptorSpeed: int := 7000

  /** Width of the recent-trail window, in ticks (airdefensev.py:149). */
  const TrailWindow: int := 10

  /**
   * The shared `hit` flag together with the colour it sets: a missile that is
   * not hit is Flying; 'red' marks one that reached the ground, 'black' one
   * that an interceptor destroyed.
   */
  datatype Status = Flying | Grounded | Intercepted

  /** A missile record: integer position and speed, status, and the `interceptor_launched` flag. */
  datatype Missile = Missile(name: string, x: int, y: int, vx: int, vy: int, status: Status, launched: bool)

  /** An interceptor record; `target` indexes the driver's missile collection. */
  datatype Interceptor = Interceptor(x: real, y: real, target: nat, speed: int, active: bool)

  /** One entry of the interceptor trail log: position after a move and the tick of the move. */
  datatype TrailPoint = TrailPoint(x: real, y: real, time: int)

  /** A missile as the configuration creates it: not hit, no interceptor launched yet. */
  predicate Fresh(m: Missile) {
    m.status == Flying && !m.launched
  }

  /** The interceptor record a detection creates for missile `k`. */
  function Launch(k: nat): (i: Interceptor)
    ensures i.active && i.target == k && i.speed == InterceptorSpeed
    ensures i.x == RadarX as real && i.y == RadarY as real
  {
    Interceptor(RadarX as real, RadarY as real, k, InterceptorSpeed, true)
  }

  /** The two missiles the source configures. */
  function SourceMissiles(): (r: seq<Missile>)
    ensures |r| == 2
    ensures forall k :: 0 <= k < |r| ==> Fresh(r[k])
    ensures forall k :: 0 <= k < |r| ==> r[k].vx < 0 && r[k].vy < 0
  {
    [ Missile("Fattah-1", 200000, 250000, -5100, -5100, Flying, false),
      Missile("Rezvan", 210000, 240000, -4400, -4300, Flying, false) ]
  }
}
