/**
 * The simulation driver: the shared missile and interceptor collections,
 * the interceptor trail log and the clock, updated in place one step at a
 * time as the source's processes do (airdefensev.py:16-17, 20-105, 160).
 */
module Driving {
  import opened Entities
  import opened Geometry
  import opened Guidance
  import opened Radar
  import opened Sim
  import opened Invariants

  class Driver {
    var missiles: seq<Missile>
    var interceptors: seq<Interceptor>
    var trail: seq<TrailPoint>
    var now: nat

    /** The driver's state as a value. */
    ghost function State(): World
      reads this
    {
      World(missiles, interceptors, trail, now)
    }

    /** The invariant that holds between ticks. */
    ghost predicate Valid()
      reads this
    {
      Inv(State())
    }

    /** Start at tick 0 with the configured missiles and no interceptors (airdefensev.py:11-18, 103-105). */
    constructor (initial: seq<Missile>)
      requires forall k :: 0 <= k < |initial| ==> Fresh(initial[k])
      ensures Valid()
      ensures missiles == initial && interceptors == [] && trail == [] && now == 0
    {
      missiles := initial;
      interceptors := [];
      trail := [];
      now := 0;
      new;
      InitialInv(initial);
    }

    /**
     * One pass of the missile loop for missile `k` (airdefensev.py:21-48):
     * detect at the pre-move position, spawn at most one interceptor, move,
     * and check for reaching the ground.
     */
    method MissileStep(k: nat)
      requires k < |missiles|
      modifies this
      ensures State() == MissileTurn(old(State()), k)
    {
      var m := missiles[k];
      if m.status == Flying {
        if InRadarRange(m.x, m.y) && !m.launched {
          interceptors := interceptors + [Launch(k)];
          m := m.(launched := true);
        }
        m := m.(x := m.x + m.vx, y := m.y + m.vy);
        if m.y <= 0 {
          m := m.(status := Grounded);
        }
        missiles := missiles[k := m];
      }
    }

    /**
     * One pass of the interceptor loop for interceptor `j`
     * (airdefensev.py:55-100), with `sqrt` standing for `math.sqrt`.
     */
    method InterceptorStep(j: nat, sqrt: real -> real)
      requires WellFormed(State()) && j < |interceptors|
      modifies this
      ensures State() == InterceptorTurn(old(State()), j, sqrt)
    {
      var i := interceptors[j];
      if i.active {
        var t := missiles[i.target];
        if t.status != Flying {
          interceptors := interceptors[j := i.(active := false)];
        } else {
          var dx := t.x as real - i.x;
          var dy := t.y as real - i.y;
          if SqNorm(dx, dy) <= (HitRadius * HitRadius) as real {
            missiles := missiles[i.target := t.(status := Intercepted)];
            interceptors := interceptors[j := i.(active := false)];
          } else {
            Pursue(j, sqrt);
          }
        }
      }
    }

    /**
     * The pursuit branch of the interceptor loop (airdefensev.py:69-96):
     * predict where the target will be and move `speed` units towards it,
     * logging the new position.
     */
    method Pursue(j: nat, sqrt: real -> real)
      requires WellFormed(State()) && j < |interceptors|
      requires interceptors[j].active && missiles[interceptors[j].target].status == Flying
      requires !WithinHitRadius(interceptors[j], missiles[interceptors[j].target])
      modifies this
      ensures State() == InterceptorTurn(old(State()), j, sqrt)
    {
      var i := interceptors[j];
      var t := missiles[i.target];
      var predicted := Predicted(i, t, sqrt);
      var dxPred := predicted.0 - i.x;
      var dyPred := predicted.1 - i.y;
      var distPred := sqrt(SqNorm(dxPred, dyPred));
      if distPred > 0.0 {
        var vx := dxPred / distPred * i.speed as real;
        var vy := dyPred / distPred * i.speed as real;
        var moved := i.(x := i.x + vx, y := i.y + vy);
        interceptors := interceptors[j := moved];
        trail := trail + [TrailPoint(moved.x, moved.y, now)];
      }
    }

    /** The missile processes' steps of one tick, in missile order (airdefensev.py:104-105). */
    method MissilePhase()
      requires WellFormed(State())
      modifies this
      ensures State() == MissilePass(old(State()), 0)
    {
      ghost var start := State();
      var k := 0;
      while k < |missiles|
        invariant k <= |missiles| == |start.missiles|
        invariant WellFormed(State())
        invariant MissilePass(State(), k) == MissilePass(start, 0)
      {
        MissileStep(k);
        k := k + 1;
      }
    }

    /** The interceptor processes' steps of one tick, in spawn order (airdefensev.py:31-34). */
    method InterceptorPhase(sqrt: real -> real)
      requires WellFormed(State())
      modifies this
      ensures State() == InterceptorPass(old(State()), 0, sqrt)
    {
      ghost var start := State();
      var j := 0;
      while j < |interceptors|
        invariant j <= |interceptors| == |start.interceptors|
        invariant WellFormed(State())
        invariant InterceptorPass(State(), j, sqrt) == InterceptorPass(start, 0, sqrt)
      {
        InterceptorStep(j, sqrt);
        j := j + 1;
      }
    }

    /**
     * Advance the simulation by one tick: every missile steps, then every
     * interceptor, including those spawned in this tick, then the clock
     * moves on (airdefensev.py:160).
     */
    method Tick(sqrt: real -> real)
      requires Valid()
      modifies this
      ensures Valid()
      ensures State() == Step(old(State()), sqrt)
    {
      ghost var start := State();
      MissilePhase();
      InterceptorPhase(sqrt);
      now := now + 1;
      StepKeepsInv(start, sqrt);
    }
  }
}
