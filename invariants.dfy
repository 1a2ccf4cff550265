/**
 * What one tick preserves: at most one interceptor per missile, exactly for
 * the missiles that launched one; no active interceptor chasing a missile
 * that is already hit; hit missiles and inactive interceptors frozen; the
 * trail log append-only and stamped in the past.
 */
module Invariants {
  import opened Entities
  import opened Geometry
  import opened Guidance
  import opened Sim

  /** Some interceptor targets missile `k`. */
  predicate Targeted(ics: seq<Interceptor>, k: nat) {
    exists j :: 0 <= j < |ics| && ics[j].target == k
  }

  /** No two interceptors share a target. */
  predicate Unique(ics: seq<Interceptor>) {
    forall a, b :: 0 <= a < b < |ics| ==> ics[a].target != ics[b].target
  }

  /** The single-spawn invariant: a missile has launched exactly when one interceptor targets it. */
  predicate SpawnInv(w: World) {
    Unique(w.interceptors) &&
    forall k :: 0 <= k < |w.missiles| ==> (w.missiles[k].launched <==> Targeted(w.interceptors, k))
  }

  /** The first `n` interceptors that are active chase missiles that still fly. */
  predicate Settled(w: World, n: nat) {
    forall j :: 0 <= j < n && j < |w.interceptors| && w.interceptors[j].active ==>
      w.interceptors[j].target < |w.missiles| && w.missiles[w.interceptors[j].target].status == Flying
  }

  /** Every trail record was made before the current tick. */
  predicate TrailInPast(w: World) {
    forall n :: 0 <= n < |w.trail| ==> w.trail[n].time < w.now
  }

  /** The state between two ticks. */
  predicate Inv(w: World) {
    WellFormed(w) && SpawnInv(w) && Settled(w, |w.interceptors|) && TrailInPast(w)
  }

  /** The state the configuration starts from satisfies the invariant. */
  lemma InitialInv(ms: seq<Missile>)
    requires forall k :: 0 <= k < |ms| ==> Fresh(ms[k])
    ensures Inv(World(ms, [], [], 0))
  {
  }

  /** Appending interceptors keeps every missile that was targeted targeted. */
  lemma TargetedGrows(a: seq<Interceptor>, b: seq<Interceptor>, k: nat)
    requires a <= b
    ensures Targeted(a, k) ==> Targeted(b, k)
  {
    if Targeted(a, k) {
      var j :| 0 <= j < |a| && a[j].target == k;
      assert b[j] == a[j];
    }
  }

  /** A missile step keeps the single-spawn invariant. */
  lemma MissileTurnKeepsSpawnInv(w: World, k: nat)
    requires k < |w.missiles| && SpawnInv(w)
    ensures SpawnInv(MissileTurn(w, k))
  {
    var r := MissileTurn(w, k);
    var m := w.missiles[k];
    if ShouldLaunch(m) {
      assert !Targeted(w.interceptors, k);
      var n := |w.interceptors|;
      assert r.interceptors[n].target == k;
      forall k' | 0 <= k' < |r.missiles|
        ensures r.missiles[k'].launched <==> Targeted(r.interceptors, k')
      {
        if k' == k {
          assert Targeted(r.interceptors, k);
        } else if Targeted(r.interceptors, k') {
          var j :| 0 <= j < |r.interceptors| && r.interceptors[j].target == k';
          assert j < n;
          assert Targeted(w.interceptors, k');
        } else {
          TargetedGrows(w.interceptors, r.interceptors, k');
        }
      }
    }
  }

  /** The missile pass keeps the single-spawn invariant. */
  lemma {:induction false} MissilePassKeepsSpawnInv(w: World, k: nat)
    requires k <= |w.missiles| && SpawnInv(w)
    ensures SpawnInv(MissilePass(w, k))
    decreases |w.missiles| - k
  {
    if k < |w.missiles| {
      MissileTurnKeepsSpawnInv(w, k);
      MissilePassKeepsSpawnInv(MissileTurn(w, k), k + 1);
    }
  }

  /** An interceptor step keeps the single-spawn invariant: targets and launch flags do not change. */
  lemma InterceptorTurnKeepsSpawnInv(w: World, j: nat, sqrt: real -> real)
    requires WellFormed(w) && j < |w.interceptors| && SpawnInv(w)
    ensures SpawnInv(InterceptorTurn(w, j, sqrt))
  {
    var r := InterceptorTurn(w, j, sqrt);
    assert forall n :: 0 <= n < |w.interceptors| ==> r.interceptors[n].target == w.interceptors[n].target;
    assert forall k :: 0 <= k < |w.missiles| ==> r.missiles[k].launched == w.missiles[k].launched;
    forall k | 0 <= k < |r.missiles|
      ensures Targeted(r.interceptors, k) <==> Targeted(w.interceptors, k)
    {
      if Targeted(r.interceptors, k) {
        var n :| 0 <= n < |r.interceptors| && r.interceptors[n].target == k;
        assert w.interceptors[n].target == k;
      }
      if Targeted(w.interceptors, k) {
        var n :| 0 <= n < |w.interceptors| && w.interceptors[n].target == k;
        assert r.interceptors[n].target == k;
      }
    }
  }

  /** The interceptor pass keeps the single-spawn invariant. */
  lemma {:induction false} InterceptorPassKeepsSpawnInv(w: World, j: nat, sqrt: real -> real)
    requires WellFormed(w) && j <= |w.interceptors| && SpawnInv(w)
    ensures SpawnInv(InterceptorPass(w, j, sqrt))
    decreases |w.interceptors| - j
  {
    if j < |w.interceptors| {
      InterceptorTurnKeepsSpawnInv(w, j, sqrt);
      InterceptorPassKeepsSpawnInv(InterceptorTurn(w, j, sqrt), j + 1, sqrt);
    }
  }

  /**
   * After interceptor `j` steps, it and every interceptor before it is
   * either inactive or chasing a missile that flies. Uniqueness of targets
   * makes sure a hit by `j` strands no earlier interceptor.
   */
  lemma InterceptorTurnSettles(w: World, j: nat, sqrt: real -> real)
    requires WellFormed(w) && j < |w.interceptors| && Unique(w.interceptors) && Settled(w, j)
    ensures Settled(InterceptorTurn(w, j, sqrt), j + 1)
    ensures Unique(InterceptorTurn(w, j, sqrt).interceptors)
  {
    var r := InterceptorTurn(w, j, sqrt);
    assert forall n :: 0 <= n < |w.interceptors| ==> r.interceptors[n].target == w.interceptors[n].target;
    forall n | 0 <= n < j + 1 && r.interceptors[n].active
      ensures r.missiles[r.interceptors[n].target].status == Flying
    {
      if n < j {
        assert w.interceptors[n].target != w.interceptors[j].target;
      }
    }
  }

  /** The interceptor pass leaves every active interceptor chasing a flying missile. */
  lemma {:induction false} InterceptorPassSettles(w: World, j: nat, sqrt: real -> real)
    requires WellFormed(w) && j <= |w.interceptors| && Unique(w.interceptors) && Settled(w, j)
    ensures Settled(InterceptorPass(w, j, sqrt), |w.interceptors|)
    decreases |w.interceptors| - j
  {
    if j < |w.interceptors| {
      InterceptorTurnSettles(w, j, sqrt);
      InterceptorPassSettles(InterceptorTurn(w, j, sqrt), j + 1, sqrt);
    }
  }

  /**
   * A tick keeps the invariant: in particular at most one interceptor is
   * ever spawned per missile, and an interceptor whose target was grounded
   * or destroyed is inactive once the tick ends.
   */
  lemma StepKeepsInv(w: World, sqrt: real -> real)
    requires Inv(w)
    ensures Inv(Step(w, sqrt))
  {
    var w1 := MissilePass(w, 0);
    MissilePassKeepsSpawnInv(w, 0);
    InterceptorPassKeepsSpawnInv(w1, 0, sqrt);
    InterceptorPassSettles(w1, 0, sqrt);
    var r := Step(w, sqrt);
    assert r.trail == InterceptorPass(w1, 0, sqrt).trail;
    forall n | 0 <= n < |r.trail|
      ensures r.trail[n].time < r.now
    {
      if n < |w.trail| {
        assert r.trail[n] == w.trail[n];
      }
    }
  }

  /** The own record of missile `k` in the missile pass from `k0`: `Flown` when k0 <= k, untouched before. */
  lemma {:induction false} MissilePassAt(w: World, k0: nat, k: nat)
    requires k0 <= |w.missiles| && k < |w.missiles|
    ensures MissilePass(w, k0).missiles[k] == if k0 <= k then Flown(w.missiles[k]) else w.missiles[k]
    decreases |w.missiles| - k0
  {
    if k0 < |w.missiles| {
      MissilePassAt(MissileTurn(w, k0), k0 + 1, k);
    }
  }

  /** Missile `k`'s record across an interceptor pass: untouched, or destroyed while it was flying. */
  lemma {:induction false} InterceptorPassAt(w: World, j: nat, sqrt: real -> real, k: nat)
    requires WellFormed(w) && j <= |w.interceptors| && k < |w.missiles|
    ensures var m := InterceptorPass(w, j, sqrt).missiles[k];
      m == w.missiles[k] || (w.missiles[k].status == Flying && m == w.missiles[k].(status := Intercepted))
    decreases |w.interceptors| - j
  {
    if j < |w.interceptors| {
      InterceptorPassAt(InterceptorTurn(w, j, sqrt), j + 1, sqrt, k);
    }
  }

  /**
   * Over one tick, missile `k` ends as `Flown` made it, or, when that left
   * it flying, destroyed at exactly that position. A missile that reaches
   * the ground on a tick is recorded as grounded, never as destroyed.
   */
  lemma StepMissile(w: World, sqrt: real -> real, k: nat)
    requires WellFormed(w) && k < |w.missiles|
    ensures var m, f := Step(w, sqrt).missiles[k], Flown(w.missiles[k]);
      m == f || (f.status == Flying && m == f.(status := Intercepted))
  {
    MissilePassAt(w, 0, k);
    InterceptorPassAt(MissilePass(w, 0), 0, sqrt, k);
  }

  /** A missile that is hit (grounded or destroyed) never changes again. */
  lemma StepFreezesHitMissile(w: World, sqrt: real -> real, k: nat)
    requires WellFormed(w) && k < |w.missiles| && w.missiles[k].status != Flying
    ensures Step(w, sqrt).missiles[k] == w.missiles[k]
  {
    StepMissile(w, sqrt, k);
  }

  /** Interceptor `n` across an interceptor pass from `j`: its target is kept, and an inactive one is untouched. */
  lemma {:induction false} InterceptorPassAtInterceptor(w: World, j: nat, sqrt: real -> real, n: nat)
    requires WellFormed(w) && j <= |w.interceptors| && n < |w.interceptors|
    ensures !w.interceptors[n].active ==> InterceptorPass(w, j, sqrt).interceptors[n] == w.interceptors[n]
    ensures InterceptorPass(w, j, sqrt).interceptors[n].target == w.interceptors[n].target
    decreases |w.interceptors| - j
  {
    if j < |w.interceptors| {
      InterceptorPassAtInterceptor(InterceptorTurn(w, j, sqrt), j + 1, sqrt, n);
    }
  }

  /** An inactive interceptor never moves and never becomes active again; no interceptor changes target. */
  lemma StepFreezesInactiveInterceptor(w: World, sqrt: real -> real, n: nat)
    requires WellFormed(w) && n < |w.interceptors|
    ensures Step(w, sqrt).interceptors[n].target == w.interceptors[n].target
    ensures !w.interceptors[n].active ==> Step(w, sqrt).interceptors[n] == w.interceptors[n]
  {
    var w1 := MissilePass(w, 0);
    assert w1.interceptors[n] == w.interceptors[n];
    InterceptorPassAtInterceptor(w1, 0, sqrt, n);
  }

  /**
   * An interceptor a missile pass from `k0` appends is a fresh launch record
   * for a missile at or after `k0` that should launch one in the state the
   * pass started from.
   */
  lemma {:induction false} MissilePassSpawns(w: World, k0: nat, n: nat)
    requires k0 <= |w.missiles| && |w.interceptors| <= n < |MissilePass(w, k0).interceptors|
    ensures var i := MissilePass(w, k0).interceptors[n];
      i == Launch(i.target) && k0 <= i.target < |w.missiles| && ShouldLaunch(w.missiles[i.target])
    decreases |w.missiles| - k0
  {
    if k0 < |w.missiles| {
      var w1 := MissileTurn(w, k0);
      var r := MissilePass(w, k0);
      assert r == MissilePass(w1, k0 + 1);
      if n < |w1.interceptors| {
        assert r.interceptors[n] == w1.interceptors[n];
      } else {
        MissilePassSpawns(w1, k0 + 1, n);
        assert w1.missiles[r.interceptors[n].target] == w.missiles[r.interceptors[n].target];
      }
    }
  }

  /** Every interceptor a tick spawns was launched at a missile that was detected at its pre-move position. */
  lemma StepSpawnsOnDetection(w: World, sqrt: real -> real, n: nat)
    requires WellFormed(w) && |w.interceptors| <= n
    ensures n < |Step(w, sqrt).interceptors| ==>
      var t := Step(w, sqrt).interceptors[n].target;
      t < |w.missiles| && ShouldLaunch(w.missiles[t])
  {
    var w1 := MissilePass(w, 0);
    if n < |Step(w, sqrt).interceptors| {
      assert Step(w, sqrt).interceptors == InterceptorPass(w1, 0, sqrt).interceptors;
      MissilePassSpawns(w, 0, n);
      InterceptorPassAtInterceptor(w1, 0, sqrt, n);
    }
  }

  /** A missile pass over missiles that are all hit changes nothing. */
  lemma {:induction false} QuietMissilePass(w: World, k: nat)
    requires k <= |w.missiles|
    requires forall k' :: 0 <= k' < |w.missiles| ==> w.missiles[k'].status != Flying
    ensures MissilePass(w, k) == w
    decreases |w.missiles| - k
  {
    if k < |w.missiles| {
      QuietMissilePass(MissileTurn(w, k), k + 1);
    }
  }

  /** An interceptor pass over interceptors that are all inactive changes nothing. */
  lemma {:induction false} QuietInterceptorPass(w: World, j: nat, sqrt: real -> real)
    requires WellFormed(w) && j <= |w.interceptors|
    requires forall n :: 0 <= n < |w.interceptors| ==> !w.interceptors[n].active
    ensures InterceptorPass(w, j, sqrt) == w
    decreases |w.interceptors| - j
  {
    if j < |w.interceptors| {
      QuietInterceptorPass(InterceptorTurn(w, j, sqrt), j + 1, sqrt);
    }
  }

  /** Once no missile flies and no interceptor is active, a tick only advances the clock. */
  lemma QuiescentStep(w: World, sqrt: real -> real)
    requires WellFormed(w)
    requires forall k :: 0 <= k < |w.missiles| ==> w.missiles[k].status != Flying
    requires forall n :: 0 <= n < |w.interceptors| ==> !w.interceptors[n].active
    ensures Step(w, sqrt) == w.(now := w.now + 1)
  {
    QuietMissilePass(w, 0);
    QuietInterceptorPass(w, 0, sqrt);
  }

  /**
   * An active interceptor out of hit range whose target flies (airdefensev.py:69-96):
   * with an exact square root it stays active and leaves every missile
   * alone; it keeps its place and the trail when the predicted point is its
   * own position, and otherwise moves exactly `speed` units along the line
   * to the predicted point and logs exactly one record of its new position
   * stamped with the current tick.
   */
  lemma PursuitStep(w: World, j: nat, sqrt: real -> real)
    requires IsSqrt(sqrt) && WellFormed(w) && j < |w.interceptors|
    requires var i := w.interceptors[j];
      i.active && w.missiles[i.target].status == Flying && !WithinHitRadius(i, w.missiles[i.target])
    ensures var i := w.interceptors[j]; var t := w.missiles[i.target];
      var r := InterceptorTurn(w, j, sqrt); var moved := r.interceptors[j]; var p := Predicted(i, t, sqrt);
      moved.active && r.missiles == w.missiles &&
      (p == (i.x, i.y) ==> r == w) &&
      (p != (i.x, i.y) ==>
        AlongAtSpeed(moved.x - i.x, moved.y - i.y, p.0 - i.x, p.1 - i.y, i.speed as real) &&
        r.trail == w.trail + [TrailPoint(moved.x, moved.y, w.now)])
  {
    var i := w.interceptors[j];
    var t := w.missiles[i.target];
    HeadingTowardsPrediction(i, t, sqrt);
    match Heading(i, t, sqrt)
    case None =>
    case Some(v) =>
      var moved := InterceptorTurn(w, j, sqrt).interceptors[j];
      assert moved.x - i.x == v.0 && moved.y - i.y == v.1;
  }

  /** The trail records interceptor `j`'s step appends: none, or one for its new position. */
  function Logged(w: World, j: nat, sqrt: real -> real): (r: seq<TrailPoint>)
    requires WellFormed(w) && j < |w.interceptors|
    ensures |r| <= 1
    ensures InterceptorTurn(w, j, sqrt).trail == w.trail + r
  {
    InterceptorTurn(w, j, sqrt).trail[|w.trail|..]
  }

  /**
   * An interceptor step depends only on the interceptor itself, its target
   * and the clock: in two worlds that agree on those, it makes the same
   * change to the interceptor and the target and logs the same records.
   */
  lemma InterceptorTurnIsLocal(w: World, v: World, j: nat, sqrt: real -> real)
    requires WellFormed(w) && WellFormed(v) && j < |w.interceptors| && j < |v.interceptors|
    requires w.interceptors[j] == v.interceptors[j] && w.now == v.now
    requires w.missiles[w.interceptors[j].target] == v.missiles[w.interceptors[j].target]
    ensures var t := w.interceptors[j].target;
      var rw, rv := InterceptorTurn(w, j, sqrt), InterceptorTurn(v, j, sqrt);
      rw.interceptors[j] == rv.interceptors[j] && rw.missiles[t] == rv.missiles[t] &&
      Logged(w, j, sqrt) == Logged(v, j, sqrt)
  {
  }

  /**
   * A missile step and the step of an interceptor chasing another missile
   * can run in either order with the same result, so it does not matter
   * where in the tick an interceptor runs relative to the missiles it does
   * not chase.
   */
  lemma MissileInterceptorCommute(w: World, k: nat, j: nat, sqrt: real -> real)
    requires WellFormed(w) && k < |w.missiles| && j < |w.interceptors| && w.interceptors[j].target != k
    ensures InterceptorTurn(MissileTurn(w, k), j, sqrt) == MissileTurn(InterceptorTurn(w, j, sqrt), k)
  {
    var a := MissileTurn(w, k);
    var c := InterceptorTurn(w, j, sqrt);
    var b := InterceptorTurn(a, j, sqrt);
    var d := MissileTurn(c, k);
    var t := w.interceptors[j].target;
    InterceptorTurnIsLocal(w, a, j, sqrt);
    assert b.missiles == d.missiles by {
      forall n | 0 <= n < |b.missiles|
        ensures b.missiles[n] == d.missiles[n]
      {
        if n != t && n != k {
          assert b.missiles[n] == a.missiles[n];
        }
      }
    }
    assert b.interceptors == d.interceptors by {
      forall n | 0 <= n < |b.interceptors|
        ensures b.interceptors[n] == d.interceptors[n]
      {
        if n != j {
          assert b.interceptors[n] == a.interceptors[n];
        }
      }
    }
    assert b.trail == d.trail by {
      assert b.trail == a.trail + Logged(a, j, sqrt);
    }
  }

  /**
   * Two interceptors chasing different missiles can step in either order:
   * the missiles and interceptors end the same, and each order logs the
   * records of both steps, in that order.
   */
  lemma InterceptorTurnsCommute(w: World, j1: nat, j2: nat, sqrt: real -> real)
    requires WellFormed(w) && j1 < |w.interceptors| && j2 < |w.interceptors|
    requires w.interceptors[j1].target != w.interceptors[j2].target
    ensures var r1 := InterceptorTurn(InterceptorTurn(w, j1, sqrt), j2, sqrt);
      var r2 := InterceptorTurn(InterceptorTurn(w, j2, sqrt), j1, sqrt);
      r1.missiles == r2.missiles && r1.interceptors == r2.interceptors && r1.now == r2.now &&
      r1.trail == w.trail + Logged(w, j1, sqrt) + Logged(w, j2, sqrt) &&
      r2.trail == w.trail + Logged(w, j2, sqrt) + Logged(w, j1, sqrt)
  {
    var c1 := InterceptorTurn(w, j1, sqrt);
    var c2 := InterceptorTurn(w, j2, sqrt);
    var r1 := InterceptorTurn(c1, j2, sqrt);
    var r2 := InterceptorTurn(c2, j1, sqrt);
    var t1, t2 := w.interceptors[j1].target, w.interceptors[j2].target;
    InterceptorTurnIsLocal(w, c1, j2, sqrt);
    InterceptorTurnIsLocal(w, c2, j1, sqrt);
    assert r1.missiles == r2.missiles by {
      forall n | 0 <= n < |r1.missiles|
        ensures r1.missiles[n] == r2.missiles[n]
      {
        if n != t1 && n != t2 {
          assert r1.missiles[n] == c1.missiles[n];
          assert r2.missiles[n] == c2.missiles[n];
        }
      }
    }
    assert r1.interceptors == r2.interceptors by {
      forall n | 0 <= n < |r1.interceptors|
        ensures r1.interceptors[n] == r2.interceptors[n]
      {
        if n != j1 && n != j2 {
          assert r1.interceptors[n] == c1.interceptors[n];
          assert r2.interceptors[n] == c2.interceptors[n];
        }
      }
    }
    assert r1.trail == c1.trail + Logged(c1, j2, sqrt);
    assert r2.trail == c2.trail + Logged(c2, j1, sqrt);
  }
}
