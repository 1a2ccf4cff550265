/**
 * Lead-prediction guidance (airdefensev.py:57-88): aim at the point the
 * target will reach after the time the interceptor needs to cover the
 * current distance, and move `speed` units towards it.
 */
module Guidance {
  import opened Entities
  import opened Geometry

  /** Squared distance from the interceptor to its target (airdefensev.py:57-59). */
  function SqRange(i: Interceptor, t: Missile): real {
    SqNorm(t.x as real - i.x, t.y as real - i.y)
  }

  /** The hit test `distance <= 500`, in squared form (airdefensev.py:62). */
  predicate WithinHitRadius(i: Interceptor, t: Missile) {
    SqRange(i, t) <= (HitRadius * HitRadius) as real
  }

  /** The squared hit test is the source's `distance <= 500` with an exact square root. */
  lemma HitTestIsDistanceTest(sqrt: real -> real, i: Interceptor, t: Missile)
    requires IsSqrt(sqrt)
    ensures WithinHitRadius(i, t) <==> sqrt(SqRange(i, t)) <= HitRadius as real
  {
    SqNormNonNegative(t.x as real - i.x, t.y as real - i.y);
    WithinIff(sqrt, SqRange(i, t), HitRadius as real);
  }

  /** `time_to_impact = distance / speed` (airdefensev.py:71). */
  function TimeToImpact(i: Interceptor, t: Missile, sqrt: real -> real): real
    requires i.speed > 0
  {
    sqrt(SqRange(i, t)) / i.speed as real
  }

  /** The target's position `time_to_impact` ticks ahead (airdefensev.py:74-75). */
  function Predicted(i: Interceptor, t: Missile, sqrt: real -> real): (real, real)
    requires i.speed > 0
  {
    var tti := TimeToImpact(i, t, sqrt);
    (t.x as real + t.vx as real * tti, t.y as real + t.vy as real * tti)
  }

  /**
   * The displacement of one move towards a point `(dx, dy)` away
   * (airdefensev.py:78-85): the vector normalised and scaled by `s`; None
   * when its length is not positive.
   */
  function Steer(dx: real, dy: real, s: real, sqrt: real -> real): Option<(real, real)> {
    var dist := sqrt(SqNorm(dx, dy));
    if dist > 0.0 then Some((dx / dist * s, dy / dist * s)) else None
  }

  /** The displacement of one move: steer towards the predicted point. */
  function Heading(i: Interceptor, t: Missile, sqrt: real -> real): Option<(real, real)>
    requires i.speed > 0
  {
    var p := Predicted(i, t, sqrt);
    Steer(p.0 - i.x, p.1 - i.y, i.speed as real, sqrt)
  }

  /** (vx, vy) has length `s` and points the same way as (dx, dy). */
  predicate AlongAtSpeed(vx: real, vy: real, dx: real, dy: real, s: real) {
    SqNorm(vx, vy) == s * s && vx * dy == vy * dx && 0.0 < vx * dx + vy * dy
  }

  /**
   * With an exact square root, `time_to_impact` is non-negative and is the
   * number of ticks the interceptor needs to cover the current distance.
   */
  lemma TimeToImpactCoversRange(i: Interceptor, t: Missile, sqrt: real -> real)
    requires IsSqrt(sqrt) && i.speed > 0
    ensures 0.0 <= TimeToImpact(i, t, sqrt)
    ensures var d := TimeToImpact(i, t, sqrt) * i.speed as real; d * d == SqRange(i, t)
  {
    SqNormNonNegative(t.x as real - i.x, t.y as real - i.y);
    var dist := sqrt(SqRange(i, t));
    assert 0.0 <= dist && dist * dist == SqRange(i, t);
    assert TimeToImpact(i, t, sqrt) * i.speed as real == dist;
  }

  /**
   * With an exact square root, the move is skipped exactly when the
   * predicted point is the interceptor's own position; otherwise the
   * displacement has length `speed` and points at the predicted point
   * (parallel to it, with positive dot product).
   */
  lemma HeadingTowardsPrediction(i: Interceptor, t: Missile, sqrt: real -> real)
    requires IsSqrt(sqrt) && i.speed > 0
    ensures Heading(i, t, sqrt).None? <==> Predicted(i, t, sqrt) == (i.x, i.y)
    ensures Heading(i, t, sqrt).Some? ==>
      var v, p := Heading(i, t, sqrt).value, Predicted(i, t, sqrt);
      AlongAtSpeed(v.0, v.1, p.0 - i.x, p.1 - i.y, i.speed as real)
  {
    var p := Predicted(i, t, sqrt);
    SteerTowards(p.0 - i.x, p.1 - i.y, i.speed as real, sqrt);
  }

  /** With an exact square root, steering is skipped only for a zero displacement, and otherwise moves `s` along it. */
  lemma SteerTowards(dx: real, dy: real, s: real, sqrt: real -> real)
    requires IsSqrt(sqrt) && 0.0 < s
    ensures Steer(dx, dy, s, sqrt).None? <==> dx == 0.0 && dy == 0.0
    ensures Steer(dx, dy, s, sqrt).Some? ==>
      var v := Steer(dx, dy, s, sqrt).value; AlongAtSpeed(v.0, v.1, dx, dy, s)
  {
    SqNormNonNegative(dx, dy);
    var dist := sqrt(SqNorm(dx, dy));
    PositiveIff(sqrt, SqNorm(dx, dy));
    if dist > 0.0 {
      UnitScaled(dx, dy, dist, s);
    }
  }

  /** Normalising (dx, dy) by its length `dist` and scaling by `s` gives a vector of length `s` along (dx, dy). */
  lemma UnitScaled(dx: real, dy: real, dist: real, s: real)
    requires 0.0 < dist && dist * dist == SqNorm(dx, dy) && 0.0 < s
    ensures AlongAtSpeed(dx / dist * s, dy / dist * s, dx, dy, s)
  {
    var ux, uy := dx / dist, dy / dist;
    assert ux * dist == dx && uy * dist == dy;
    calc {
      (ux * ux + uy * uy) * (dist * dist);
    ==
      (ux * dist) * (ux * dist) + (uy * dist) * (uy * dist);
    ==
      dx * dx + dy * dy;
    ==
      dist * dist;
    }
    assert ux * ux + uy * uy == 1.0;
    calc {
      SqNorm(ux * s, uy * s);
    ==
      (ux * s) * (ux * s) + (uy * s) * (uy * s);
    ==
      (ux * ux + uy * uy) * (s * s);
    ==
      s * s;
    }
    calc {
      (ux * s) * dy;
    ==
      (dx * dy / dist) * s;
    ==
      (uy * s) * dx;
    }
    calc {
      (ux * s) * dx + (uy * s) * dy;
    ==
      (ux * dx + uy * dy) * s;
    ==
      ((dx * dx + dy * dy) / dist) * s;
    ==
      ((dist * dist) / dist) * s;
    ==
      dist * s;
    >
      0.0;
    }
  }
}
