/** The radar's detection test (airdefensev.py:22, 26). */
module Radar {
  import opened Entities
  import opened Geometry

  /**
   * A point is inside the radar envelope when its squared distance to the
   * radar is at most the squared range; positions are integers, so the
   * test is exact.
   */
  predicate InRadarRange(x: int, y: int) {
    (x - RadarX) * (x - RadarX) + (y - RadarY) * (y - RadarY) <= RadarRange * RadarRange
  }

  /** The squared test is the source's `distance <= radar_range` with an exact square root. */
  lemma DetectionIsDistanceTest(sqrt: real -> real, x: int, y: int)
    requires IsSqrt(sqrt)
    ensures InRadarRange(x, y) <==> sqrt(SqNorm((x - RadarX) as real, (y - RadarY) as real)) <= RadarRange as real
  {
    var dx, dy := x - RadarX, y - RadarY;
    assert (dx * dx) as real == dx as real * dx as real;
    assert (dy * dy) as real == dy as real * dy as real;
    assert (RadarRange * RadarRange) as real == RadarRange as real * RadarRange as real;
    SqNormNonNegative(dx as real, dy as real);
    WithinIff(sqrt, SqNorm(dx as real, dy as real), RadarRange as real);
  }

  /** Both configured missiles start outside the radar envelope, so nothing launches at tick 0. */
  lemma SourceMissilesStartOutOfRange()
    ensures forall k :: 0 <= k < |SourceMissiles()| ==> !InRadarRange(SourceMissiles()[k].x, SourceMissiles()[k].y)
  {
  }
}
