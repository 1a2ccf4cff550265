/**
 * Plane geometry over reals. The source takes Euclidean distances with
 * `math.sqrt`; here the square root is a function parameter, and `IsSqrt`
 * says when such a parameter is the exact non-negative square root.
 * Range tests become comparisons of squared distances.
 */
module Geometry {

  /** Squared length of the vector (dx, dy). */
  function SqNorm(dx: real, dy: real): real {
    dx * dx + dy * dy
  }

  /** `sqrt` returns the non-negative square root of every non-negative real. */
  ghost predicate IsSqrt(sqrt: real -> real) {
    forall x :: 0.0 <= x ==> 0.0 <= sqrt(x) && sqrt(x) * sqrt(x) == x
  }

  /** Squared norms are never negative, and zero only for the zero vector. */
  lemma SqNormNonNegative(dx: real, dy: real)
    ensures 0.0 <= SqNorm(dx, dy)
    ensures SqNorm(dx, dy) == 0.0 <==> dx == 0.0 && dy == 0.0
  {
    if dx != 0.0 {
      calc {
        SqNorm(dx, dy);
      ==
        dx * dx + dy * dy;
      >=
        dx * dx;
      >
        0.0;
      }
    } else if dy != 0.0 {
      calc {
        SqNorm(dx, dy);
      ==
        dx * dx + dy * dy;
      ==
        dy * dy;
      >
        0.0;
      }
    }
  }

  /**
   * A distance test `sqrt(d2) <= r` is the squared test `d2 <= r * r`:
   * the model writes every range test in the squared form.
   */
  lemma WithinIff(sqrt: real -> real, d2: real, r: real)
    requires IsSqrt(sqrt)
    requires 0.0 <= d2 && 0.0 <= r
    ensures sqrt(d2) <= r <==> d2 <= r * r
  {
    var s := sqrt(d2);
    assert 0.0 <= s && s * s == d2;
    if s <= r {
      calc {
        d2;
      ==
        s * s;
      <=
        s * r;
      <=
        r * r;
      }
    } else {
      calc {
        d2;
      ==
        s * s;
      >
        r * s;
      >=
        r * r;
      }
    }
  }

  /** The square root of a non-negative real is positive exactly when the real is. */
  lemma PositiveIff(sqrt: real -> real, d2: real)
    requires IsSqrt(sqrt)
    requires 0.0 <= d2
    ensures 0.0 < sqrt(d2) <==> 0.0 < d2
  {
    var s := sqrt(d2);
    assert 0.0 <= s && s * s == d2;
    if 0.0 < s {
      calc {
        d2;
      ==
        s * s;
      >
        0.0;
      }
    } else {
      calc {
        d2;
      ==
        s * s;
      ==
        0.0;
      }
    }
  }
}
