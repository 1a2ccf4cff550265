/** The recent-trail window the renderer reads (airdefensev.py:149). */
module Trails {
  import opened Entities

  /** A record is recent when it is less than `TrailWindow` ticks old. */
  predicate IsRecent(p: TrailPoint, now: int) {
    now - p.time < TrailWindow
  }

  /** The records of `trail` that are recent at tick `now`, in their original order. */
  function Recent(trail: seq<TrailPoint>, now: int): (r: seq<TrailPoint>)
    ensures |r| <= |trail|
    ensures forall p :: p in r <==> p in trail && IsRecent(p, now)
  {
    if trail == [] then []
    else (if IsRecent(trail[0], now) then [trail[0]] else []) + Recent(trail[1..], now)
  }

  /** The filter distributes over concatenation, so it keeps the order of the log. */
  lemma {:induction false} RecentAppend(a: seq<TrailPoint>, b: seq<TrailPoint>, now: int)
    ensures Recent(a + b, now) == Recent(a, now) + Recent(b, now)
  {
    if a == [] {
      assert a + b == b;
    } else {
      assert (a + b)[0] == a[0];
      assert (a + b)[1..] == a[1..] + b;
      RecentAppend(a[1..], b, now);
    }
  }

  /** A log whose every record is recent is kept whole. */
  lemma {:induction false} RecentKeepsAllRecent(trail: seq<TrailPoint>, now: int)
    requires forall n :: 0 <= n < |trail| ==> IsRecent(trail[n], now)
    ensures Recent(trail, now) == trail
  {
    if trail != [] {
      RecentKeepsAllRecent(trail[1..], now);
    }
  }

  /** Filtering twice is filtering once. */
  lemma {:induction false} RecentIdempotent(trail: seq<TrailPoint>, now: int)
    ensures Recent(Recent(trail, now), now) == Recent(trail, now)
  {
    var r := Recent(trail, now);
    forall n | 0 <= n < |r|
      ensures IsRecent(r[n], now)
    {
      assert r[n] in r;
    }
    RecentKeepsAllRecent(r, now);
  }

  /**
   * Records appended to the log that are still recent at tick `now` (such as
   * those of the tick before, which is the newest a frame sees) appear, in
   * order, at the end of that tick's window.
   */
  lemma RecentAfterAppend(trail: seq<TrailPoint>, added: seq<TrailPoint>, now: int)
    requires forall n :: 0 <= n < |added| ==> now - added[n].time < TrailWindow
    ensures Recent(trail + added, now) == Recent(trail, now) + added
  {
    RecentAppend(trail, added, now);
    RecentKeepsAllRecent(added, now);
  }
}
