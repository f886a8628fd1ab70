/** The schema's segment intersection test agrees with sharing a point. */
module Segments {
  import opened Geometry
  import opened Clipping

  function Min(a: real, b: real): real { if a <= b then a else b }

  function Max(a: real, b: real): real { if a <= b then b else a }

  predicate InBox(start: Point, point: Point, end: Point) {
    && Min(start.x, end.x) <= point.x <= Max(start.x, end.x)
    && Min(start.y, end.y) <= point.y <= Max(start.y, end.y)
  }

  predicate Opposite(u: real, v: real) {
    u > 0.0 > v || u < 0.0 < v
  }

  predicate SegmentsIntersect(a: Point, b: Point, c: Point, d: Point) {
    || (Opposite(Orient(a, b, c), Orient(a, b, d)) && Opposite(Orient(c, d, a), Orient(c, d, b)))
    || (Orient(a, b, c) == 0.0 && InBox(a, c, b))
    || (Orient(a, b, d) == 0.0 && InBox(a, d, b))
    || (Orient(c, d, a) == 0.0 && InBox(c, a, d))
    || (Orient(c, d, b) == 0.0 && InBox(c, b, d))
  }

  /** The closed segments `a` `b` and `c` `d` have a point in common. */
  ghost predicate SharePoint(a: Point, b: Point, c: Point, d: Point) {
    exists t: real, u: real :: MeetAt(a, b, c, d, t, u)
  }

  predicate MeetAt(a: Point, b: Point, c: Point, d: Point, t: real, u: real) {
    0.0 <= t <= 1.0 && 0.0 <= u <= 1.0 && Lerp(a, b, t) == Lerp(c, d, u)
  }

  // ----- the box test on one line ------------------------------------------------------

  function Flip(p: Point): Point {
    Point(p.y, p.x)
  }

  lemma FlipOrient(a: Point, b: Point, c: Point)
    ensures Orient(Flip(a), Flip(b), Flip(c)) == -Orient(a, b, c)
  {
  }

  lemma LerpIsInBox(a: Point, b: Point, t: real)
    requires 0.0 <= t <= 1.0
    ensures InBox(a, Lerp(a, b, t), b)
    ensures Orient(a, b, Lerp(a, b, t)) == 0.0
  {
    MixIsBetween(Lerp(a, b, t).x, a.x, b.x, t);
    MixIsBetween(Lerp(a, b, t).y, a.y, b.y, t);
    OrientLerp(a, b, a, b, t);
    assert Orient(a, b, a) == 0.0 && Orient(a, b, b) == 0.0;
  }

  lemma RangeFraction(a: real, b: real, c: real) returns (t: real)
    requires a != b && Min(a, b) <= c <= Max(a, b)
    ensures 0.0 <= t <= 1.0 && c == a + t * (b - a)
  {
    t := (c - a) / (b - a);
    if a < b {
      QuotientInRange(c - a, b - a);
    } else {
      QuotientInRange(a - c, a - b);
      assert (c - a) / (b - a) == (a - c) / (a - b);
    }
  }

  lemma QuotientInRange(n: real, d: real)
    requires 0.0 <= n <= d && 0.0 < d
    ensures 0.0 <= n / d <= 1.0
  {
  }

  /** On a line that is not vertical the x range decides. */
  lemma XRangeGivesPoint(a: Point, b: Point, c: Point) returns (t: real)
    requires Orient(a, b, c) == 0.0 && a.x != b.x && Min(a.x, b.x) <= c.x <= Max(a.x, b.x)
    ensures 0.0 <= t <= 1.0 && c == Lerp(a, b, t)
  {
    t := RangeFraction(a.x, b.x, c.x);
    var w, h := b.x - a.x, b.y - a.y;
    assert w * (c.y - a.y) == h * (c.x - a.x);
    assert h * (t * w) == w * (t * h);
    assert w * (c.y - a.y - t * h) == 0.0;
    Cancel(w, c.y - a.y - t * h);
  }

  lemma BoxGivesPoint(a: Point, b: Point, c: Point) returns (t: real)
    requires Orient(a, b, c) == 0.0 && InBox(a, c, b)
    ensures 0.0 <= t <= 1.0 && c == Lerp(a, b, t)
  {
    if a.x != b.x {
      t := XRangeGivesPoint(a, b, c);
    } else if a.y != b.y {
      FlipOrient(a, b, c);
      t := XRangeGivesPoint(Flip(a), Flip(b), Flip(c));
      assert Flip(Flip(c)) == c;
    } else {
      t := 0.0;
    }
  }

  lemma OnLineMeets(a: Point, b: Point, c: Point, d: Point)
    requires Orient(a, b, c) == 0.0 && InBox(a, c, b)
    ensures SharePoint(a, b, c, d) && SharePoint(a, b, d, c) && SharePoint(c, d, a, b) && SharePoint(d, c, a, b)
  {
    var t := BoxGivesPoint(a, b, c);
    assert Lerp(c, d, 0.0) == c && Lerp(d, c, 1.0) == c;
    assert MeetAt(a, b, c, d, t, 0.0) && MeetAt(a, b, d, c, t, 1.0);
    assert MeetAt(c, d, a, b, 0.0, t) && MeetAt(d, c, a, b, 1.0, t);
  }

  // ----- a proper crossing -------------------------------------------------------------

  lemma LinesMeetOnce(a: Point, b: Point, c: Point, d: Point, p: Point, q: Point)
    requires Orient(a, b, c) != Orient(a, b, d)
    requires Orient(a, b, p) == Orient(a, b, q) && Orient(c, d, p) == Orient(c, d, q)
    ensures p == q
  {
    var ux, uy, vx, vy, dx, dy := b.x - a.x, b.y - a.y, d.x - c.x, d.y - c.y, p.x - q.x, p.y - q.y;
    var m := ux * vy - uy * vx;
    assert m == Orient(a, b, d) - Orient(a, b, c);
    assert ux * dy - uy * dx == 0.0 && vx * dy - vy * dx == 0.0;
    assert m * dx == vx * (ux * dy - uy * dx) - ux * (vx * dy - vy * dx);
    assert m * dy == vy * (ux * dy - uy * dx) - uy * (vx * dy - vy * dx);
    Cancel(m, dx);
    Cancel(m, dy);
  }

  lemma ZeroBetween(a: Point, b: Point, p: Point, q: Point) returns (t: real)
    requires Opposite(Orient(a, b, p), Orient(a, b, q))
    ensures 0.0 <= t <= 1.0 && Orient(a, b, Lerp(p, q, t)) == 0.0
  {
    var hp, hq := Orient(a, b, p), Orient(a, b, q);
    t := hp / (hp - hq);
    FractionInRange(hp, hq);
    OrientLerp(a, b, p, q, t);
    assert hp + t * (hq - hp) == hp - t * (hp - hq);
  }

  lemma ProperCrossingMeets(a: Point, b: Point, c: Point, d: Point)
    requires Opposite(Orient(a, b, c), Orient(a, b, d)) && Opposite(Orient(c, d, a), Orient(c, d, b))
    ensures SharePoint(a, b, c, d)
  {
    var u := ZeroBetween(a, b, c, d);
    var t := ZeroBetween(c, d, a, b);
    LerpIsInBox(a, b, t);
    LerpIsInBox(c, d, u);
    LinesMeetOnce(a, b, c, d, Lerp(a, b, t), Lerp(c, d, u));
    assert MeetAt(a, b, c, d, t, u);
  }

  // ----- a shared point is found -------------------------------------------------------

  lemma EndOrCrossing(h: real, k: real, u: real)
    requires 0.0 <= u <= 1.0 && h + u * (k - h) == 0.0 && (h != 0.0 || k != 0.0)
    ensures Opposite(h, k) || (h == 0.0 && u == 0.0) || (k == 0.0 && u == 1.0)
  {
    assert h + u * (k - h) == (1.0 - u) * h + u * k;
    if 0.0 < h && 0.0 <= k {
      ProductNonnegative(u, k);
      if u < 1.0 { ProductPositive(1.0 - u, h); }
    } else if h < 0.0 && k <= 0.0 {
      ProductNonnegative(u, -k);
      if u < 1.0 { ProductPositive(1.0 - u, -h); }
    } else if h == 0.0 && u != 0.0 {
      Cancel(u, k);
    }
  }

  /** Where the other segment is not on the line of `a` `b`, it crosses the line or ends on the segment. */
  lemma OffLine(a: Point, b: Point, c: Point, d: Point, t: real, u: real)
    requires MeetAt(a, b, c, d, t, u) && (Orient(a, b, c) != 0.0 || Orient(a, b, d) != 0.0)
    ensures || Opposite(Orient(a, b, c), Orient(a, b, d))
            || (Orient(a, b, c) == 0.0 && InBox(a, c, b)) || (Orient(a, b, d) == 0.0 && InBox(a, d, b))
  {
    LerpIsInBox(a, b, t);
    OrientLerp(a, b, c, d, u);
    EndOrCrossing(Orient(a, b, c), Orient(a, b, d), u);
    assert Lerp(c, d, 0.0) == c && Lerp(c, d, 1.0) == d;
  }

  /** Of two overlapping ranges, one has an end inside the other. */
  lemma RangesOverlap(a: real, b: real, c: real, d: real, x: real)
    requires Min(a, b) <= x <= Max(a, b) && Min(c, d) <= x <= Max(c, d)
    ensures || Min(a, b) <= c <= Max(a, b) || Min(a, b) <= d <= Max(a, b)
            || Min(c, d) <= a <= Max(c, d) || Min(c, d) <= b <= Max(c, d)
  {
  }

  predicate FoundOnLine(a: Point, b: Point, c: Point, d: Point) {
    InBox(a, c, b) || InBox(a, d, b) || InBox(c, a, d) || InBox(c, b, d)
  }

  lemma XRangeGivesBox(a: Point, b: Point, c: Point)
    requires Orient(a, b, c) == 0.0 && a.x != b.x && Min(a.x, b.x) <= c.x <= Max(a.x, b.x)
    ensures InBox(a, c, b)
  {
    var t := XRangeGivesPoint(a, b, c);
    LerpIsInBox(a, b, t);
  }

  lemma SameXSamePoint(a: Point, b: Point, c: Point, d: Point)
    requires a.x != b.x && Orient(a, b, c) == 0.0 && Orient(a, b, d) == 0.0 && c.x == d.x
    ensures c == d
  {
    assert (b.x - a.x) * (c.y - d.y) == 0.0;
    Cancel(b.x - a.x, c.y - d.y);
  }

  lemma CollinearOverlap(a: Point, b: Point, c: Point, d: Point, x: real)
    requires a.x != b.x && c != d
    requires Orient(a, b, c) == 0.0 && Orient(a, b, d) == 0.0 && Orient(c, d, a) == 0.0 && Orient(c, d, b) == 0.0
    requires Min(a.x, b.x) <= x <= Max(a.x, b.x) && Min(c.x, d.x) <= x <= Max(c.x, d.x)
    ensures FoundOnLine(a, b, c, d)
  {
    if c.x == d.x {
      SameXSamePoint(a, b, c, d);
    }
    RangesOverlap(a.x, b.x, c.x, d.x, x);
    if Min(a.x, b.x) <= c.x <= Max(a.x, b.x) {
      XRangeGivesBox(a, b, c);
    } else if Min(a.x, b.x) <= d.x <= Max(a.x, b.x) {
      XRangeGivesBox(a, b, d);
    } else if Min(c.x, d.x) <= a.x <= Max(c.x, d.x) {
      XRangeGivesBox(c, d, a);
    } else {
      XRangeGivesBox(c, d, b);
    }
  }

  lemma OneLineFound(a: Point, b: Point, c: Point, d: Point, t: real, u: real)
    requires MeetAt(a, b, c, d, t, u)
    requires Orient(a, b, c) == 0.0 && Orient(a, b, d) == 0.0 && Orient(c, d, a) == 0.0 && Orient(c, d, b) == 0.0
    ensures FoundOnLine(a, b, c, d)
  {
    LerpIsInBox(a, b, t);
    LerpIsInBox(c, d, u);
    if a == b {
      assert Lerp(a, b, t) == a;
    } else if c == d {
      assert Lerp(c, d, u) == c;
    } else if a.x != b.x {
      CollinearOverlap(a, b, c, d, Lerp(a, b, t).x);
    } else {
      FlipOrient(a, b, c);
      FlipOrient(a, b, d);
      FlipOrient(c, d, a);
      FlipOrient(c, d, b);
      CollinearOverlap(Flip(a), Flip(b), Flip(c), Flip(d), Lerp(a, b, t).y);
    }
  }

  /** The test answers true exactly when the closed segments share a point, degenerate ones included. */
  lemma IntersectIffSharePoint(a: Point, b: Point, c: Point, d: Point)
    ensures SegmentsIntersect(a, b, c, d) <==> SharePoint(a, b, c, d)
  {
    if SegmentsIntersect(a, b, c, d) {
      if Orient(a, b, c) == 0.0 && InBox(a, c, b) {
        OnLineMeets(a, b, c, d);
      } else if Orient(a, b, d) == 0.0 && InBox(a, d, b) {
        OnLineMeets(a, b, d, c);
      } else if Orient(c, d, a) == 0.0 && InBox(c, a, d) {
        OnLineMeets(c, d, a, b);
      } else if Orient(c, d, b) == 0.0 && InBox(c, b, d) {
        OnLineMeets(c, d, b, a);
      } else {
        ProperCrossingMeets(a, b, c, d);
      }
    }
    if SharePoint(a, b, c, d) {
      var t, u :| MeetAt(a, b, c, d, t, u);
      SharedPointIsFound(a, b, c, d, t, u);
    }
  }

  lemma SharedPointIsFound(a: Point, b: Point, c: Point, d: Point, t: real, u: real)
    requires MeetAt(a, b, c, d, t, u)
    ensures SegmentsIntersect(a, b, c, d)
  {
    var firstFlat := Orient(a, b, c) == 0.0 && Orient(a, b, d) == 0.0;
    var secondFlat := Orient(c, d, a) == 0.0 && Orient(c, d, b) == 0.0;
    if !firstFlat {
      OffLine(a, b, c, d, t, u);
    }
    if !secondFlat {
      OffLine(c, d, a, b, u, t);
    }
    if firstFlat && secondFlat {
      OneLineFound(a, b, c, d, t, u);
    } else if firstFlat && Opposite(Orient(c, d, a), Orient(c, d, b)) {
      FlatOneWayIsFlat(a, b, c, d);
    } else if secondFlat && Opposite(Orient(a, b, c), Orient(a, b, d)) {
      FlatOneWayIsFlat(c, d, a, b);
    }
  }

  /** A proper segment that lies on the line of another cannot see the other's ends on both sides. */
  lemma FlatOneWayIsFlat(a: Point, b: Point, c: Point, d: Point)
    requires Orient(a, b, c) == 0.0 && Orient(a, b, d) == 0.0
    ensures !Opposite(Orient(c, d, a), Orient(c, d, b))
  {
    if a != b {
      assert Orient(a, b, a) == 0.0 && Orient(a, b, b) == 0.0;
      Collinear(a, b, c, d, a);
      Collinear(a, b, c, d, b);
    }
  }
}
