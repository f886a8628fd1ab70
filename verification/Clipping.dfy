/** Clipping one vertex list by the edges of another, edge by edge. */
module Clipping {
  import opened Geometry
  import opened ConvexRings

  predicate IsSign(o: real) {
    o == 1.0 || o == -1.0
  }

  /** How far `p` lies on the kept side of the line `a` to `b`, for clip orientation `o`. */
  function Side(o: real, a: Point, b: Point, p: Point): real {
    o * Orient(a, b, p)
  }

  predicate Inside(o: real, a: Point, b: Point, p: Point) {
    0.0 <= Side(o, a, b, p)
  }

  function Denominator(p: Point, q: Point, a: Point, b: Point): real {
    (p.x - q.x) * (a.y - b.y) - (p.y - q.y) * (a.x - b.x)
  }

  /** Where the lines `p` `q` and `a` `b` meet; `q` itself when they are parallel. */
  function LineIntersection(p: Point, q: Point, a: Point, b: Point): Point {
    var denominator := Denominator(p, q, a, b);
    if denominator == 0.0 then q
    else
      var firstCross := p.x * q.y - p.y * q.x;
      var clipCross := a.x * b.y - a.y * b.x;
      Point((firstCross * (a.x - b.x) - (p.x - q.x) * clipCross) / denominator,
            (firstCross * (a.y - b.y) - (p.y - q.y) * clipCross) / denominator)
  }

  /** What the step from `prev` to `cur` appends to the output. */
  function Emit(o: real, a: Point, b: Point, prev: Point, cur: Point): seq<Point> {
    if Inside(o, a, b, cur) then
      (if Inside(o, a, b, prev) then [] else [LineIntersection(prev, cur, a, b)]) + [cur]
    else if Inside(o, a, b, prev) then [LineIntersection(prev, cur, a, b)]
    else []
  }

  function ClipFrom(o: real, a: Point, b: Point, prev: Point, rest: seq<Point>): seq<Point>
    decreases rest
  {
    if rest == [] then []
    else Emit(o, a, b, prev, rest[0]) + ClipFrom(o, a, b, rest[0], rest[1..])
  }

  /** One clip pass: the part of `ring` on the kept side of the line `a` to `b`. */
  function ClipEdge(o: real, a: Point, b: Point, ring: seq<Point>): seq<Point> {
    if ring == [] then [] else ClipFrom(o, a, b, ring[|ring| - 1], ring)
  }

  // ----- the crossing point ------------------------------------------------------------

  /** The fraction of the way from `p` to `q` at which the line `a` `b` is met. */
  function CrossingFraction(p: Point, q: Point, a: Point, b: Point): real {
    if Orient(a, b, p) == Orient(a, b, q) then 0.0
    else Orient(a, b, p) / (Orient(a, b, p) - Orient(a, b, q))
  }

  lemma DenominatorIsDrop(p: Point, q: Point, a: Point, b: Point)
    ensures Denominator(p, q, a, b) == Orient(a, b, p) - Orient(a, b, q)
  {
  }

  lemma Numerators(p: Point, q: Point, a: Point, b: Point)
    returns (x: real, y: real)
    ensures x == p.x * Denominator(p, q, a, b) + Orient(a, b, p) * (q.x - p.x)
    ensures y == p.y * Denominator(p, q, a, b) + Orient(a, b, p) * (q.y - p.y)
    ensures var d := Denominator(p, q, a, b); d != 0.0 ==> LineIntersection(p, q, a, b) == Point(x / d, y / d)
  {
    var firstCross, clipCross := p.x * q.y - p.y * q.x, a.x * b.y - a.y * b.x;
    x := firstCross * (a.x - b.x) - (p.x - q.x) * clipCross;
    y := firstCross * (a.y - b.y) - (p.y - q.y) * clipCross;
  }

  lemma Quotient(n: real, d: real, x: real, h: real, e: real, t: real)
    requires d != 0.0 && n == x * d + h * e && t * d == h
    ensures n / d == x + t * e
  {
    assert (x + t * e) * d == x * d + (t * d) * e;
  }

  lemma CrossingCoordinates(p: Point, q: Point, a: Point, b: Point, t: real)
    requires var d := Denominator(p, q, a, b);
             d != 0.0 && t * d == Orient(a, b, p)
    ensures LineIntersection(p, q, a, b) == Lerp(p, q, t)
  {
    hide Orient, Denominator, LineIntersection;
    var d, h := Denominator(p, q, a, b), Orient(a, b, p);
    var x, y := Numerators(p, q, a, b);
    Quotient(x, d, p.x, h, q.x - p.x, t);
    Quotient(y, d, p.y, h, q.y - p.y, t);
  }

  lemma FractionInRange(hp: real, hq: real)
    requires hp < 0.0 <= hq || hq < 0.0 <= hp
    ensures hp != hq && 0.0 <= hp / (hp - hq) <= 1.0 && (hp / (hp - hq)) * (hp - hq) == hp
  {
  }

  /**
   When exactly one end is inside, the parallel-lines fallback is not taken and the emitted
   point is the point of the segment that lies on the clip line.
   */
  lemma CrossingIsOnSegment(o: real, a: Point, b: Point, p: Point, q: Point)
    requires IsSign(o) && Inside(o, a, b, p) != Inside(o, a, b, q)
    ensures Denominator(p, q, a, b) != 0.0
    ensures var t := CrossingFraction(p, q, a, b);
            0.0 <= t <= 1.0 && LineIntersection(p, q, a, b) == Lerp(p, q, t)
    ensures Orient(a, b, LineIntersection(p, q, a, b)) == 0.0
  {
    var hp, hq := Orient(a, b, p), Orient(a, b, q);
    DenominatorIsDrop(p, q, a, b);
    if o == 1.0 {
      FractionInRange(hp, hq);
    } else {
      assert Side(o, a, b, p) == -hp && Side(o, a, b, q) == -hq;
      FractionInRange(-hp, -hq);
      assert hp / (hp - hq) == (-hp) / (-hp - -hq);
    }
    var t := CrossingFraction(p, q, a, b);
    assert t * (hp - hq) == hp;
    CrossingCoordinates(p, q, a, b, t);
    OrientLerp(a, b, p, q, t);
    assert hp + t * (hq - hp) == hp - t * (hp - hq);
  }

  // ----- where the output lies ---------------------------------------------------------

  ghost predicate AllInside(o: real, a: Point, b: Point, ring: seq<Point>) {
    forall v :: v in ring ==> Inside(o, a, b, v)
  }

  lemma CrossingStaysInside(o: real, a: Point, b: Point, p: Point, q: Point, o': real, u: Point, v: Point)
    requires IsSign(o) && Inside(o, a, b, p) != Inside(o, a, b, q)
    requires IsSign(o') && Inside(o', u, v, p) && Inside(o', u, v, q)
    ensures Inside(o', u, v, LineIntersection(p, q, a, b))
  {
    CrossingIsOnSegment(o, a, b, p, q);
    OrientLerpIsBetween(u, v, p, q, CrossingFraction(p, q, a, b));
  }

  lemma {:induction false} ClipFromStaysInside(o: real, a: Point, b: Point, prev: Point, rest: seq<Point>,
                                               o': real, u: Point, v: Point)
    requires IsSign(o) && IsSign(o') && Inside(o', u, v, prev) && AllInside(o', u, v, rest)
    ensures AllInside(o', u, v, ClipFrom(o, a, b, prev, rest))
    decreases rest
  {
    if rest != [] {
      var cur := rest[0];
      ClipFromStaysInside(o, a, b, cur, rest[1..], o', u, v);
      if Inside(o, a, b, prev) != Inside(o, a, b, cur) {
        CrossingStaysInside(o, a, b, prev, cur, o', u, v);
      }
    }
  }

  lemma {:induction false} ClipFromIsInside(o: real, a: Point, b: Point, prev: Point, rest: seq<Point>)
    requires IsSign(o)
    ensures AllInside(o, a, b, ClipFrom(o, a, b, prev, rest))
    decreases rest
  {
    if rest != [] {
      ClipFromIsInside(o, a, b, rest[0], rest[1..]);
      if Inside(o, a, b, prev) != Inside(o, a, b, rest[0]) {
        CrossingIsOnSegment(o, a, b, prev, rest[0]);
      }
    }
  }

  /**
   A clip pass puts every vertex on the kept side of its own edge, and leaves the output on
   the kept side of every line that already had the whole input there.
   */
  lemma ClipEdgeConfines(o: real, a: Point, b: Point, ring: seq<Point>)
    requires IsSign(o)
    ensures AllInside(o, a, b, ClipEdge(o, a, b, ring))
    ensures forall o', u, v :: IsSign(o') && AllInside(o', u, v, ring)
              ==> AllInside(o', u, v, ClipEdge(o, a, b, ring))
  {
    if ring != [] {
      ClipFromIsInside(o, a, b, ring[|ring| - 1], ring);
      forall o', u, v | IsSign(o') && AllInside(o', u, v, ring)
        ensures AllInside(o', u, v, ClipEdge(o, a, b, ring))
      {
        ClipFromStaysInside(o, a, b, ring[|ring| - 1], ring, o', u, v);
      }
    }
  }

  // ----- the kept area -----------------------------------------------------------------

  /** What one step of the input contributes to the kept area, measured from `apex`. */
  function Kept(apex: Point, o: real, a: Point, b: Point, p: Point, q: Point): real {
    var x := LineIntersection(p, q, a, b);
    if Inside(o, a, b, p) then Orient(apex, p, if Inside(o, a, b, q) then q else x)
    else if Inside(o, a, b, q) then Orient(apex, x, q)
    else 0.0
  }

  function KeptSum(apex: Point, o: real, a: Point, b: Point, path: seq<Point>): real {
    if |path| < 2 then 0.0 else Kept(apex, o, a, b, path[0], path[1]) + KeptSum(apex, o, a, b, path[1..])
  }

  /** Points of one line span no triangle. */
  lemma Collinear(a: Point, b: Point, p: Point, q: Point, r: Point)
    requires a != b
    requires Orient(a, b, p) == 0.0 && Orient(a, b, q) == 0.0 && Orient(a, b, r) == 0.0
    ensures Orient(p, q, r) == 0.0
  {
    var dx, dy := b.x - a.x, b.y - a.y;
    assert dx * (q.y - p.y) == dy * (q.x - p.x);
    assert dx * (r.y - p.y) == dy * (r.x - p.x);
    Parallel(dx, dy, q.x - p.x, q.y - p.y, r.x - p.x, r.y - p.y);
  }

  lemma Parallel(dx: real, dy: real, ux: real, uy: real, vx: real, vy: real)
    requires dx != 0.0 || dy != 0.0
    requires dx * uy == dy * ux && dx * vy == dy * vx
    ensures ux * vy - uy * vx == 0.0
  {
    if dx != 0.0 {
      assert dx * (ux * vy - uy * vx) == ux * (dx * vy) - (dx * uy) * vx;
      Cancel(dx, ux * vy - uy * vx);
    } else {
      assert dy * (ux * vy - uy * vx) == (dy * ux) * vy - uy * (dy * vx);
      Cancel(dy, ux * vy - uy * vx);
    }
  }

  lemma Cancel(d: real, r: real)
    requires d != 0.0 && d * r == 0.0
    ensures r == 0.0
  {
  }

  /** `z` can stand for `prev` at the start of the output: `prev` itself, or any point of the line. */
  ghost predicate StandsFor(o: real, a: Point, b: Point, prev: Point, z: Point) {
    if Inside(o, a, b, prev) then z == prev else Orient(a, b, z) == 0.0
  }

  lemma FanStep(apex: Point, z: Point, y: Point, more: seq<Point>)
    ensures FanSum(apex, [z] + ([y] + more)) == Orient(apex, z, y) + FanSum(apex, [y] + more)
  {
    assert ([z] + ([y] + more))[1..] == [y] + more;
  }

  /** The last point to stand for `cur` once the step from `prev` is emitted. */
  function StandIn(o: real, a: Point, b: Point, prev: Point, cur: Point, z: Point): Point {
    if Inside(o, a, b, cur) then cur
    else if Inside(o, a, b, prev) then LineIntersection(prev, cur, a, b)
    else z
  }

  lemma StepArea(apex: Point, o: real, a: Point, b: Point, prev: Point, cur: Point, z: Point, more: seq<Point>)
    requires IsSign(o) && a != b && Orient(a, b, apex) == 0.0 && StandsFor(o, a, b, prev, z)
    ensures var z' := StandIn(o, a, b, prev, cur, z);
            && StandsFor(o, a, b, cur, z')
            && FanSum(apex, [z] + (Emit(o, a, b, prev, cur) + more))
               == Kept(apex, o, a, b, prev, cur) + FanSum(apex, [z'] + more)
            && [z] + (Emit(o, a, b, prev, cur) + more)
               == ([z] + Emit(o, a, b, prev, cur))[..|Emit(o, a, b, prev, cur)|] + ([z'] + more)
  {
    hide Orient, LineIntersection, CrossingFraction, Lerp;
    var x := LineIntersection(prev, cur, a, b);
    var emitted := Emit(o, a, b, prev, cur);
    if Inside(o, a, b, prev) != Inside(o, a, b, cur) {
      CrossingIsOnSegment(o, a, b, prev, cur);
    }
    if Inside(o, a, b, prev) {
      assert |emitted| == 1;
      FanStep(apex, z, emitted[0], more);
      assert emitted + more == [emitted[0]] + more;
    } else if Inside(o, a, b, cur) {
      Collinear(a, b, apex, z, x);
      assert emitted + more == [x] + ([cur] + more);
      FanStep(apex, z, x, [cur] + more);
      FanStep(apex, x, cur, more);
    } else {
      assert emitted + more == more;
    }
  }

  lemma {:induction false} ClipFromArea(apex: Point, o: real, a: Point, b: Point, prev: Point, rest: seq<Point>, z: Point)
    requires IsSign(o) && a != b && Orient(a, b, apex) == 0.0 && StandsFor(o, a, b, prev, z)
    ensures var out := [z] + ClipFrom(o, a, b, prev, rest);
            && FanSum(apex, out) == KeptSum(apex, o, a, b, [prev] + rest)
            && StandsFor(o, a, b, ([prev] + rest)[|rest|], out[|out| - 1])
    decreases rest
  {
    hide Orient, LineIntersection, Inside, Emit, Kept, StandIn;
    if rest != [] {
      var cur := rest[0];
      var more := ClipFrom(o, a, b, cur, rest[1..]);
      StepArea(apex, o, a, b, prev, cur, z, more);
      ClipFromArea(apex, o, a, b, cur, rest[1..], StandIn(o, a, b, prev, cur, z));
      assert [cur] + rest[1..] == rest;
      assert ([prev] + rest)[1..] == rest;
    }
  }

  lemma FanCloses(apex: Point, ring: seq<Point>)
    requires ring != []
    ensures FanSum(apex, [ring[|ring| - 1]] + ring) == Shoelace(ring)
  {
    var last := ring[|ring| - 1];
    FanIsPath(apex, [last] + ring);
    FanIsPath(apex, ring + [ring[0]]);
    FanIsPath(apex, ring);
    ShoelaceIsFan(apex, ring);
    assert ([last] + ring)[1..] == ring;
    assert ring + [ring[0]] == ring[..|ring| - 1] + [last] + [ring[0]];
    FanJoins(apex, ring[..|ring| - 1], last, [ring[0]]);
    assert ring[..|ring| - 1] + [last] == ring;
    assert FanSum(apex, [last] + [ring[0]]) == Orient(apex, last, ring[0]) by {
      assert ([last] + [ring[0]])[1..] == [ring[0]];
    }
  }

  /** The signed area a pass keeps is the sum of what its steps keep. */
  lemma ClipEdgeArea(apex: Point, o: real, a: Point, b: Point, ring: seq<Point>)
    requires IsSign(o) && a != b && Orient(a, b, apex) == 0.0 && ring != []
    ensures Shoelace(ClipEdge(o, a, b, ring)) == KeptSum(apex, o, a, b, [ring[|ring| - 1]] + ring)
  {
    var prev, out := ring[|ring| - 1], ClipEdge(o, a, b, ring);
    ClipFromArea(apex, o, a, b, prev, ring, if Inside(o, a, b, prev) then prev else a);
    if out != [] {
      var z := out[|out| - 1];
      assert ([prev] + ring)[|ring|] == prev;
      ClipFromArea(apex, o, a, b, prev, ring, z);
      FanCloses(apex, out);
    }
  }

  lemma CrossingIgnoresDirection(p: Point, q: Point, a: Point, b: Point)
    requires Orient(a, b, p) != Orient(a, b, q)
    ensures LineIntersection(p, q, b, a) == LineIntersection(p, q, a, b)
  {
    var t := CrossingFraction(p, q, a, b);
    DenominatorIsDrop(p, q, a, b);
    DenominatorIsDrop(p, q, b, a);
    OrientRotates(a, b, p);
    OrientRotates(a, b, q);
    var d := Denominator(p, q, a, b);
    assert t * d == Orient(a, b, p);
    assert t * -d == -(t * d);
    CrossingCoordinates(p, q, a, b, t);
    CrossingCoordinates(p, q, b, a, t);
  }

  lemma SplitAtPoint(apex: Point, p: Point, q: Point, t: real)
    ensures Orient(apex, p, Lerp(p, q, t)) + Orient(apex, Lerp(p, q, t), q) == Orient(apex, p, q)
  {
    OrientLerp(apex, p, p, q, t);
    OrientRotates(apex, p, p);
    OrientLerp(q, apex, p, q, t);
    OrientRotates(apex, p, q);
    OrientRotates(apex, Lerp(p, q, t), q);
    assert Orient(apex, p, p) == 0.0 && Orient(q, apex, q) == 0.0;
  }

  /** A step with one end on the line: the kept crossing point spans nothing with that end. */
  lemma TouchingStepSplits(o: real, a: Point, b: Point, p: Point, q: Point)
    requires IsSign(o) && a != b
    requires (Side(o, a, b, p) == 0.0) != (Side(o, a, b, q) == 0.0)
    requires Side(o, b, a, p) == -Side(o, a, b, p) && Side(o, b, a, q) == -Side(o, a, b, q)
    ensures Kept(a, o, a, b, p, q) + Kept(a, o, b, a, p, q) == Orient(a, p, q)
  {
    CrossingIgnoresDirection(p, q, a, b);
    var x := LineIntersection(p, q, a, b);
    if Inside(o, a, b, p) != Inside(o, a, b, q) {
      CrossingIsOnSegment(o, a, b, p, q);
    } else {
      CrossingIsOnSegment(o, b, a, p, q);
      OrientRotates(a, b, x);
    }
    assert Orient(a, b, x) == 0.0 && Orient(a, b, a) == 0.0;
    if Side(o, a, b, p) == 0.0 {
      Collinear(a, b, a, p, x);
    } else {
      Collinear(a, b, a, x, q);
    }
  }

  lemma StepSplits(o: real, a: Point, b: Point, p: Point, q: Point)
    requires IsSign(o) && a != b
    ensures Kept(a, o, a, b, p, q) + Kept(a, o, b, a, p, q) == Orient(a, p, q)
  {
    OrientRotates(a, b, p);
    OrientRotates(a, b, q);
    assert Side(o, b, a, p) == -Side(o, a, b, p) && Side(o, b, a, q) == -Side(o, a, b, q);
    if Side(o, a, b, p) == 0.0 && Side(o, a, b, q) == 0.0 {
      assert Orient(a, b, a) == 0.0;
      Collinear(a, b, a, p, q);
    } else if Side(o, a, b, p) == 0.0 || Side(o, a, b, q) == 0.0 {
      TouchingStepSplits(o, a, b, p, q);
    } else if Inside(o, a, b, p) != Inside(o, a, b, q) {
      CrossingIgnoresDirection(p, q, a, b);
      CrossingIsOnSegment(o, a, b, p, q);
      SplitAtPoint(a, p, q, CrossingFraction(p, q, a, b));
    }
  }

  lemma {:induction false} StepsSplit(o: real, a: Point, b: Point, path: seq<Point>)
    requires IsSign(o) && a != b
    ensures KeptSum(a, o, a, b, path) + KeptSum(a, o, b, a, path) == FanSum(a, path)
  {
    if |path| >= 2 {
      StepSplits(o, a, b, path[0], path[1]);
      StepsSplit(o, a, b, path[1..]);
    }
  }

  /**
   For any closed list, convex or not, and any proper edge, the signed areas kept by the edge
   and by the reversed edge add up to the signed area of the input.
   */
  lemma ClipConservesArea(o: real, a: Point, b: Point, ring: seq<Point>)
    requires IsSign(o) && a != b
    ensures Shoelace(ClipEdge(o, a, b, ring)) + Shoelace(ClipEdge(o, b, a, ring)) == Shoelace(ring)
  {
    if ring != [] {
      var path := [ring[|ring| - 1]] + ring;
      OrientRotates(a, b, a);
      ClipEdgeArea(a, o, a, b, ring);
      ClipEdgeArea(a, o, b, a, ring);
      StepsSplit(o, a, b, path);
      FanCloses(a, ring);
    }
  }

  lemma {:induction false} AllInsideKeepsAll(o: real, a: Point, b: Point, prev: Point, rest: seq<Point>)
    requires Inside(o, a, b, prev) && AllInside(o, a, b, rest)
    ensures ClipFrom(o, a, b, prev, rest) == rest
    decreases rest
  {
    if rest != [] {
      assert rest[0] in rest;
      AllInsideKeepsAll(o, a, b, rest[0], rest[1..]);
    }
  }

  /**
   The two kept areas add up exactly when the edge is proper or the list encloses no area: an
   edge of two equal points keeps everything in both directions.
   */
  lemma ConservationNeedsProperEdge(o: real, a: Point, b: Point, ring: seq<Point>)
    requires IsSign(o)
    ensures Shoelace(ClipEdge(o, a, b, ring)) + Shoelace(ClipEdge(o, b, a, ring)) == Shoelace(ring)
        <==> a != b || Shoelace(ring) == 0.0
  {
    if a != b {
      ClipConservesArea(o, a, b, ring);
    } else if ring != [] {
      AllInsideKeepsAll(o, a, b, ring[|ring| - 1], ring);
    }
  }
}
