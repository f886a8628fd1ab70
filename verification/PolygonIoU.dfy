/** Intersection over union of two convex polygons. */
module PolygonIoU {
  import opened Geometry
  import opened ConvexRings
  import opened Clipping
  import opened TriangleBound
  import opened ConvexPolygons

  // ----- the clipper -------------------------------------------------------------------

  /** Clip `ring` by each step of `path` in turn. */
  function ClipPath(o: real, path: seq<Point>, ring: seq<Point>): seq<Point>
    decreases path
  {
    if |path| < 2 then ring else ClipPath(o, path[1..], ClipEdge(o, path[0], path[1], ring))
  }

  function Orientation(clip: seq<Point>): (o: real)
    ensures IsSign(o)
  {
    if 0.0 < Shoelace(clip) then 1.0 else -1.0
  }

  function Closed(ring: seq<Point>): seq<Point> {
    if ring == [] then [] else ring + [ring[0]]
  }

  function Intersection(subject: seq<Point>, clip: seq<Point>): seq<Point> {
    ClipPath(Orientation(clip), Closed(clip), subject)
  }

  lemma ClipFromStep(o: real, a: Point, b: Point, prev: Point, ring: seq<Point>, i: nat, before: seq<Point>)
    requires i < |ring|
    ensures before + ClipFrom(o, a, b, prev, ring[i..]) ==
            (before + Emit(o, a, b, prev, ring[i])) + ClipFrom(o, a, b, ring[i], ring[i + 1..])
  {
    hide Emit;
    assert ring[i..][0] == ring[i] && ring[i..][1..] == ring[i + 1..];
  }

  /** The clipper's inner loop. */
  method ClipByEdge(o: real, a: Point, b: Point, incoming: seq<Point>) returns (output: seq<Point>)
    requires incoming != []
    ensures output == ClipEdge(o, a, b, incoming)
  {
    hide LineIntersection, Inside, ClipFrom;
    output := [];
    var previous := incoming[|incoming| - 1];
    var previousInside := Inside(o, a, b, previous);
    assert incoming[0..] == incoming;
    for i := 0 to |incoming|
      invariant previousInside == Inside(o, a, b, previous)
      invariant ClipEdge(o, a, b, incoming) == output + ClipFrom(o, a, b, previous, incoming[i..])
    {
      var current := incoming[i];
      var currentInside := Inside(o, a, b, current);
      ghost var before := output;
      ClipFromStep(o, a, b, previous, incoming, i, before);
      if currentInside {
        if !previousInside {
          output := output + [LineIntersection(previous, current, a, b)];
        }
        output := output + [current];
      } else if previousInside {
        output := output + [LineIntersection(previous, current, a, b)];
      }
      assert output == before + Emit(o, a, b, previous, current);
      previous, previousInside := current, currentInside;
    }
    NothingToClip(o, a, b, previous, incoming[|incoming|..]);
  }

  lemma NothingToClip(o: real, a: Point, b: Point, prev: Point, rest: seq<Point>)
    requires rest == []
    ensures ClipFrom(o, a, b, prev, rest) == []
  {
  }

  lemma {:induction false} ClippingNothing(o: real, path: seq<Point>)
    ensures ClipPath(o, path, []) == []
    decreases path
  {
    if |path| >= 2 {
      ClippingNothing(o, path[1..]);
    }
  }

  /** The clipper's outer loop, leaving early once nothing is left. */
  method PolygonIntersection(subject: seq<Point>, clip: seq<Point>) returns (output: seq<Point>)
    ensures output == Intersection(subject, clip)
  {
    output := subject;
    var orientation := Orientation(clip);
    var path := Closed(clip);
    for i := 0 to |clip|
      invariant Intersection(subject, clip) == ClipPath(orientation, path[i..], output)
    {
      var incoming := output;
      output := [];
      assert path[i..][0] == path[i] && path[i..][1] == path[i + 1] && path[i..][1..] == path[i + 1..];
      if incoming == [] {
        ClippingNothing(orientation, path[i..]);
        break;
      }
      output := ClipByEdge(orientation, path[i], path[i + 1], incoming);
    }
  }

  datatype Outcome = Ratio(value: real) | EmptyUnion

  function IoU(expected: seq<Point>, predicted: seq<Point>): Outcome {
    var intersectionArea := Area(Intersection(expected, predicted));
    var unionArea := Area(expected) + Area(predicted) - intersectionArea;
    if unionArea <= 0.0 then EmptyUnion else Ratio(intersectionArea / unionArea)
  }

  // ----- clip passes keep convexity ----------------------------------------------------

  /** The input with every crossing point put between the ends of its step. */
  function RefineFrom(o: real, a: Point, b: Point, prev: Point, rest: seq<Point>): seq<Point>
    decreases rest
  {
    if rest == [] then []
    else (if Inside(o, a, b, prev) != Inside(o, a, b, rest[0]) then [LineIntersection(prev, rest[0], a, b)] else [])
         + [rest[0]] + RefineFrom(o, a, b, rest[0], rest[1..])
  }

  function KeepInside(o: real, a: Point, b: Point, ring: seq<Point>): seq<Point> {
    if ring == [] then []
    else (if Inside(o, a, b, ring[0]) then [ring[0]] else []) + KeepInside(o, a, b, ring[1..])
  }

  /** The point that precedes `rest` around the list `done + rest`. */
  function PointBefore(done: seq<Point>, rest: seq<Point>): Point
    requires done + rest != []
  {
    if done == [] then rest[|rest| - 1] else done[|done| - 1]
  }

  lemma {:induction false} RefineKeepsConvex(s: real, o: real, a: Point, b: Point, done: seq<Point>, rest: seq<Point>)
    requires IsSign(o) && done + rest != [] && Convex(s, done + rest)
    ensures Convex(s, done + RefineFrom(o, a, b, PointBefore(done, rest), rest))
    decreases rest
  {
    hide LineIntersection, Inside, CrossingFraction, Convex, Lerp;
    var prev := PointBefore(done, rest);
    if rest == [] {
      assert done + [] == done;
    } else {
      var cur, i := rest[0], |done|;
      var done' := done + [cur];
      if Inside(o, a, b, prev) != Inside(o, a, b, cur) {
        var x, t := LineIntersection(prev, cur, a, b), CrossingFraction(prev, cur, a, b);
        CrossingIsOnSegment(o, a, b, prev, cur);
        InsertKeepsConvex(s, done + rest, i, t);
        done' := done + [x] + [cur];
        assert InsertAt(done + rest, i, x) == done' + rest[1..];
      } else {
        assert done + rest == done' + rest[1..];
      }
      RefineKeepsConvex(s, o, a, b, done', rest[1..]);
      assert done + RefineFrom(o, a, b, prev, rest) == done' + RefineFrom(o, a, b, cur, rest[1..]);
    }
  }

  lemma {:induction false} FilterKeepsConvex(s: real, o: real, a: Point, b: Point, done: seq<Point>, rest: seq<Point>)
    requires Convex(s, done + rest)
    ensures Convex(s, done + KeepInside(o, a, b, rest))
    decreases rest
  {
    if rest == [] {
      assert done + [] == done;
    } else if Inside(o, a, b, rest[0]) {
      assert done + rest == (done + [rest[0]]) + rest[1..];
      FilterKeepsConvex(s, o, a, b, done + [rest[0]], rest[1..]);
      assert done + KeepInside(o, a, b, rest) == (done + [rest[0]]) + KeepInside(o, a, b, rest[1..]);
    } else {
      RemoveKeepsConvex(s, done + rest, |done|);
      assert RemoveAt(done + rest, |done|) == done + rest[1..];
      FilterKeepsConvex(s, o, a, b, done, rest[1..]);
      assert KeepInside(o, a, b, rest) == KeepInside(o, a, b, rest[1..]);
    }
  }

  lemma {:induction false} KeepInsideJoins(o: real, a: Point, b: Point, left: seq<Point>, right: seq<Point>)
    ensures KeepInside(o, a, b, left + right) == KeepInside(o, a, b, left) + KeepInside(o, a, b, right)
    decreases left
  {
    if left == [] {
      assert left + right == right;
    } else {
      assert (left + right)[1..] == left[1..] + right;
      KeepInsideJoins(o, a, b, left[1..], right);
    }
  }

  lemma {:induction false} ClipFromIsFilter(o: real, a: Point, b: Point, prev: Point, rest: seq<Point>)
    requires IsSign(o)
    ensures ClipFrom(o, a, b, prev, rest) == KeepInside(o, a, b, RefineFrom(o, a, b, prev, rest))
    decreases rest
  {
    if rest != [] {
      var cur := rest[0];
      var crossing := if Inside(o, a, b, prev) != Inside(o, a, b, cur) then [LineIntersection(prev, cur, a, b)] else [];
      ClipFromIsFilter(o, a, b, cur, rest[1..]);
      if crossing != [] {
        CrossingIsOnSegment(o, a, b, prev, cur);
        assert Inside(o, a, b, crossing[0]);
      }
      KeepInsideJoins(o, a, b, crossing + [cur], RefineFrom(o, a, b, cur, rest[1..]));
      KeepInsideJoins(o, a, b, crossing, [cur]);
      assert KeepInside(o, a, b, crossing) == crossing;
      assert KeepInside(o, a, b, [cur]) == if Inside(o, a, b, cur) then [cur] else [];
    }
  }

  lemma ClipEdgeKeepsConvex(s: real, o: real, a: Point, b: Point, ring: seq<Point>)
    requires IsSign(o) && Convex(s, ring)
    ensures Convex(s, ClipEdge(o, a, b, ring))
  {
    if ring != [] {
      var prev := ring[|ring| - 1];
      assert [] + ring == ring;
      RefineKeepsConvex(s, o, a, b, [], ring);
      var refined := RefineFrom(o, a, b, prev, ring);
      assert [] + refined == refined;
      FilterKeepsConvex(s, o, a, b, [], refined);
      ClipFromIsFilter(o, a, b, prev, ring);
      assert [] + KeepInside(o, a, b, refined) == KeepInside(o, a, b, refined);
    }
  }

  // ----- the subject bounds the output -------------------------------------------------

  lemma {:induction false} FanTurns(s: real, ring: seq<Point>, i: nat)
    requires TriplesTurn(s, ring) && i < |ring|
    ensures 0.0 <= s * FanSum(ring[0], ring[i..] + [ring[0]])
    decreases |ring| - i
  {
    var path := ring[i..] + [ring[0]];
    if i + 1 == |ring| {
      assert path[1..] == [ring[0]];
      assert Orient(ring[0], path[0], path[1]) == 0.0;
    } else {
      assert path[1..] == ring[i + 1..] + [ring[0]];
      TripleWeak(s, ring, 0, i, i + 1);
      FanTurns(s, ring, i + 1);
      var first, more := Orient(ring[0], ring[i], ring[i + 1]), FanSum(ring[0], path[1..]);
      assert s * (first + more) == s * first + s * more;
    }
  }

  lemma ConvexArea(s: real, ring: seq<Point>)
    requires Convex(s, ring)
    ensures 0.0 <= s * Shoelace(ring)
  {
    if ring != [] {
      FanTurns(s, ring, 0);
      ShoelaceIsFan(ring[0], ring);
      assert ring[0..] == ring;
    }
  }

  /** A pass over a convex list never enlarges it and never turns it over. */
  lemma ClipEdgeShrinks(s: real, o: real, a: Point, b: Point, ring: seq<Point>)
    requires IsSign(o) && Convex(s, ring)
    ensures 0.0 <= s * Shoelace(ClipEdge(o, a, b, ring)) <= s * Shoelace(ring)
  {
    hide Convex, Shoelace;
    ClipEdgeKeepsConvex(s, o, a, b, ring);
    ConvexArea(s, ClipEdge(o, a, b, ring));
    if a == b {
      if ring != [] {
        AllInsideKeepsAll(o, a, b, ring[|ring| - 1], ring);
      }
    } else {
      var kept, cut := Shoelace(ClipEdge(o, a, b, ring)), Shoelace(ClipEdge(o, b, a, ring));
      ClipEdgeKeepsConvex(s, o, b, a, ring);
      ConvexArea(s, ClipEdge(o, b, a, ring));
      ClipConservesArea(o, a, b, ring);
      assert s * Shoelace(ring) == s * kept + s * cut;
    }
  }

  lemma {:induction false} ClipPathShrinks(s: real, o: real, path: seq<Point>, ring: seq<Point>)
    requires IsSign(o) && Convex(s, ring)
    ensures var out := ClipPath(o, path, ring);
            Convex(s, out) && 0.0 <= s * Shoelace(out) <= s * Shoelace(ring)
    decreases path
  {
    ConvexArea(s, ring);
    if |path| >= 2 {
      ClipEdgeKeepsConvex(s, o, path[0], path[1], ring);
      ClipEdgeShrinks(s, o, path[0], path[1], ring);
      ClipPathShrinks(s, o, path[1..], ClipEdge(o, path[0], path[1], ring));
    }
  }

  // ----- the clip polygon bounds the output --------------------------------------------

  /** Coordinates along two sides of the triangle `e`, `f`, `g`, with `e` as the origin. */
  function Skew(e: Point, f: Point, g: Point, v: Point): Point
    requires Orient(e, f, g) != 0.0
  {
    Point(Orient(g, e, v) / Orient(e, f, g), Orient(e, f, v) / Orient(e, f, g))
  }

  lemma SkewScalesArea(e: Point, f: Point, g: Point, v: Point, w: Point)
    requires Orient(e, f, g) != 0.0
    ensures Orient(e, v, w) == Orient(e, f, g) * Cross(Skew(e, f, g, v), Skew(e, f, g, w))
  {
    hide Orient;
    var d := Orient(e, f, g);
    var vx, vy, wx, wy := Orient(g, e, v), Orient(e, f, v), Orient(g, e, w), Orient(e, f, w);
    PlaneIdentity(e, f, g, v, w);
    OrientRotates(g, e, v);
    OrientRotates(g, e, w);
    OrientRotates(e, v, g);
    OrientRotates(e, w, g);
    assert d * Orient(e, v, w) == vx * wy - wx * vy;
    ScaledCross(d, Orient(e, v, w), vx, vy, wx, wy);
  }

  lemma ScaledCross(d: real, r: real, vx: real, vy: real, wx: real, wy: real)
    requires d != 0.0 && d * r == vx * wy - wx * vy
    ensures r == d * ((vx / d) * (wy / d) - (wx / d) * (vy / d))
  {
    var a, b, p, q := vx / d, vy / d, wx / d, wy / d;
    assert vx == a * d && vy == b * d && wx == p * d && wy == q * d;
    assert d * r == d * (d * (a * q - p * b));
    Cancel(d, r - d * (a * q - p * b));
  }

  function Skewed(e: Point, f: Point, g: Point, path: seq<Point>): (r: seq<Point>)
    requires Orient(e, f, g) != 0.0
    ensures |r| == |path| && forall i :: 0 <= i < |r| ==> r[i] == Skew(e, f, g, path[i])
  {
    seq(|path|, i requires 0 <= i < |path| => Skew(e, f, g, path[i]))
  }

  lemma {:induction false} SkewScalesPath(e: Point, f: Point, g: Point, path: seq<Point>)
    requires Orient(e, f, g) != 0.0
    ensures FanSum(e, path) == Orient(e, f, g) * PathSum(Skewed(e, f, g, path))
  {
    if |path| >= 2 {
      var d, image := Orient(e, f, g), Skewed(e, f, g, path);
      SkewScalesArea(e, f, g, path[0], path[1]);
      SkewScalesPath(e, f, g, path[1..]);
      assert image[1..] == Skewed(e, f, g, path[1..]);
      var first, more := Cross(image[0], image[1]), PathSum(image[1..]);
      assert d * (first + more) == d * first + d * more;
    }
  }

  lemma SkewScalesShoelace(e: Point, f: Point, g: Point, ring: seq<Point>)
    requires Orient(e, f, g) != 0.0
    ensures Shoelace(ring) == Orient(e, f, g) * Shoelace(Skewed(e, f, g, ring))
  {
    if ring != [] {
      ShoelaceIsFan(e, ring);
      SkewScalesPath(e, f, g, ring + [ring[0]]);
      var image := Skewed(e, f, g, ring);
      assert Skewed(e, f, g, ring + [ring[0]]) == image + [image[0]];
    }
  }

  /** Every step of `path` has all of `ring` on its `s` side. */
  ghost predicate Confined(s: real, path: seq<Point>, ring: seq<Point>) {
    forall i :: 0 <= i < |path| - 1 ==> AllInside(s, path[i], path[i + 1], ring)
  }

  lemma Quotients(n: real, d: real)
    requires d != 0.0
    ensures 0.0 < d && 0.0 <= n ==> 0.0 <= n / d
    ensures d < 0.0 && n <= 0.0 ==> 0.0 <= n / d
  {
  }

  lemma SkewInUnitTriangle(s: real, e: Point, f: Point, g: Point, v: Point)
    requires IsSign(s) && 0.0 < s * Orient(e, f, g)
    requires Inside(s, e, f, v) && Inside(s, f, g, v) && Inside(s, g, e, v)
    ensures InUnitTriangle(Skew(e, f, g, v))
  {
    var d := Orient(e, f, g);
    var h0, h1, h2 := Orient(e, f, v), Orient(f, g, v), Orient(g, e, v);
    assert h0 + h1 + h2 == d;
    Quotients(h0, d);
    Quotients(h1, d);
    Quotients(h2, d);
    assert h0 / d + h2 / d + h1 / d == 1.0;
  }

  lemma ScalingKeepsAlternation(d: real, fs: seq<real>, gs: seq<real>)
    requires 0.0 < d && |fs| == |gs| && NoZigzag(fs)
    requires forall i :: 0 <= i < |fs| ==> fs[i] == gs[i] * d
    ensures NoZigzag(gs)
  {
    forall i: nat, j: nat, k: nat, l: nat | i < j < k < l < |gs|
      ensures !Zigzag(gs, i, j, k, l)
    {
      assert !Zigzag(fs, i, j, k, l);
      ScalingKeepsOrder(d, gs[i], gs[j]);
      ScalingKeepsOrder(d, gs[j], gs[k]);
      ScalingKeepsOrder(d, gs[k], gs[l]);
      ScalingKeepsOrder(d, gs[i], gs[l]);
    }
  }

  lemma ScalingKeepsOrder(d: real, x: real, y: real)
    requires 0.0 < d
    ensures x < y <==> x * d < y * d
  {
    if x < y {
      ProductPositive(y - x, d);
      assert (y - x) * d == y * d - x * d;
    } else {
      ProductNonnegative(x - y, d);
      assert (x - y) * d == x * d - y * d;
    }
  }

  lemma SkewKeepsNoZigzag(e: Point, f: Point, g: Point, ring: seq<Point>)
    requires Orient(e, f, g) != 0.0 && forall u, v :: NoZigzag(Heights(u, v, ring))
    ensures NoZigzag(Ys(Skewed(e, f, g, ring)))
  {
    var d, ys := Orient(e, f, g), Ys(Skewed(e, f, g, ring));
    var (u, v) := if 0.0 < d then (e, f) else (f, e);
    var fs := Heights(u, v, ring);
    forall i | 0 <= i < |fs|
      ensures fs[i] == ys[i] * Abs(d)
    {
      OrientRotates(e, f, ring[i]);
      assert ys[i] == Orient(e, f, ring[i]) / d;
      assert ys[i] * d == Orient(e, f, ring[i]);
      assert ys[i] * -d == -(ys[i] * d);
    }
    ScalingKeepsAlternation(Abs(d), fs, ys);
  }

  /** The smallest clip polygon: a zigzag-free list inside a triangle is at most the triangle. */
  lemma TriangleBoundsRing(s: real, e: Point, f: Point, g: Point, ring: seq<Point>)
    requires IsSign(s) && 0.0 < s * Orient(e, f, g)
    requires AllInside(s, e, f, ring) && AllInside(s, f, g, ring) && AllInside(s, g, e, ring)
    requires forall u, v :: NoZigzag(Heights(u, v, ring))
    ensures Abs(Shoelace(ring)) <= s * Orient(e, f, g)
  {
    hide Orient, Shoelace, Skew;
    var d, image := Orient(e, f, g), Skewed(e, f, g, ring);
    SkewScalesShoelace(e, f, g, ring);
    SkewKeepsNoZigzag(e, f, g, ring);
    forall i | 0 <= i < |image|
      ensures InUnitTriangle(image[i])
    {
      assert ring[i] in ring;
      SkewInUnitTriangle(s, e, f, g, ring[i]);
    }
    UnitTriangleBound(image);
    ProductBound(d, Shoelace(image));
  }

  lemma ProductBound(d: real, r: real)
    requires Abs(r) <= 1.0
    ensures Abs(d * r) <= Abs(d)
  {
    ProductNonnegative(Abs(d), 1.0 - r);
    ProductNonnegative(Abs(d), 1.0 + r);
    assert Abs(d) * (1.0 - r) == Abs(d) - Abs(d) * r;
    assert Abs(d) * (1.0 + r) == Abs(d) + Abs(d) * r;
    assert d * r == Abs(d) * r || d * r == -(Abs(d) * r);
  }

  lemma TwoPointsHaveNoArea(ring: seq<Point>)
    requires |ring| == 2
    ensures Shoelace(ring) == 0.0
  {
    var p, q := ring[0], ring[1];
    var back := [q, p];
    assert ring + [p] == [p] + back;
    assert PathSum(back) == Cross(q, p) by {
      assert back[1..] == [p];
    }
    assert PathSum([p] + back) == Cross(p, q) + PathSum(back) by {
      assert ([p] + back)[1..] == back;
    }
  }

  lemma EarArea(ring: seq<Point>)
    requires 3 <= |ring|
    ensures var n := |ring|;
            Shoelace(ring) == Shoelace(ring[..n - 1]) + Orient(ring[n - 2], ring[n - 1], ring[0])
  {
    var n := |ring|;
    var first, p, q := ring[0], ring[n - 2], ring[n - 1];
    ShoelaceIsFan(first, ring);
    ShoelaceIsFan(first, ring[..n - 1]);
    assert ring + [first] == ring[..n - 2] + [p] + [q, first];
    FanJoins(first, ring[..n - 2], p, [q, first]);
    assert ring[..n - 1] + [first] == ring[..n - 2] + [p] + [first];
    FanJoins(first, ring[..n - 2], p, [first]);
    assert ([p] + [q, first])[1..] == [q, first] && [q, first][1..] == [first];
    assert ([p] + [first])[1..] == [first];
    OrientRotates(first, p, q);
  }

  lemma NoTurnBack(p: Point, q: Point)
    ensures Orient(p, q, p) == 0.0
  {
  }

  /**
   Any convex list confined to the edges of a strictly convex polygon encloses at most that
   polygon. Induction on the polygon: cut the list along the chord that separates the last
   vertex; one part is confined to the rest of the polygon, the other to the cut-off triangle.
   */
  lemma {:induction false} ClipBoundsRing(s: real, clip: seq<Point>, s': real, ring: seq<Point>)
    requires StrictlyConvex(s, clip) && Convex(s', ring) && Confined(s, Closed(clip), ring)
    ensures Abs(Shoelace(ring)) <= s * Shoelace(clip)
    decreases |clip|
  {
    hide Orient, Shoelace;
    var n := |clip|;
    var first, p, q := clip[0], clip[n - 2], clip[n - 1];
    var path := Closed(clip);
    assert StrictTurn(s, clip, 0, n - 2, n - 1);
    OrientRotates(first, p, q);
    assert path[n - 2] == p && path[n - 1] == q && path[n] == first;
    assert AllInside(s, path[n - 2], path[n - 1], ring) && AllInside(s, path[n - 1], path[n], ring);
    EarArea(clip);
    if n == 3 {
      assert AllInside(s, path[0], path[1], ring);
      TriangleBoundsRing(s, first, p, q, ring);
      TwoPointsHaveNoArea(clip[..2]);
    } else {
      var rest := clip[..n - 1];
      var inner, outer := ClipEdge(s, p, first, ring), ClipEdge(s, first, p, ring);
      assert StrictTurn(s, clip, 0, 1, n - 2);
      NoTurnBack(first, clip[1]);
      ClipConservesArea(s, p, first, ring);
      ClipEdgeKeepsConvex(s', s, p, first, ring);
      ClipEdgeKeepsConvex(s', s, first, p, ring);
      ClipEdgeConfines(s, p, first, ring);
      ClipEdgeConfines(s, first, p, ring);
      TriangleBoundsRing(s, p, q, first, outer);
      assert Confined(s, Closed(rest), inner) by {
        forall i | 0 <= i < |Closed(rest)| - 1
          ensures AllInside(s, Closed(rest)[i], Closed(rest)[i + 1], inner)
        {
          assert AllInside(s, path[i], path[i + 1], ring);
        }
      }
      assert StrictlyConvex(s, rest) by {
        forall i: nat, j: nat, k: nat | i < j < k < |rest|
          ensures StrictTurn(s, rest, i, j, k)
        {
          assert StrictTurn(s, clip, i, j, k);
        }
      }
      ClipBoundsRing(s, rest, s', inner);
      assert s * Shoelace(clip) == s * Shoelace(rest) + s * Orient(p, q, first);
    }
  }

  // ----- the score ---------------------------------------------------------------------

  lemma {:induction false} ClipPathConfines(o: real, path: seq<Point>, ring: seq<Point>)
    requires IsSign(o)
    ensures Confined(o, path, ClipPath(o, path, ring))
    ensures forall o', u, v :: IsSign(o') && AllInside(o', u, v, ring) ==> AllInside(o', u, v, ClipPath(o, path, ring))
    decreases path
  {
    if |path| >= 2 {
      var kept := ClipEdge(o, path[0], path[1], ring);
      ClipEdgeConfines(o, path[0], path[1], ring);
      ClipPathConfines(o, path[1..], kept);
      forall i | 0 <= i < |path| - 1
        ensures AllInside(o, path[i], path[i + 1], ClipPath(o, path, ring))
      {
        if i > 0 {
          assert path[1..][i - 1] == path[i] && path[1..][i] == path[i + 1];
        }
      }
    }
  }

  /**
   Every vertex the clipper returns lies on the kept side of every clip edge, and of every line
   that had the whole subject on one side; no convexity is needed.
   */
  lemma IntersectionConfines(subject: seq<Point>, clip: seq<Point>)
    ensures Confined(Orientation(clip), Closed(clip), Intersection(subject, clip))
    ensures forall o, u, v :: IsSign(o) && AllInside(o, u, v, subject)
              ==> AllInside(o, u, v, Intersection(subject, clip))
  {
    ClipPathConfines(Orientation(clip), Closed(clip), subject);
  }

  lemma {:induction false} StrictArea(s: real, ring: seq<Point>)
    requires StrictlyConvex(s, ring)
    ensures 0.0 < s * Shoelace(ring)
    decreases |ring|
  {
    var n := |ring|;
    var rest, ear := ring[..n - 1], Orient(ring[n - 2], ring[n - 1], ring[0]);
    EarArea(ring);
    assert StrictTurn(s, ring, 0, n - 2, n - 1);
    OrientRotates(ring[0], ring[n - 2], ring[n - 1]);
    if n == 3 {
      TwoPointsHaveNoArea(rest);
    } else {
      forall i: nat, j: nat, k: nat | i < j < k < |rest|
        ensures StrictTurn(s, rest, i, j, k)
      {
        assert StrictTurn(s, ring, i, j, k);
      }
      StrictArea(s, rest);
    }
    assert s * Shoelace(ring) == s * Shoelace(rest) + s * ear;
  }

  lemma AcceptedArea(s: real, ring: seq<Point>)
    requires AcceptedPolygon(s, ring)
    ensures StrictlyConvex(s, ring) && Convex(s, ring) && Orientation(ring) == s
    ensures 0.0 < Area(ring) && Area(ring) == s * Shoelace(ring) / 2.0
  {
    AcceptedIsStrictlyConvex(s, ring);
    StrictlyConvexIsConvex(s, ring);
    StrictArea(s, ring);
  }

  /** The clipped area is at most the area of the subject and at most the area of the clip polygon. */
  lemma IntersectionIsBounded(s: real, subject: seq<Point>, s': real, clip: seq<Point>)
    requires AcceptedPolygon(s, subject) && AcceptedPolygon(s', clip)
    ensures Area(Intersection(subject, clip)) <= Area(subject)
    ensures Area(Intersection(subject, clip)) <= Area(clip)
  {
    AcceptedArea(s, subject);
    AcceptedArea(s', clip);
    ClipPathShrinks(s, s', Closed(clip), subject);
    IntersectionConfines(subject, clip);
    ClipBoundsRing(s', clip, s, Intersection(subject, clip));
  }

  lemma ScoreOfAreas(a: real, b: real, i: real)
    requires 0.0 < a && 0.0 < b && 0.0 <= i <= a && i <= b
    ensures 0.0 < a + b - i && 0.0 <= i / (a + b - i) <= 1.0
    ensures a == b == i ==> i / (a + b - i) == 1.0
  {
  }

  /** For accepted polygons, wound either way, the union is positive and the score lies in [0, 1]. */
  lemma IoUIsRatio(s: real, expected: seq<Point>, s': real, predicted: seq<Point>)
    requires AcceptedPolygon(s, expected) && AcceptedPolygon(s', predicted)
    ensures IoU(expected, predicted).Ratio? && 0.0 <= IoU(expected, predicted).value <= 1.0
  {
    hide AcceptedPolygon, Area, Intersection;
    AcceptedArea(s, expected);
    AcceptedArea(s', predicted);
    IntersectionIsBounded(s, expected, s', predicted);
    ScoreOfAreas(Area(expected), Area(predicted), Area(Intersection(expected, predicted)));
  }

  lemma {:induction false} ClipPathInside(o: real, path: seq<Point>, ring: seq<Point>)
    requires ring != [] && Confined(o, path, ring)
    ensures ClipPath(o, path, ring) == ring
    decreases path
  {
    if |path| >= 2 {
      assert AllInside(o, path[0], path[1], ring);
      AllInsideKeepsAll(o, path[0], path[1], ring[|ring| - 1], ring);
      forall i | 0 <= i < |path[1..]| - 1
        ensures AllInside(o, path[1..][i], path[1..][i + 1], ring)
      {
        assert AllInside(o, path[i + 1], path[i + 2], ring);
      }
      ClipPathInside(o, path[1..], ring);
    }
  }

  lemma SelfConfined(s: real, ring: seq<Point>)
    requires AcceptedPolygon(s, ring)
    ensures Confined(s, Closed(ring), ring)
  {
    var path := Closed(ring);
    forall i | 0 <= i < |path| - 1
      ensures AllInside(s, path[i], path[i + 1], ring)
    {
      forall v | v in ring
        ensures Inside(s, path[i], path[i + 1], v)
      {
        var j :| 0 <= j < |ring| && ring[j] == v;
        assert SidesWith(s, ring, i, j);
      }
    }
  }

  /** Clipping an accepted polygon by itself changes nothing, so identical geometry scores exactly one. */
  lemma IdenticalScoresOne(s: real, ring: seq<Point>)
    requires AcceptedPolygon(s, ring)
    ensures Intersection(ring, ring) == ring && IoU(ring, ring) == Ratio(1.0)
  {
    AcceptedArea(s, ring);
    SelfConfined(s, ring);
    ClipPathInside(s, Closed(ring), ring);
    ScoreOfAreas(Area(ring), Area(ring), Area(ring));
  }

  lemma PathStep(p: Point, q: Point, more: seq<Point>)
    ensures PathSum([p, q] + more) == Cross(p, q) + PathSum([q] + more)
  {
    assert ([p, q] + more)[1..] == [q] + more;
  }

  const P0 := Point(0.0, 0.0)
  const P1 := Point(1.0, 0.0)
  const P2 := Point(0.0, 1.0)
  const TRIANGLE := [P0, P1, P2]
  const TWICE := [P0, P1, P2, P0, P1, P2]

  lemma TriangleAreas()
    ensures Shoelace(TRIANGLE) == 1.0 && Shoelace(TWICE) == 2.0
  {
    PathStep(P2, P0, []);
    PathStep(P1, P2, [P0]);
    PathStep(P0, P1, [P2, P0]);
    PathStep(P2, P0, [P1, P2, P0]);
    PathStep(P1, P2, [P0, P1, P2, P0]);
    PathStep(P0, P1, [P2, P0, P1, P2, P0]);
    assert TRIANGLE + [P0] == [P0, P1] + [P2, P0] && TWICE + [P0] == [P0, P1] + [P2, P0, P1, P2, P0];
    assert [P1] + [P2, P0] == [P1, P2] + [P0] && [P2] + [P0] == [P2, P0] + [];
    assert [P1] + [P2, P0, P1, P2, P0] == [P1, P2] + [P0, P1, P2, P0];
    assert [P2] + [P0, P1, P2, P0] == [P2, P0] + [P1, P2, P0];
    assert [P0] + [P1, P2, P0] == [P0, P1] + [P2, P0];
  }

  lemma TriangleOrients(i: nat, j: nat)
    requires i < 3 && j < 3
    ensures Orient(TRIANGLE[i], TRIANGLE[Next(3, i)], TRIANGLE[j]) == if j == Next(3, Next(3, i)) then 1.0 else 0.0
  {
  }

  lemma TriangleIsAccepted()
    ensures AcceptedPolygon(1.0, TRIANGLE)
  {
    hide Orient;
    forall i: nat | i < 3 ensures TurnsAt(1.0, TRIANGLE, i) {
      TriangleOrients(i, Next(3, Next(3, i)));
    }
    forall i: nat, j: nat | i < 3 && j < 3 ensures SidesWith(1.0, TRIANGLE, i, j) {
      TriangleOrients(i, j);
    }
  }

  function Once(i: nat): (k: nat)
    requires i < 6
    ensures k < 3 && TWICE[i] == TRIANGLE[k]
    ensures TWICE[Next(6, i)] == TRIANGLE[Next(3, k)]
  {
    if i < 3 then i else i - 3
  }

  /**
   Turns and one-sidedness alone do not bound the score: a triangle listed twice over meets both,
   and compared with the same triangle listed once it scores two.
   */
  lemma DoubledTriangleScoresTwo()
    ensures AcceptedPolygon(1.0, TRIANGLE)
    ensures forall i: nat | i < 6 :: TurnsAt(1.0, TWICE, i)
    ensures forall i: nat, j: nat | i < 6 && j < 6 :: SidesWith(1.0, TWICE, i, j)
    ensures IoU(TWICE, TRIANGLE) == Ratio(2.0)
  {
    TriangleIsAccepted();
    forall i: nat | i < 6
      ensures TurnsAt(1.0, TWICE, i)
    {
      assert TurnsAt(1.0, TRIANGLE, Once(i));
      assert TWICE[Next(6, Next(6, i))] == TRIANGLE[Next(3, Once(Next(6, i)))];
      assert Once(Next(6, i)) == Next(3, Once(i));
    }
    forall i: nat, j: nat | i < 6 && j < 6
      ensures SidesWith(1.0, TWICE, i, j)
    {
      assert SidesWith(1.0, TRIANGLE, Once(i), Once(j));
    }
    DoubledTriangleOverlap();
  }

  lemma DoubledTriangleOverlap()
    ensures IoU(TWICE, TRIANGLE) == Ratio(2.0)
  {
    TriangleIsAccepted();
    SelfConfined(1.0, TRIANGLE);
    AcceptedArea(1.0, TRIANGLE);
    var path := Closed(TRIANGLE);
    forall i | 0 <= i < |path| - 1
      ensures AllInside(1.0, path[i], path[i + 1], TWICE)
    {
      assert AllInside(1.0, path[i], path[i + 1], TRIANGLE);
      assert forall v :: v in TWICE ==> v in TRIANGLE;
    }
    ClipPathInside(1.0, path, TWICE);
    TriangleAreas();
  }
}
