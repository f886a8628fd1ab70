/** The clipper returns no too small intersection: nothing convex inside both polygons is larger. */
module ClipMaximality {
  import opened Geometry
  import opened ConvexRings
  import opened Clipping
  import opened TriangleBound
  import opened ConvexPolygons
  import opened PolygonIoU

  /** The list has two different points. */
  ghost predicate Spread(ring: seq<Point>) {
    exists i, j :: 0 <= i < j < |ring| && ring[i] != ring[j]
  }

  // ----- a convex list bounds what is confined to it -----------------------------------

  lemma {:induction false} FlatFan(p: Point, q: Point, path: seq<Point>)
    requires p != q && forall v :: v in path ==> Orient(p, q, v) == 0.0
    ensures FanSum(p, path) == 0.0
  {
    if |path| >= 2 {
      assert Orient(p, q, p) == 0.0;
      Collinear(p, q, p, path[0], path[1]);
      FlatFan(p, q, path[1..]);
    }
  }

  /** Points of one line enclose nothing. */
  lemma FlatRing(p: Point, q: Point, ring: seq<Point>)
    requires p != q && forall v :: v in ring ==> Orient(p, q, v) == 0.0
    ensures Shoelace(ring) == 0.0
  {
    if ring != [] {
      ShoelaceIsFan(p, ring);
      FlatFan(p, q, ring + [ring[0]]);
    }
  }

  lemma BothSidesAreFlat(s: real, p: Point, q: Point, ring: seq<Point>)
    requires IsSign(s) && p != q && AllInside(s, p, q, ring) && AllInside(s, q, p, ring)
    ensures Shoelace(ring) == 0.0
  {
    forall v | v in ring
      ensures Orient(p, q, v) == 0.0
    {
      OrientRotates(p, q, v);
      OrientRotates(q, p, v);
      assert Inside(s, p, q, v) && Inside(s, q, p, v);
    }
    FlatRing(p, q, ring);
  }

  lemma ChordConfines(s: real, p: Point, q: Point, r: Point, ring: seq<Point>)
    requires IsSign(s) && Orient(p, q, r) == 0.0 && AllInside(s, p, q, ring) && AllInside(s, q, r, ring)
    ensures AllInside(s, p, r, ring)
  {
    forall v | v in ring
      ensures Inside(s, p, r, v)
    {
      assert Orient(p, r, v) == Orient(p, q, v) + Orient(q, r, v) - Orient(p, q, r);
      assert Inside(s, p, q, v) && Inside(s, q, r, v);
    }
  }

  lemma RestConfines(s: real, bound: seq<Point>, ring: seq<Point>)
    requires 2 <= |bound| && (forall i | 0 <= i < |bound| - 2 :: AllInside(s, bound[i], bound[i + 1], ring))
    requires AllInside(s, bound[|bound| - 2], bound[0], ring)
    ensures Confined(s, Closed(bound[..|bound| - 1]), ring)
  {
    var path := Closed(bound[..|bound| - 1]);
    forall i | 0 <= i < |path| - 1
      ensures AllInside(s, path[i], path[i + 1], ring)
    {
      if i < |bound| - 2 {
        assert AllInside(s, bound[i], bound[i + 1], ring);
      }
    }
  }

  /** The ear of the last vertex: a triangle with the points of the list on its inner sides. */
  ghost predicate InEar(s: real, bound: seq<Point>, ring: seq<Point>)
    requires 3 <= |bound|
  {
    var first, p, q := bound[0], bound[|bound| - 2], bound[|bound| - 1];
    0.0 < s * Orient(p, q, first) && AllInside(s, p, q, ring) && AllInside(s, q, first, ring) && AllInside(s, first, p, ring)
  }

  /** Cutting a confined list along the chord before the last vertex: one part is confined to the rest, one to the ear. */
  lemma CutChord(s: real, bound: seq<Point>, s': real, ring: seq<Point>) returns (inner: seq<Point>, outer: seq<Point>)
    requires IsSign(s) && 3 <= |bound| && Convex(s, bound) && Spread(bound)
    requires Convex(s', ring) && Confined(s, Closed(bound), ring) && Shoelace(ring) != 0.0
    ensures Convex(s', inner) && Convex(s', outer) && Shoelace(ring) == Shoelace(inner) + Shoelace(outer)
    ensures forall o, u, v :: IsSign(o) && AllInside(o, u, v, ring) ==> AllInside(o, u, v, inner) && AllInside(o, u, v, outer)
    ensures var rest := bound[..|bound| - 1];
      Convex(s, rest) && Spread(rest) && Confined(s, Closed(rest), inner) && (outer == [] || InEar(s, bound, outer))
  {
    hide Orient, Shoelace;
    var n := |bound|;
    var first, p, q, path := bound[0], bound[n - 2], bound[n - 1], Closed(bound);
    assert path[n - 2] == p && path[n - 1] == q && path[n] == first;
    assert AllInside(s, path[n - 2], path[n - 1], ring) && AllInside(s, path[n - 1], path[n], ring);
    forall i | 0 <= i < n - 2
      ensures AllInside(s, bound[i], bound[i + 1], ring)
    {
      assert AllInside(s, path[i], path[i + 1], ring);
    }
    RemoveKeepsConvex(s, bound, n - 1);
    assert RemoveAt(bound, n - 1) == bound[..n - 1];
    TripleWeak(s, bound, 0, n - 2, n - 1);
    OrientRotates(first, p, q);
    if 0.0 < s * Orient(p, q, first) {
      NoTurnBack(p, q);
      inner, outer := ClipEdge(s, p, first, ring), ClipEdge(s, first, p, ring);
      ClipConservesArea(s, p, first, ring);
      ClipEdgeKeepsConvex(s', s, p, first, ring);
      ClipEdgeKeepsConvex(s', s, first, p, ring);
      ClipEdgeConfines(s, p, first, ring);
      ClipEdgeConfines(s, first, p, ring);
      assert bound[..n - 1][0] != bound[..n - 1][n - 2];
    } else {
      assert Orient(p, q, first) == 0.0;
      if p == first && q != first {
        BothSidesAreFlat(s, p, q, ring);
        assert false;
      }
      inner, outer := ring, [];
      ChordConfines(s, p, q, first, ring);
      SpreadWithoutLast(bound);
      NoPointsAreConvex(s');
    }
    RestConfines(s, bound, inner);
  }

  lemma NoPointsAreConvex(s: real)
    ensures Convex(s, []) && Shoelace([]) == 0.0
  {
  }

  lemma SpreadWithoutLast(ring: seq<Point>)
    requires 3 <= |ring| && Spread(ring) && (ring[|ring| - 2] == ring[0] ==> ring[|ring| - 1] == ring[0])
    ensures Spread(ring[..|ring| - 1])
  {
    var n := |ring|;
    var rest := ring[..n - 1];
    var i, j :| 0 <= i < j < n && ring[i] != ring[j];
    if rest[0] == rest[n - 2] {
      if j == n - 1 {
        assert rest[0] != rest[i];
      } else {
        assert rest[i] != rest[j];
      }
    }
  }

  /** A convex list encloses at least what any convex list confined to its steps encloses. */
  lemma {:induction false} ConvexListBounds(s: real, bound: seq<Point>, s': real, ring: seq<Point>)
    requires IsSign(s) && Convex(s, bound) && Spread(bound) && Convex(s', ring) && Confined(s, Closed(bound), ring)
    ensures Abs(Shoelace(ring)) <= s * Shoelace(bound)
    decreases |bound|
  {
    hide Orient, Shoelace;
    var n := |bound|;
    ConvexArea(s, bound);
    if n == 2 {
      TwoEdgesAreFlat(s, bound, ring);
    } else if Shoelace(ring) != 0.0 {
      var inner, outer := CutChord(s, bound, s', ring);
      var rest, ear := bound[..n - 1], Orient(bound[n - 2], bound[n - 1], bound[0]);
      EarArea(bound);
      ConvexListBounds(s, rest, s', inner);
      EarBounds(s, bound, s', outer);
      assert s * Shoelace(bound) == s * Shoelace(rest) + s * ear;
    }
  }

  lemma EarBounds(s: real, bound: seq<Point>, s': real, outer: seq<Point>)
    requires IsSign(s) && 3 <= |bound| && Convex(s, bound) && Convex(s', outer) && (outer == [] || InEar(s, bound, outer))
    ensures Abs(Shoelace(outer)) <= s * Orient(bound[|bound| - 2], bound[|bound| - 1], bound[0])
  {
    hide Orient;
    var n := |bound|;
    if outer == [] {
      TripleWeak(s, bound, 0, n - 2, n - 1);
      OrientRotates(bound[0], bound[n - 2], bound[n - 1]);
    } else {
      TriangleBoundsRing(s, bound[n - 2], bound[n - 1], bound[0], outer);
    }
  }

  lemma TwoEdgesAreFlat(s: real, bound: seq<Point>, ring: seq<Point>)
    requires IsSign(s) && |bound| == 2 && Spread(bound) && Confined(s, Closed(bound), ring)
    ensures Shoelace(ring) == 0.0
  {
    var path := Closed(bound);
    assert AllInside(s, path[0], path[1], ring) && AllInside(s, path[1], path[2], ring);
    BothSidesAreFlat(s, bound[0], bound[1], ring);
  }

  // ----- a list on the other side of a line --------------------------------------------

  predicate Beyond(o: real, a: Point, b: Point, p: Point) {
    o * Orient(a, b, p) <= 0.0
  }

  lemma WeightedHeights(a: Point, b: Point, e: Point, f: Point, g: Point, v: Point)
    ensures Orient(e, f, g) * Orient(a, b, v)
         == Orient(f, g, v) * Orient(a, b, e) + Orient(g, e, v) * Orient(a, b, f) + Orient(e, f, v) * Orient(a, b, g)
  {
    hide Orient;
    FourPoints(a, b, e, f, g, v);
    OrientRotates(e, g, v);
    OrientRotates(g, e, v);
  }

  lemma BeyondInTriangle(s: real, e: Point, f: Point, g: Point, v: Point, o: real, a: Point, b: Point)
    requires IsSign(s) && IsSign(o) && 0.0 < s * Orient(e, f, g)
    requires Inside(s, e, f, v) && Inside(s, f, g, v) && Inside(s, g, e, v)
    requires Beyond(o, a, b, e) && Beyond(o, a, b, f) && Beyond(o, a, b, g)
    ensures Beyond(o, a, b, v)
  {
    WeightedHeights(a, b, e, f, g, v);
    WeightsKeepSign(s, o, Orient(e, f, g), Orient(f, g, v), Orient(g, e, v), Orient(e, f, v),
                    Orient(a, b, e), Orient(a, b, f), Orient(a, b, g), Orient(a, b, v));
  }

  lemma WeightsKeepSign(s: real, o: real, d: real, x: real, y: real, z: real, p: real, q: real, r: real, h: real)
    requires IsSign(s) && IsSign(o) && 0.0 < s * d && 0.0 <= s * x && 0.0 <= s * y && 0.0 <= s * z
    requires o * p <= 0.0 && o * q <= 0.0 && o * r <= 0.0 && d * h == x * p + y * q + z * r
    ensures o * h <= 0.0
  {
    ProductNonnegative(s * x, -(o * p));
    ProductNonnegative(s * y, -(o * q));
    ProductNonnegative(s * z, -(o * r));
    assert (s * d) * (o * h) == (s * x) * (o * p) + (s * y) * (o * q) + (s * z) * (o * r) by {
      SignedProduct(s, o, d, h);
      SignedProduct(s, o, x, p);
      SignedProduct(s, o, y, q);
      SignedProduct(s, o, z, r);
      assert s * o * (d * h) == s * o * (x * p) + s * o * (y * q) + s * o * (z * r);
    }
    if 0.0 < o * h {
      ProductPositive(s * d, o * h);
    }
  }

  lemma SignedProduct(s: real, o: real, x: real, p: real)
    requires IsSign(s) && IsSign(o)
    ensures (s * x) * (o * p) == s * o * (x * p)
  {
  }

  /** What is confined to a convex list on one side of a line, but lies on the other, encloses nothing. */
  lemma {:induction false} BeyondEnclosesNothing(s: real, bound: seq<Point>, s': real, ring: seq<Point>,
                                                 o: real, a: Point, b: Point)
    requires IsSign(s) && Convex(s, bound) && Spread(bound) && Convex(s', ring) && Confined(s, Closed(bound), ring)
    requires IsSign(o) && a != b && AllInside(o, a, b, ring) && forall r :: r in bound ==> Beyond(o, a, b, r)
    ensures Shoelace(ring) == 0.0
    decreases |bound|
  {
    hide Orient, Shoelace;
    var n := |bound|;
    if n == 2 {
      TwoEdgesAreFlat(s, bound, ring);
    } else if Shoelace(ring) != 0.0 {
      var inner, outer := CutChord(s, bound, s', ring);
      BeyondEnclosesNothing(s, bound[..n - 1], s', inner, o, a, b);
      forall v | v in outer
        ensures Orient(a, b, v) == 0.0
      {
        var first, p, q := bound[0], bound[n - 2], bound[n - 1];
        assert Inside(s, p, q, v) && Inside(s, q, first, v) && Inside(s, first, p, v) && Inside(o, a, b, v);
        BeyondInTriangle(s, p, q, first, v, o, a, b);
      }
      FlatRing(a, b, outer);
    }
  }

  // ----- a clip pass keeps the list confined -------------------------------------------

  /** Where exactly one of two neighbours is inside, it lies on the clip line. */
  predicate MeetsLine(o: real, a: Point, b: Point, u: Point, v: Point) {
    && (Inside(o, a, b, u) && !Inside(o, a, b, v) ==> Orient(a, b, u) == 0.0)
    && (Inside(o, a, b, v) && !Inside(o, a, b, u) ==> Orient(a, b, v) == 0.0)
  }

  ghost predicate Refined(o: real, a: Point, b: Point, path: seq<Point>) {
    forall i :: 0 <= i < |path| - 1 ==> MeetsLine(o, a, b, path[i], path[i + 1])
  }

  lemma HalfSteps(s: real, p: Point, q: Point, t: real, ring: seq<Point>)
    requires IsSign(s) && 0.0 <= t <= 1.0 && AllInside(s, p, q, ring)
    ensures AllInside(s, p, Lerp(p, q, t), ring) && AllInside(s, Lerp(p, q, t), q, ring)
  {
    hide Orient, Lerp;
    var x := Lerp(p, q, t);
    forall v | v in ring
      ensures Inside(s, p, x, v) && Inside(s, x, q, v)
    {
      assert Inside(s, p, q, v);
      SplitHeights(p, q, t, v);
      ProductNonnegative(t, s * Orient(p, q, v));
      ProductNonnegative(1.0 - t, s * Orient(p, q, v));
      assert s * (t * Orient(p, q, v)) == t * (s * Orient(p, q, v));
      assert s * ((1.0 - t) * Orient(p, q, v)) == (1.0 - t) * (s * Orient(p, q, v));
    }
  }

  lemma SplitHeights(p: Point, q: Point, t: real, v: Point)
    ensures Orient(p, Lerp(p, q, t), v) == t * Orient(p, q, v)
    ensures Orient(Lerp(p, q, t), q, v) == (1.0 - t) * Orient(p, q, v)
  {
    var x := Lerp(p, q, t);
    OrientLerp(v, p, p, q, t);
    OrientLerp(q, v, p, q, t);
    OrientRotates(v, p, x);
    OrientRotates(v, p, q);
    OrientRotates(q, v, x);
    OrientRotates(q, v, p);
    assert Orient(v, p, p) == 0.0 && Orient(q, v, q) == 0.0;
    assert Orient(p, q, v) + t * (0.0 - Orient(p, q, v)) == (1.0 - t) * Orient(p, q, v);
  }

  lemma StepThenPath(s: real, o: real, a: Point, b: Point, p: Point, path: seq<Point>, ring: seq<Point>)
    requires path != [] && AllInside(s, p, path[0], ring) && Confined(s, path, ring)
    requires MeetsLine(o, a, b, p, path[0]) && Refined(o, a, b, path)
    ensures Confined(s, [p] + path, ring) && Refined(o, a, b, [p] + path)
  {
    var all := [p] + path;
    forall i | 0 <= i < |all| - 1
      ensures AllInside(s, all[i], all[i + 1], ring) && MeetsLine(o, a, b, all[i], all[i + 1])
    {
      if i > 0 {
        assert AllInside(s, path[i - 1], path[i], ring) && MeetsLine(o, a, b, path[i - 1], path[i]);
      }
    }
  }

  lemma {:induction false} RefineConfines(s: real, o: real, a: Point, b: Point, prev: Point, rest: seq<Point>, ring: seq<Point>)
    requires IsSign(s) && IsSign(o) && Confined(s, [prev] + rest, ring)
    ensures var path := [prev] + RefineFrom(o, a, b, prev, rest);
      Confined(s, path, ring) && Refined(o, a, b, path) && path[|path| - 1] == ([prev] + rest)[|rest|]
    decreases rest
  {
    hide Orient, LineIntersection, Lerp, CrossingFraction;
    if rest != [] {
      var cur, path := rest[0], [prev] + rest;
      assert AllInside(s, path[0], path[1], ring);
      forall i | 0 <= i < |[cur] + rest[1..]| - 1
        ensures AllInside(s, ([cur] + rest[1..])[i], ([cur] + rest[1..])[i + 1], ring)
      {
        assert AllInside(s, path[i + 1], path[i + 2], ring);
      }
      RefineConfines(s, o, a, b, cur, rest[1..], ring);
      var more := [cur] + RefineFrom(o, a, b, cur, rest[1..]);
      if Inside(o, a, b, prev) != Inside(o, a, b, cur) {
        var x := LineIntersection(prev, cur, a, b);
        CrossingIsOnSegment(o, a, b, prev, cur);
        HalfSteps(s, prev, cur, CrossingFraction(prev, cur, a, b), ring);
        StepThenPath(s, o, a, b, x, more, ring);
        StepThenPath(s, o, a, b, prev, [x] + more, ring);
        assert [prev] + RefineFrom(o, a, b, prev, rest) == [prev] + ([x] + more);
      } else {
        StepThenPath(s, o, a, b, prev, more, ring);
        assert [prev] + RefineFrom(o, a, b, prev, rest) == [prev] + more;
      }
    }
  }

  /** Heights over two directed lines that are one line are proportional. */
  lemma SameLineHeights(a: Point, b: Point, u: Point, v: Point, w: Point, x: Point)
    requires a != b && Orient(a, b, u) == 0.0 && Orient(a, b, v) == 0.0
    ensures Orient(a, b, x) * Orient(u, v, w) == Orient(a, b, w) * Orient(u, v, x)
  {
    assert Orient(a, b, a) == 0.0 && Orient(a, b, b) == 0.0;
    Collinear(a, b, u, v, a);
    Collinear(a, b, u, v, b);
    FourPoints(u, v, a, b, w, x);
  }

  lemma OpposedHeights(s: real, o: real, hx: real, gw: real, hw: real, gx: real)
    requires IsSign(s) && IsSign(o) && hx * gw == hw * gx
    requires 0.0 <= o * hx && s * gw <= 0.0 && o * hw < 0.0
    ensures 0.0 <= s * gx
  {
    ProductNonnegative(o * hx, -(s * gw));
    SignedProduct(o, s, hx, gw);
    SignedProduct(o, s, hw, gx);
    if s * gx < 0.0 {
      ProductPositive(-(o * hw), -(s * gx));
    }
  }

  lemma ProperLine(a: Point, w: Point)
    ensures Orient(a, a, w) == 0.0
  {
  }

  /** The new edge between where the list leaves and where it returns runs the right way. */
  lemma AlongTheLine(s: real, o: real, a: Point, b: Point, u: Point, w: Point, v: Point, ring: seq<Point>)
    requires IsSign(s) && IsSign(o) && AllInside(o, a, b, ring) && !Inside(o, a, b, w)
    requires Orient(a, b, u) == 0.0 && Orient(a, b, v) == 0.0 && 0.0 <= s * Orient(u, w, v)
    ensures AllInside(s, u, v, ring)
  {
    hide Orient;
    ProperLine(a, w);
    OrientRotates(w, v, u);
    OrientRotates(v, u, w);
    forall x | x in ring
      ensures Inside(s, u, v, x)
    {
      assert Inside(o, a, b, x);
      SameLineHeights(a, b, u, v, w, x);
      OpposedHeights(s, o, Orient(a, b, x), Orient(u, v, w), Orient(a, b, w), Orient(u, v, x));
    }
  }

  /** A list whose steps meet the clip line in a vertex, and all of whose steps confine the other list. */
  ghost predicate Ready(s: real, o: real, a: Point, b: Point, bound: seq<Point>, ring: seq<Point>) {
    && IsSign(s) && IsSign(o) && TriplesTurn(s, bound) && AllInside(o, a, b, ring)
    && Confined(s, Closed(bound), ring) && Refined(o, a, b, Closed(bound))
  }

  lemma ReadyStep(s: real, o: real, a: Point, b: Point, bound: seq<Point>, ring: seq<Point>, i: nat)
    requires Ready(s, o, a, b, bound, ring) && i < |bound|
    ensures var next := bound[Next(|bound|, i)]; AllInside(s, bound[i], next, ring) && MeetsLine(o, a, b, bound[i], next)
  {
    var path := Closed(bound);
    assert AllInside(s, path[i], path[i + 1], ring) && MeetsLine(o, a, b, path[i], path[i + 1]);
  }

  lemma KeptStep(s: real, o: real, a: Point, b: Point, bound: seq<Point>, ring: seq<Point>, i: nat, j: nat)
    requires Ready(s, o, a, b, bound, ring) && i < j < |bound| && Inside(o, a, b, bound[i]) && Inside(o, a, b, bound[j])
    requires forall m :: i < m < j ==> !Inside(o, a, b, bound[m])
    ensures AllInside(s, bound[i], bound[j], ring)
  {
    hide Orient, Ready, AllInside;
    ReadyStep(s, o, a, b, bound, ring, i);
    if i + 1 < j {
      ReadyStep(s, o, a, b, bound, ring, j - 1);
      TurnOf(s, o, a, b, bound, ring, i, i + 1, j);
      ReadySides(s, o, a, b, bound, ring);
      AlongTheLine(s, o, a, b, bound[i], bound[i + 1], bound[j], ring);
    }
  }

  lemma TurnOf(s: real, o: real, a: Point, b: Point, bound: seq<Point>, ring: seq<Point>, i: nat, j: nat, k: nat)
    requires Ready(s, o, a, b, bound, ring) && i < j < k < |bound|
    ensures 0.0 <= s * Orient(bound[i], bound[j], bound[k])
  {
    assert Turns(s, bound, i, j, k);
  }

  lemma ReadySides(s: real, o: real, a: Point, b: Point, bound: seq<Point>, ring: seq<Point>)
    requires Ready(s, o, a, b, bound, ring)
    ensures IsSign(s) && IsSign(o) && AllInside(o, a, b, ring)
  {
  }

  lemma PointConfines(s: real, p: Point, ring: seq<Point>)
    ensures AllInside(s, p, p, ring)
  {
    forall v | v in ring
      ensures Inside(s, p, p, v)
    {
      assert Orient(p, p, v) == 0.0;
    }
  }

  lemma ClosingStep(s: real, o: real, a: Point, b: Point, bound: seq<Point>, ring: seq<Point>, i: nat, j: nat)
    requires Ready(s, o, a, b, bound, ring) && j <= i < |bound| && Inside(o, a, b, bound[i]) && Inside(o, a, b, bound[j])
    requires forall m :: 0 <= m < j || i < m < |bound| ==> !Inside(o, a, b, bound[m])
    ensures AllInside(s, bound[i], bound[j], ring)
  {
    hide Orient, Ready, AllInside;
    var n := |bound|;
    ReadySides(s, o, a, b, bound, ring);
    ReadyStep(s, o, a, b, bound, ring, i);
    if i == j {
      PointConfines(s, bound[i], ring);
    } else if i < n - 1 || j > 0 {
      ReadyStep(s, o, a, b, bound, ring, if j > 0 then j - 1 else n - 1);
      var w := if i < n - 1 then i + 1 else 0;
      OrientRotates(bound[i], bound[w], bound[j]);
      if i < n - 1 {
        TurnOf(s, o, a, b, bound, ring, j, i, w);
      } else {
        TurnOf(s, o, a, b, bound, ring, w, j, i);
      }
      AlongTheLine(s, o, a, b, bound[i], bound[w], bound[j], ring);
    }
  }

  lemma {:induction false} KeptFrom(s: real, o: real, a: Point, b: Point, bound: seq<Point>, ring: seq<Point>,
                                    i: nat, k: nat, j: nat)
    requires Ready(s, o, a, b, bound, ring) && j <= i < k <= |bound|
    requires Inside(o, a, b, bound[i]) && Inside(o, a, b, bound[j])
    requires forall m :: 0 <= m < j || i < m < k ==> !Inside(o, a, b, bound[m])
    ensures Confined(s, [bound[i]] + KeepInside(o, a, b, bound[k..]) + [bound[j]], ring)
    decreases |bound| - k
  {
    hide Ready, Inside, AllInside;
    if k == |bound| {
      ClosingStep(s, o, a, b, bound, ring, i, j);
    } else if Inside(o, a, b, bound[k]) {
      KeptStep(s, o, a, b, bound, ring, i, k);
      KeptFrom(s, o, a, b, bound, ring, k, k + 1, j);
      var path := [bound[k]] + KeepInside(o, a, b, bound[k + 1..]) + [bound[j]];
      assert bound[k..][1..] == bound[k + 1..];
      assert [bound[i]] + KeepInside(o, a, b, bound[k..]) + [bound[j]] == [bound[i]] + path;
      forall m | 0 <= m < |[bound[i]] + path| - 1
        ensures AllInside(s, ([bound[i]] + path)[m], ([bound[i]] + path)[m + 1], ring)
      {
        if m > 0 {
          assert AllInside(s, path[m - 1], path[m], ring);
        }
      }
    } else {
      KeptFrom(s, o, a, b, bound, ring, i, k + 1, j);
      assert bound[k..][1..] == bound[k + 1..];
      assert KeepInside(o, a, b, bound[k..]) == KeepInside(o, a, b, bound[k + 1..]);
    }
  }

  lemma {:induction false} KeptConfines(s: real, o: real, a: Point, b: Point, bound: seq<Point>, ring: seq<Point>, k: nat)
    requires Ready(s, o, a, b, bound, ring) && k <= |bound| && forall m :: 0 <= m < k ==> !Inside(o, a, b, bound[m])
    ensures Confined(s, Closed(KeepInside(o, a, b, bound[k..])), ring)
    decreases |bound| - k
  {
    hide Ready, Inside, AllInside;
    if k < |bound| {
      assert bound[k..][1..] == bound[k + 1..];
      if Inside(o, a, b, bound[k]) {
        KeptFrom(s, o, a, b, bound, ring, k, k + 1, k);
        assert Closed(KeepInside(o, a, b, bound[k..])) == [bound[k]] + KeepInside(o, a, b, bound[k + 1..]) + [bound[k]];
      } else {
        KeptConfines(s, o, a, b, bound, ring, k + 1);
        assert KeepInside(o, a, b, bound[k..]) == KeepInside(o, a, b, bound[k + 1..]);
      }
    }
  }

  /** The list with its last point also in front: the closing step comes first instead of last. */
  function Loop(bound: seq<Point>): seq<Point>
    requires bound != []
  {
    [bound[|bound| - 1]] + bound
  }

  lemma LoopStep(bound: seq<Point>, i: nat)
    requires i < |bound|
    ensures |Loop(bound)| == |Closed(bound)| == |bound| + 1
    ensures Closed(bound)[i] == bound[i] && Closed(bound)[i + 1] == bound[Next(|bound|, i)]
    ensures Loop(bound)[Next(|bound|, i)] == bound[i] && Loop(bound)[Next(|bound|, i) + 1] == bound[Next(|bound|, i)]
  {
  }

  lemma LoopConfines(s: real, bound: seq<Point>, ring: seq<Point>)
    requires bound != []
    ensures Confined(s, Loop(bound), ring) <==> Confined(s, Closed(bound), ring)
  {
    hide AllInside, Loop, Closed;
    var n := |bound|;
    LoopStep(bound, n - 1);
    if Confined(s, Loop(bound), ring) {
      forall i | 0 <= i < n ensures AllInside(s, Closed(bound)[i], Closed(bound)[i + 1], ring) {
        LoopStep(bound, i);
        assert AllInside(s, Loop(bound)[Next(n, i)], Loop(bound)[Next(n, i) + 1], ring);
      }
    }
    if Confined(s, Closed(bound), ring) {
      forall k | 0 <= k < n ensures AllInside(s, Loop(bound)[k], Loop(bound)[k + 1], ring) {
        var i := if k == 0 then n - 1 else k - 1;
        LoopStep(bound, i);
        assert AllInside(s, Closed(bound)[i], Closed(bound)[i + 1], ring);
      }
    }
  }

  lemma LoopIsRefined(o: real, a: Point, b: Point, bound: seq<Point>)
    requires bound != [] && Refined(o, a, b, Loop(bound))
    ensures Refined(o, a, b, Closed(bound))
  {
    hide MeetsLine, Loop, Closed;
    var n := |bound|;
    LoopStep(bound, n - 1);
    forall i | 0 <= i < n ensures MeetsLine(o, a, b, Closed(bound)[i], Closed(bound)[i + 1]) {
      LoopStep(bound, i);
      assert MeetsLine(o, a, b, Loop(bound)[Next(n, i)], Loop(bound)[Next(n, i) + 1]);
    }
  }

  /** A pass loses nothing that lies inside: what was confined to the input, on the kept side, is confined to the output. */
  lemma ClipEdgeKeepsConfined(s: real, o: real, a: Point, b: Point, bound: seq<Point>, ring: seq<Point>)
    requires IsSign(s) && IsSign(o) && Convex(s, bound) && Confined(s, Closed(bound), ring) && AllInside(o, a, b, ring)
    ensures Confined(s, Closed(ClipEdge(o, a, b, bound)), ring)
  {
    hide Inside, LineIntersection;
    if bound != [] {
      var prev := bound[|bound| - 1];
      var refined := RefineFrom(o, a, b, prev, bound);
      LoopConfines(s, bound, ring);
      RefineConfines(s, o, a, b, prev, bound, ring);
      assert ([prev] + refined)[|refined|] == prev;
      assert refined != [];
      LoopConfines(s, refined, ring);
      LoopIsRefined(o, a, b, refined);
      assert [] + bound == bound && [] + refined == refined;
      RefineKeepsConvex(s, o, a, b, [], bound);
      KeptConfines(s, o, a, b, refined, ring, 0);
      assert refined[0..] == refined;
      ClipFromIsFilter(o, a, b, prev, bound);
    }
  }

  // ----- the output of a pass keeps two points -----------------------------------------

  lemma {:induction false} CrossingIsKept(o: real, a: Point, b: Point, prev: Point, rest: seq<Point>, i: nat) returns (x: Point)
    requires IsSign(o) && i < |rest| && Inside(o, a, b, prev) != Inside(o, a, b, rest[i])
    ensures x in ClipFrom(o, a, b, prev, rest) && Orient(a, b, x) == 0.0
    decreases rest
  {
    hide Orient, LineIntersection;
    var cur := rest[0];
    if Inside(o, a, b, prev) != Inside(o, a, b, cur) {
      CrossingIsOnSegment(o, a, b, prev, cur);
      x := LineIntersection(prev, cur, a, b);
      assert x in Emit(o, a, b, prev, cur);
    } else {
      x := CrossingIsKept(o, a, b, cur, rest[1..], i - 1);
    }
  }

  lemma {:induction false} InsideIsKept(o: real, a: Point, b: Point, prev: Point, rest: seq<Point>, i: nat)
    requires i < |rest| && Inside(o, a, b, rest[i])
    ensures rest[i] in ClipFrom(o, a, b, prev, rest)
    decreases rest
  {
    hide LineIntersection;
    if i > 0 {
      InsideIsKept(o, a, b, rest[0], rest[1..], i - 1);
    } else {
      assert rest[0] in Emit(o, a, b, prev, rest[0]);
    }
  }

  lemma TwoMembersSpread(ring: seq<Point>, p: Point, q: Point)
    requires p in ring && q in ring && p != q
    ensures Spread(ring)
  {
    var i :| 0 <= i < |ring| && ring[i] == p;
    var j :| 0 <= j < |ring| && ring[j] == q;
    if i < j {
      assert ring[i] != ring[j];
    } else {
      assert ring[j] != ring[i];
    }
  }

  /** A pass that leaves at most one point had nothing strictly inside. */
  lemma OnePointLeft(o: real, a: Point, b: Point, bound: seq<Point>)
    requires IsSign(o) && Spread(bound) && !Spread(ClipEdge(o, a, b, bound))
    ensures forall r :: r in bound ==> Beyond(o, a, b, r)
  {
    hide LineIntersection;
    var out, prev := ClipEdge(o, a, b, bound), bound[|bound| - 1];
    forall r | r in bound
      ensures Beyond(o, a, b, r)
    {
      if !Beyond(o, a, b, r) {
        var i :| 0 <= i < |bound| && bound[i] == r;
        InsideIsKept(o, a, b, prev, bound, i);
        if k :| 0 <= k < |bound| && !Inside(o, a, b, bound[k]) {
          var j := if Inside(o, a, b, prev) then k else i;
          var x := CrossingIsKept(o, a, b, prev, bound, j);
          TwoMembersSpread(out, r, x);
        } else {
          AllInsideKeepsAll(o, a, b, prev, bound);
        }
      }
    }
  }

  // ----- the clipper's output is the largest -------------------------------------------

  lemma {:induction false} PathKeepsConfined(s: real, o: real, path: seq<Point>, bound: seq<Point>, s': real, ring: seq<Point>)
    requires IsSign(s) && IsSign(o) && Convex(s, bound) && Spread(bound) && Confined(s, Closed(bound), ring)
    requires Convex(s', ring) && Confined(o, path, ring) && Shoelace(ring) != 0.0
    ensures var out := ClipPath(o, path, bound); Convex(s, out) && Spread(out) && Confined(s, Closed(out), ring)
    decreases path
  {
    hide Orient, Shoelace;
    if |path| >= 2 {
      var a, b := path[0], path[1];
      var kept := ClipEdge(o, a, b, bound);
      assert AllInside(o, path[0], path[1], ring);
      ClipEdgeKeepsConvex(s, o, a, b, bound);
      ClipEdgeKeepsConfined(s, o, a, b, bound, ring);
      if !Spread(kept) {
        OnePointLeft(o, a, b, bound);
        if a == b {
          PointConfines(o, a, bound);
          AllInsideKeepsAll(o, a, b, bound[|bound| - 1], bound);
        } else {
          BeyondEnclosesNothing(s, bound, s', ring, o, a, b);
        }
      }
      forall i | 0 <= i < |path[1..]| - 1
        ensures AllInside(o, path[1..][i], path[1..][i + 1], ring)
      {
        assert AllInside(o, path[i + 1], path[i + 2], ring);
      }
      PathKeepsConfined(s, o, path[1..], kept, s', ring);
    }
  }

  /** Nothing convex that lies within both polygons encloses more than the clipper returns. */
  lemma IntersectionIsLargest(s: real, subject: seq<Point>, s': real, clip: seq<Point>, o: real, ring: seq<Point>)
    requires AcceptedPolygon(s, subject) && AcceptedPolygon(s', clip) && Convex(o, ring)
    requires Confined(s, Closed(subject), ring) && Confined(s', Closed(clip), ring)
    ensures Area(ring) <= Area(Intersection(subject, clip))
  {
    hide Orient, Shoelace;
    AcceptedArea(s, subject);
    AcceptedArea(s', clip);
    if Shoelace(ring) != 0.0 {
      assert subject[0] != subject[1];
      PathKeepsConfined(s, s', Closed(clip), subject, o, ring);
      ConvexListBounds(s, Intersection(subject, clip), o, ring);
    }
  }

  lemma IntersectionInBoth(s: real, subject: seq<Point>, s': real, clip: seq<Point>)
    requires AcceptedPolygon(s, subject) && AcceptedPolygon(s', clip)
    ensures var out := Intersection(subject, clip);
      Convex(s, out) && Confined(s, Closed(subject), out) && Confined(s', Closed(clip), out)
  {
    var out, path := Intersection(subject, clip), Closed(subject);
    AcceptedArea(s, subject);
    AcceptedArea(s', clip);
    ClipPathShrinks(s, s', Closed(clip), subject);
    IntersectionConfines(subject, clip);
    SelfConfined(s, subject);
    forall i | 0 <= i < |path| - 1
      ensures AllInside(s, path[i], path[i + 1], out)
    {
      assert AllInside(s, path[i], path[i + 1], subject);
    }
  }

  /** So the overlap and the score do not depend on which polygon clips the other. */
  lemma ScoreIsSymmetric(s: real, a: seq<Point>, s': real, b: seq<Point>)
    requires AcceptedPolygon(s, a) && AcceptedPolygon(s', b)
    ensures Area(Intersection(a, b)) == Area(Intersection(b, a)) && IoU(a, b) == IoU(b, a)
  {
    hide AcceptedPolygon, Intersection, Area, Convex, Confined;
    IntersectionInBoth(s, a, s', b);
    IntersectionInBoth(s', b, s, a);
    IntersectionIsLargest(s, a, s', b, s', Intersection(b, a));
    IntersectionIsLargest(s', b, s, a, s, Intersection(a, b));
  }
}
