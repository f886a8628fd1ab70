/** What the score divides by: the clip polygon together with the pieces the passes cut off the subject. */
module OverlapUnion {
  import opened Geometry
  import opened ConvexRings
  import opened Clipping
  import opened TriangleBound
  import opened ConvexPolygons
  import opened PolygonIoU
  import opened ClipMaximality

  // ----- the pieces cut off ------------------------------------------------------------

  /** What each pass along `path` takes away: the part of its input beyond its edge. */
  function CutPieces(o: real, path: seq<Point>, ring: seq<Point>): seq<seq<Point>>
    decreases path
  {
    if |path| < 2 then []
    else [ClipEdge(o, path[1], path[0], ring)] + CutPieces(o, path[1..], ClipEdge(o, path[0], path[1], ring))
  }

  function TotalArea(pieces: seq<seq<Point>>): (r: real)
    ensures 0.0 <= r
  {
    if pieces == [] then 0.0 else Area(pieces[0]) + TotalArea(pieces[1..])
  }

  ghost predicate ProperSteps(path: seq<Point>) {
    forall i :: 0 <= i < |path| - 1 ==> path[i] != path[i + 1]
  }

  lemma ConvexIsArea(s: real, ring: seq<Point>)
    requires IsSign(s) && Convex(s, ring)
    ensures Area(ring) == s * Shoelace(ring) / 2.0
  {
    hide Convex, Shoelace;
    ConvexArea(s, ring);
  }

  lemma PassSplitsArea(s: real, o: real, a: Point, b: Point, ring: seq<Point>)
    requires IsSign(s) && IsSign(o) && a != b && Convex(s, ring)
    ensures Area(ring) == Area(ClipEdge(o, a, b, ring)) + Area(ClipEdge(o, b, a, ring))
  {
    hide Convex, Shoelace, ClipEdge, Area;
    ClipEdgeKeepsConvex(s, o, a, b, ring);
    ClipEdgeKeepsConvex(s, o, b, a, ring);
    ClipConservesArea(o, a, b, ring);
    ConvexIsArea(s, ring);
    ConvexIsArea(s, ClipEdge(o, a, b, ring));
    ConvexIsArea(s, ClipEdge(o, b, a, ring));
  }

  /** What the passes leave and what they cut off add up to the input. */
  lemma {:induction false} PassesSplitArea(s: real, o: real, path: seq<Point>, ring: seq<Point>)
    requires IsSign(s) && IsSign(o) && Convex(s, ring) && ProperSteps(path)
    ensures Area(ring) == Area(ClipPath(o, path, ring)) + TotalArea(CutPieces(o, path, ring))
    decreases path
  {
    hide Convex, Shoelace, ClipEdge, Area;
    if |path| >= 2 {
      var kept := ClipEdge(o, path[0], path[1], ring);
      assert path[0] != path[1];
      PassSplitsArea(s, o, path[0], path[1], ring);
      ClipEdgeKeepsConvex(s, o, path[0], path[1], ring);
      assert ProperSteps(path[1..]) by {
        forall i | 0 <= i < |path[1..]| - 1 ensures path[1..][i] != path[1..][i + 1] {
          assert path[i + 1] != path[i + 2];
        }
      }
      PassesSplitArea(s, o, path[1..], kept);
    }
  }

  /** A convex piece of the list: beyond its own step, not beyond any earlier one, and on every side the whole list is on. */
  ghost predicate IsCutBy(s: real, o: real, path: seq<Point>, ring: seq<Point>, k: nat, piece: seq<Point>)
    requires k + 1 < |path|
  {
    && Convex(s, piece) && AllInside(o, path[k + 1], path[k], piece)
    && (forall i :: 0 <= i < k ==> AllInside(o, path[i], path[i + 1], piece))
    && (forall o', u, v :: IsSign(o') && AllInside(o', u, v, ring) ==> AllInside(o', u, v, piece))
  }

  /** Each step cuts off one piece, and no two pieces share more than a boundary. */
  lemma {:induction false} PiecesLieBeyond(s: real, o: real, path: seq<Point>, ring: seq<Point>, k: nat)
    requires IsSign(o) && Convex(s, ring) && k + 1 < |path|
    ensures |CutPieces(o, path, ring)| == |path| - 1 && IsCutBy(s, o, path, ring, k, CutPieces(o, path, ring)[k])
    decreases path
  {
    hide Convex, ClipEdge;
    var kept, rest := ClipEdge(o, path[0], path[1], ring), CutPieces(o, path[1..], ClipEdge(o, path[0], path[1], ring));
    ClipEdgeKeepsConvex(s, o, path[0], path[1], ring);
    ClipEdgeConfines(o, path[0], path[1], ring);
    if |path| > 2 {
      PiecesLieBeyond(s, o, path[1..], kept, if k == 0 then 0 else k - 1);
    }
    if k == 0 {
      ClipEdgeKeepsConvex(s, o, path[1], path[0], ring);
      ClipEdgeConfines(o, path[1], path[0], ring);
    } else {
      var piece := rest[k - 1];
      forall i | 0 <= i < k ensures AllInside(o, path[i], path[i + 1], piece) {
        if i > 0 {
          assert AllInside(o, path[1..][i - 1], path[1..][i], piece);
        }
      }
    }
  }

  lemma AcceptedIsProper(s: real, ring: seq<Point>)
    requires AcceptedPolygon(s, ring)
    ensures ProperSteps(Closed(ring))
  {
    hide Orient;
    forall i | 0 <= i < |ring| ensures Closed(ring)[i] != Closed(ring)[i + 1] {
      if i + 1 == |ring| {
        assert ring[0] != ring[i];
      }
    }
  }

  /** The area of the union: the clip polygon, and what clipping takes off the subject. */
  function UnionArea(subject: seq<Point>, clip: seq<Point>): real {
    Area(clip) + TotalArea(CutPieces(Orientation(clip), Closed(clip), subject))
  }

  /** The score is the overlap over the union, wound either way, and lies in [0, 1]. */
  lemma ScoreTimesUnion(s: real, expected: seq<Point>, s': real, predicted: seq<Point>)
    requires AcceptedPolygon(s, expected) && AcceptedPolygon(s', predicted)
    ensures 0.0 < UnionArea(expected, predicted)
    ensures IoU(expected, predicted).Ratio? && 0.0 <= IoU(expected, predicted).value <= 1.0
    ensures IoU(expected, predicted).value * UnionArea(expected, predicted) == Area(Intersection(expected, predicted))
  {
    hide AcceptedPolygon, Area, ClipPath, CutPieces;
    AcceptedArea(s, expected);
    AcceptedArea(s', predicted);
    AcceptedIsProper(s', predicted);
    PassesSplitArea(s, s', Closed(predicted), expected);
    IoUIsRatio(s, expected, s', predicted);
    Divided(Area(Intersection(expected, predicted)), UnionArea(expected, predicted));
  }

  lemma Divided(n: real, d: real)
    requires d != 0.0
    ensures (n / d) * d == n
  {
  }

  // ----- the extreme scores ------------------------------------------------------------

  /** A corner of the triangle, `t` of the way along both of its sides. */
  function Corner(v: Point, u: Point, w: Point, t: real): seq<Point> {
    [Lerp(v, u, t), v, Lerp(v, w, t)]
  }

  lemma CornerTurns(v: Point, u: Point, w: Point, t: real)
    ensures Orient(Lerp(v, u, t), v, Lerp(v, w, t)) == t * (t * Orient(u, v, w))
  {
    var x, y := Lerp(v, u, t), Lerp(v, w, t);
    OrientLerp(x, v, v, w, t);
    OrientLerp(v, w, v, u, t);
    OrientRotates(x, v, w);
    OrientRotates(u, v, w);
    assert Orient(x, v, v) == 0.0 && Orient(v, w, v) == 0.0;
  }

  lemma CornerStays(o: real, a: Point, b: Point, v: Point, u: Point, w: Point, t: real)
    requires 0.0 <= t <= 1.0 && IsSign(o) && Inside(o, a, b, u) && Inside(o, a, b, v) && Inside(o, a, b, w)
    ensures AllInside(o, a, b, Corner(v, u, w, t))
  {
    OrientLerpIsBetween(a, b, v, u, t);
    OrientLerpIsBetween(a, b, v, w, t);
  }

  /** How far along both sides of a corner one may go without reaching a line. */
  function Reach(h: real, f: real, g: real): (t: real)
    requires h < 0.0
    ensures 0.0 < t <= 1.0 && h + t * (f - h) <= 0.0 && h + t * (g - h) <= 0.0
  {
    var d := Abs(f) + Abs(g) - h;
    var t := -h / d;
    assert t * d == -h && 0.0 < t <= 1.0;
    ProductNonnegative(t, d - (f - h));
    ProductNonnegative(t, d - (g - h));
    t
  }

  lemma CornerBeyond(o: real, a: Point, b: Point, v: Point, u: Point, w: Point) returns (t: real)
    requires IsSign(o) && !Inside(o, a, b, v)
    ensures 0.0 < t <= 1.0 && AllInside(o, b, a, Corner(v, u, w, t))
  {
    hide Orient, Lerp, Reach;
    t := Reach(Side(o, a, b, v), Side(o, a, b, u), Side(o, a, b, w));
    SideLerp(o, a, b, v, u, t);
    SideLerp(o, a, b, v, w, t);
    OrientRotates(a, b, v);
  }

  lemma SideLerp(o: real, a: Point, b: Point, p: Point, q: Point, t: real)
    requires IsSign(o)
    ensures var x := Lerp(p, q, t);
      Side(o, b, a, x) == -(Side(o, a, b, p) + t * (Side(o, a, b, q) - Side(o, a, b, p)))
  {
    hide Orient, Lerp;
    OrientLerp(a, b, p, q, t);
    OrientRotates(a, b, Lerp(p, q, t));
  }

  lemma TriangleIsConvex(s: real, ring: seq<Point>)
    requires IsSign(s) && |ring| == 3 && 0.0 < s * Orient(ring[0], ring[1], ring[2])
    ensures Convex(s, ring) && s * Shoelace(ring) > 0.0
  {
    assert StrictlyConvex(s, ring);
    StrictlyConvexIsConvex(s, ring);
    StrictArea(s, ring);
  }

  lemma CornerIsProper(s: real, v: Point, u: Point, w: Point, t: real)
    requires IsSign(s) && 0.0 < t && 0.0 < s * Orient(u, v, w)
    ensures Convex(s, Corner(v, u, w, t)) && Shoelace(Corner(v, u, w, t)) != 0.0
  {
    CornerTurns(v, u, w, t);
    var d := s * Orient(u, v, w);
    ProductPositive(t, d);
    ProductPositive(t, t * d);
    assert s * (t * (t * Orient(u, v, w))) == t * (t * d);
    TriangleIsConvex(s, Corner(v, u, w, t));
  }

  lemma StrictlyInsideSpreads(o: real, a: Point, b: Point, bound: seq<Point>, j: nat)
    requires IsSign(o) && Spread(bound) && j < |bound| && !Beyond(o, a, b, bound[j])
    ensures Spread(ClipEdge(o, a, b, bound))
  {
    if !Spread(ClipEdge(o, a, b, bound)) {
      OnePointLeft(o, a, b, bound);
    }
  }

  /** An edge that has a vertex of an accepted polygon beyond it cuts a piece of positive area off it. */
  lemma VertexBeyondIsCut(s: real, subject: seq<Point>, o: real, a: Point, b: Point, j: nat)
    requires AcceptedPolygon(s, subject) && IsSign(o) && j < |subject| && !Inside(o, a, b, subject[j])
    ensures a != b && 0.0 < Area(ClipEdge(o, b, a, subject))
  {
    hide Orient, Shoelace, ClipEdge, Corner, Lerp;
    AcceptedArea(s, subject);
    SelfConfined(s, subject);
    var n := |subject|;
    var i := if j == 0 then n - 1 else j - 1;
    var u, v, w := subject[i], subject[j], subject[Next(n, j)];
    assert TurnsAt(s, subject, i);
    var t := CornerBeyond(o, a, b, v, u, w);
    var corner := Corner(v, u, w, t);
    CornerIsProper(s, v, u, w, t);
    forall k | 0 <= k < n ensures AllInside(s, Closed(subject)[k], Closed(subject)[k + 1], corner) {
      assert AllInside(s, Closed(subject)[k], Closed(subject)[k + 1], subject);
      CornerStays(s, Closed(subject)[k], Closed(subject)[k + 1], v, u, w, t);
    }
    ClipEdgeKeepsConvex(s, o, b, a, subject);
    ClipEdgeKeepsConfined(s, o, b, a, subject, corner);
    assert subject[0] != subject[1];
    OrientRotates(a, b, v);
    StrictlyInsideSpreads(o, b, a, subject, j);
    ConvexListBounds(s, ClipEdge(o, b, a, subject), s, corner);
    NoTurnOverPoint(a, v);
  }

  lemma NoTurnOverPoint(a: Point, v: Point)
    ensures Orient(a, a, v) == 0.0
  {
  }

  /** What lies within a convex list and within an edge encloses no more than the edge leaves of the list. */
  lemma PassBounds(s: real, bound: seq<Point>, o: real, a: Point, b: Point, s': real, ring: seq<Point>)
    requires IsSign(s) && IsSign(o) && a != b && Convex(s, bound) && Spread(bound)
    requires Convex(s', ring) && Confined(s, Closed(bound), ring) && AllInside(o, a, b, ring)
    ensures Area(ring) <= Area(ClipEdge(o, a, b, bound))
  {
    hide Orient, Shoelace, ClipEdge;
    ClipEdgeKeepsConvex(s, o, a, b, bound);
    if Spread(ClipEdge(o, a, b, bound)) {
      ClipEdgeKeepsConfined(s, o, a, b, bound, ring);
      ConvexListBounds(s, ClipEdge(o, a, b, bound), s', ring);
    } else {
      OnePointLeft(o, a, b, bound);
      BeyondEnclosesNothing(s, bound, s', ring, o, a, b);
    }
  }

  /** The overlap is the whole subject exactly when the subject lies within the clip polygon. */
  lemma OverlapIsWholeIff(s: real, subject: seq<Point>, s': real, clip: seq<Point>)
    requires AcceptedPolygon(s, subject) && AcceptedPolygon(s', clip)
    ensures Area(Intersection(subject, clip)) == Area(subject) <==> Confined(s', Closed(clip), subject)
  {
    hide Orient, Shoelace, Area, ClipEdge;
    AcceptedArea(s, subject);
    AcceptedArea(s', clip);
    if Confined(s', Closed(clip), subject) {
      ClipPathInside(s', Closed(clip), subject);
    } else {
      var path := Closed(clip);
      var k :| 0 <= k < |path| - 1 && !AllInside(s', path[k], path[k + 1], subject);
      var v :| v in subject && !Inside(s', path[k], path[k + 1], v);
      var j :| 0 <= j < |subject| && subject[j] == v;
      VertexBeyondIsCut(s, subject, s', path[k], path[k + 1], j);
      IntersectionInBoth(s, subject, s', clip);
      assert subject[0] != subject[1];
      PassBounds(s, subject, s', path[k], path[k + 1], s, Intersection(subject, clip));
      PassSplitsArea(s, s', path[k], path[k + 1], subject);
    }
  }

  /** One polygon within the other: the score is the ratio of their areas. */
  lemma NestedScoresRatio(s: real, inner: seq<Point>, s': real, outer: seq<Point>)
    requires AcceptedPolygon(s, inner) && AcceptedPolygon(s', outer) && Confined(s', Closed(outer), inner)
    ensures Area(outer) > 0.0 && IoU(inner, outer) == IoU(outer, inner) == Ratio(Area(inner) / Area(outer))
  {
    hide AcceptedPolygon, Area, Intersection, Confined;
    AcceptedArea(s', outer);
    OverlapIsWholeIff(s, inner, s', outer);
    ScoreIsSymmetric(s, inner, s', outer);
  }

  /** The score is one exactly when each polygon lies within the other. */
  lemma ScoreIsOneIff(s: real, expected: seq<Point>, s': real, predicted: seq<Point>)
    requires AcceptedPolygon(s, expected) && AcceptedPolygon(s', predicted)
    ensures IoU(expected, predicted) == Ratio(1.0)
        <==> Confined(s', Closed(predicted), expected) && Confined(s, Closed(expected), predicted)
  {
    hide AcceptedPolygon, Area, Intersection, Confined;
    var a, b, i := Area(expected), Area(predicted), Area(Intersection(expected, predicted));
    AcceptedArea(s, expected);
    AcceptedArea(s', predicted);
    IntersectionIsBounded(s, expected, s', predicted);
    IoUIsRatio(s, expected, s', predicted);
    OverlapIsWholeIff(s, expected, s', predicted);
    OverlapIsWholeIff(s', predicted, s, expected);
    ScoreIsSymmetric(s, expected, s', predicted);
    Divided(i, a + b - i);
    if IoU(expected, predicted) == Ratio(1.0) {
      assert i == a + b - i;
    } else if i == a == b {
      ScoreOfAreas(a, b, i);
    }
  }

  /** The score is zero exactly when nothing convex of positive area lies within both polygons. */
  lemma ScoreIsZeroIff(s: real, expected: seq<Point>, s': real, predicted: seq<Point>)
    requires AcceptedPolygon(s, expected) && AcceptedPolygon(s', predicted)
    ensures IoU(expected, predicted) == Ratio(0.0)
        <==> forall o, ring | Convex(o, ring) && Confined(s, Closed(expected), ring) && Confined(s', Closed(predicted), ring)
               :: Area(ring) == 0.0
  {
    hide AcceptedPolygon, Area, Intersection, Confined, Convex, UnionArea, IoU, Closed;
    var out := Intersection(expected, predicted);
    ScoreTimesUnion(s, expected, s', predicted);
    IntersectionInBoth(s, expected, s', predicted);
    AreaIsNonnegative(out);
    if Area(out) == 0.0 {
      forall o, ring | Convex(o, ring) && Confined(s, Closed(expected), ring) && Confined(s', Closed(predicted), ring)
        ensures Area(ring) == 0.0
      {
        AreaIsNonnegative(ring);
        IntersectionIsLargest(s, expected, s', predicted, o, ring);
      }
      ProductZero(IoU(expected, predicted).value, UnionArea(expected, predicted));
    }
  }

  lemma AreaIsNonnegative(ring: seq<Point>)
    ensures 0.0 <= Area(ring)
  {
  }

  lemma ProductZero(r: real, d: real)
    requires 0.0 < d && r * d == 0.0
    ensures r == 0.0
  {
  }
}
