/** The schema's validation of a polygon, and how it compares with global convexity. */
module PolygonSchema {
  import opened Options
  import opened Geometry
  import opened ConvexRings
  import opened Clipping
  import opened TriangleBound
  import opened ConvexPolygons
  import opened PolygonIoU
  import opened Segments

  datatype Refusal = TooFewVertices | RepeatedVertex | SelfIntersects | NoArea | NotStrictlyConvex

  // ----- the validator -----------------------------------------------------------------

  /** The loop skips an edge itself and its two neighbours. */
  predicate Adjacent(n: nat, i: nat, j: nat)
    requires i < n && j < n
  {
    j == i || j == Next(n, i) || i == Next(n, j)
  }

  predicate EdgesMeet(ring: seq<Point>, i: nat, j: nat)
    requires i < |ring| && j < |ring|
  {
    SegmentsIntersect(ring[i], ring[Next(|ring|, i)], ring[j], ring[Next(|ring|, j)])
  }

  /** No two edges that are not adjacent have a point in common. */
  ghost predicate EdgesApart(ring: seq<Point>) {
    forall i: nat, j: nat | i < j < |ring| && !Adjacent(|ring|, i, j) :: !EdgesMeet(ring, i, j)
  }

  function TurnAt(ring: seq<Point>, i: nat): real
    requires i < |ring|
  {
    var j := Next(|ring|, i);
    Orient(ring[i], ring[j], ring[Next(|ring|, j)])
  }

  /** No turn is zero and all have the sign of the first. */
  ghost predicate UniformTurns(ring: seq<Point>) {
    forall i: nat | i < |ring| :: TurnAt(ring, i) != 0.0 && (TurnAt(ring, i) > 0.0 <==> TurnAt(ring, 0) > 0.0)
  }

  /** What the schema demands of a polygon. */
  ghost predicate PassesSchema(ring: seq<Point>) {
    3 <= |ring| && Distinct(ring) && EdgesApart(ring) && Shoelace(ring) != 0.0 && UniformTurns(ring)
  }

  /** The validator, check by check. */
  method Validate(ring: seq<Point>) returns (refusal: Option<Refusal>)
    ensures refusal.None? <==> PassesSchema(ring)
    ensures refusal == Some(SelfIntersects) ==> 3 <= |ring| && Distinct(ring) && !EdgesApart(ring)
    ensures refusal == Some(NotStrictlyConvex) ==> 3 <= |ring| && Distinct(ring) && EdgesApart(ring) && !UniformTurns(ring)
  {
    hide SegmentsIntersect, Orient, Shoelace;
    var n := |ring|;
    if n < 3 {
      return Some(TooFewVertices);
    }
    if exists i, j :: 0 <= i < j < n && ring[i] == ring[j] {
      return Some(RepeatedVertex);
    }
    for i := 0 to n
      invariant forall k: nat, l: nat | k < i && k < l < n && !Adjacent(n, k, l) :: !EdgesMeet(ring, k, l)
    {
      for j := i + 1 to n
        invariant forall l: nat | i < l < j && !Adjacent(n, i, l) :: !EdgesMeet(ring, i, l)
      {
        if Adjacent(n, i, j) {
          continue;
        }
        if EdgesMeet(ring, i, j) {
          return Some(SelfIntersects);
        }
      }
    }
    if Shoelace(ring) == 0.0 {
      return Some(NoArea);
    }
    if exists i: nat :: i < n && (TurnAt(ring, i) == 0.0 || (TurnAt(ring, i) > 0.0) != (TurnAt(ring, 0) > 0.0)) {
      return Some(NotStrictlyConvex);
    }
    return None;
  }

  // ----- what it accepts ---------------------------------------------------------------

  lemma TurnsAreUniform(s: real, ring: seq<Point>)
    requires AcceptedPolygon(s, ring)
    ensures UniformTurns(ring)
  {
    forall i: nat | i < |ring|
      ensures TurnAt(ring, i) != 0.0 && (TurnAt(ring, i) > 0.0 <==> TurnAt(ring, 0) > 0.0)
    {
      assert TurnsAt(s, ring, i) && TurnsAt(s, ring, 0);
    }
  }

  /** The ends of an edge lie strictly on the inner side of every edge that is not adjacent to it. */
  lemma EdgeIsStrictlyInside(s: real, ring: seq<Point>, i: nat, j: nat)
    requires StrictlyConvex(s, ring) && i < |ring| && j < |ring| && !Adjacent(|ring|, i, j)
    ensures 0.0 < s * Orient(ring[i], ring[Next(|ring|, i)], ring[j])
    ensures 0.0 < s * Orient(ring[i], ring[Next(|ring|, i)], ring[Next(|ring|, j)])
  {
    VertexIsStrictlyInside(s, ring, i, j);
    VertexIsStrictlyInside(s, ring, i, Next(|ring|, j));
  }

  lemma VertexIsStrictlyInside(s: real, ring: seq<Point>, i: nat, j: nat)
    requires StrictlyConvex(s, ring) && i < |ring| && j < |ring| && j != i && j != Next(|ring|, i)
    ensures 0.0 < s * Orient(ring[i], ring[Next(|ring|, i)], ring[j])
  {
    hide Orient;
    var n, k := |ring|, Next(|ring|, i);
    OrientRotates(ring[i], ring[k], ring[j]);
    if k == 0 {
      assert StrictTurn(s, ring, 0, j, i);
    } else if j < i {
      assert StrictTurn(s, ring, j, i, k);
    } else {
      assert StrictTurn(s, ring, i, k, j);
    }
  }

  lemma StrictlyConvexEdgesAreApart(s: real, ring: seq<Point>)
    requires StrictlyConvex(s, ring)
    ensures EdgesApart(ring)
  {
    hide Orient;
    forall i: nat, j: nat | i < j < |ring| && !Adjacent(|ring|, i, j)
      ensures !EdgesMeet(ring, i, j)
    {
      EdgeIsStrictlyInside(s, ring, i, j);
      EdgeIsStrictlyInside(s, ring, j, i);
    }
  }

  /** The schema accepts exactly the globally convex polygons among those with every vertex on one side of every edge. */
  lemma AcceptedIffPassesSchema(s: real, ring: seq<Point>)
    requires IsSign(s) && 3 <= |ring| && forall i: nat, j: nat | i < |ring| && j < |ring| :: SidesWith(s, ring, i, j)
    ensures AcceptedPolygon(s, ring) <==> PassesSchema(ring)
  {
    hide Orient, Shoelace;
    if AcceptedPolygon(s, ring) {
      AcceptedArea(s, ring);
      StrictlyConvexEdgesAreApart(s, ring);
      TurnsAreUniform(s, ring);
      StrictArea(s, ring);
    }
    if PassesSchema(ring) {
      forall i: nat | i < |ring|
        ensures TurnsAt(s, ring, i)
      {
        assert TurnAt(ring, i) != 0.0;
        assert SidesWith(s, ring, i, Next(|ring|, Next(|ring|, i)));
      }
    }
  }

  // ----- the distinctness check is implied ---------------------------------------------

  lemma SharedStartMeets(a: Point, b: Point, d: Point)
    ensures SegmentsIntersect(a, b, a, d)
  {
    assert Orient(a, b, a) == 0.0 && InBox(a, a, b);
  }

  lemma NoTurnWithoutEdge(a: Point, b: Point)
    ensures Orient(a, a, b) == 0.0
  {
  }

  /** Equal vertices are caught by the other checks: neighbours by the turns, others by the edge loop. */
  lemma DistinctnessIsImplied(ring: seq<Point>)
    requires 3 <= |ring| && EdgesApart(ring) && UniformTurns(ring)
    ensures Distinct(ring)
  {
    hide Orient;
    var n := |ring|;
    forall i, j | 0 <= i < j < n
      ensures ring[i] != ring[j]
    {
      if ring[i] == ring[j] {
        if j == Next(n, i) {
          assert TurnAt(ring, i) != 0.0;
          NoTurnWithoutEdge(ring[i], ring[Next(n, j)]);
        } else if i == Next(n, j) {
          assert TurnAt(ring, j) != 0.0;
          NoTurnWithoutEdge(ring[j], ring[Next(n, i)]);
        } else {
          assert !EdgesMeet(ring, i, j);
          SharedStartMeets(ring[i], ring[Next(n, i)], ring[Next(n, j)]);
        }
      }
    }
  }

  /** The edge loop is needed for the bound: without it and distinctness, a triangle listed twice passes and scores two. */
  lemma DoubledTriangleIsRefused()
    ensures !Distinct(TWICE) && !EdgesApart(TWICE) && Shoelace(TWICE) != 0.0 && UniformTurns(TWICE)
    ensures PassesSchema(TRIANGLE) && IoU(TWICE, TRIANGLE) == Ratio(2.0)
  {
    hide Orient, Shoelace, IoU;
    DoubledTriangleScoresTwo();
    TriangleAreas();
    AcceptedIffPassesSchema(1.0, TRIANGLE);
    assert TWICE[0] == TWICE[3];
    SharedStartMeets(TWICE[0], TWICE[1], TWICE[4]);
    assert EdgesMeet(TWICE, 0, 3);
    forall i: nat | i < |TWICE|
      ensures TurnAt(TWICE, i) != 0.0 && (TurnAt(TWICE, i) > 0.0 <==> TurnAt(TWICE, 0) > 0.0)
    {
      assert TurnsAt(1.0, TWICE, i) && TurnsAt(1.0, TWICE, 0);
    }
  }
}
