/** No zigzag-free closed list inside a triangle encloses more than the triangle. */
module TriangleBound {
  import opened Geometry
  import opened ConvexRings

  const ORIGIN := Point(0.0, 0.0)

  function Ys(ring: seq<Point>): (fs: seq<real>)
    ensures |fs| == |ring| && forall k :: 0 <= k < |fs| ==> fs[k] == ring[k].y
  {
    seq(|ring|, k requires 0 <= k < |ring| => ring[k].y)
  }

  predicate InUnitTriangle(p: Point) {
    0.0 <= p.x && 0.0 <= p.y && p.x + p.y <= 1.0
  }

  // ----- rotating a list ---------------------------------------------------------------

  function Rotate<T>(xs: seq<T>, k: nat): seq<T>
    requires k <= |xs|
  {
    xs[k..] + xs[..k]
  }

  lemma PathIsFan(path: seq<Point>)
    ensures PathSum(path) == FanSum(ORIGIN, path)
  {
    if path != [] {
      FanIsPath(ORIGIN, path);
    }
  }

  lemma PathJoins(left: seq<Point>, mid: Point, right: seq<Point>)
    ensures PathSum(left + [mid] + right) == PathSum(left + [mid]) + PathSum([mid] + right)
  {
    PathIsFan(left + [mid] + right);
    PathIsFan(left + [mid]);
    PathIsFan([mid] + right);
    FanJoins(ORIGIN, left, mid, right);
  }

  lemma ShoelaceRotates(ring: seq<Point>, k: nat)
    requires k <= |ring|
    ensures Shoelace(Rotate(ring, k)) == Shoelace(ring)
  {
    if 0 < k < |ring| {
      var first, mid := ring[0], ring[k];
      assert ring + [first] == ring[..k] + [mid] + (ring[k + 1..] + [first]);
      PathJoins(ring[..k], mid, ring[k + 1..] + [first]);
      assert Rotate(ring, k) + [mid] == ring[k..] + [first] + (ring[1..k] + [mid]);
      PathJoins(ring[k..], first, ring[1..k] + [mid]);
      assert [mid] + (ring[k + 1..] + [first]) == ring[k..] + [first];
      assert [first] + (ring[1..k] + [mid]) == ring[..k] + [mid];
    } else {
      assert Rotate(ring, k) == ring;
    }
  }

  lemma RotateKeepsNoZigzag(fs: seq<real>, k: nat)
    requires k <= |fs| && NoZigzag(fs)
    ensures NoZigzag(Rotate(fs, k))
  {
    var gs, m := Rotate(fs, k), |fs| - k;
    forall a: nat, b: nat, c: nat, d: nat | a < b < c < d < |gs|
      ensures !Zigzag(gs, a, b, c, d)
    {
      if d < m {
        assert !Zigzag(fs, a + k, b + k, c + k, d + k);
      } else if c < m {
        assert !Zigzag(fs, d - m, a + k, b + k, c + k);
      } else if b < m {
        assert !Zigzag(fs, c - m, d - m, a + k, b + k);
      } else if a < m {
        assert !Zigzag(fs, b - m, c - m, d - m, a + k);
      } else {
        assert !Zigzag(fs, a - m, b - m, c - m, d - m);
      }
    }
  }

  // ----- rising and falling stretches --------------------------------------------------

  ghost predicate Rises(path: seq<Point>) {
    forall i :: 0 <= i < |path| - 1 ==> path[i].y <= path[i + 1].y
  }

  ghost predicate Falls(path: seq<Point>) {
    forall i :: 0 <= i < |path| - 1 ==> path[i + 1].y <= path[i].y
  }

  ghost predicate AllInUnitTriangle(path: seq<Point>) {
    forall i :: 0 <= i < |path| ==> InUnitTriangle(path[i])
  }

  /** Twice the part of the unit triangle that lies below height `y`. */
  function Below(y: real): real {
    2.0 * y - y * y
  }

  /** One step measured against the y axis. */
  function Trapezoid(p: Point, q: Point): real {
    (p.x + q.x) * (q.y - p.y)
  }

  lemma TrapezoidBound(p: Point, q: Point)
    requires InUnitTriangle(p) && InUnitTriangle(q) && p.y <= q.y
    ensures 0.0 <= Trapezoid(p, q) <= Below(q.y) - Below(p.y)
  {
    var w, h := p.x + q.x, q.y - p.y;
    ProductNonnegative(w, h);
    ProductNonnegative(2.0 - p.y - q.y - w, h);
    assert (2.0 - p.y - q.y - w) * h == Below(q.y) - Below(p.y) - w * h;
  }

  function TrapezoidSum(path: seq<Point>): real {
    if |path| < 2 then 0.0 else Trapezoid(path[0], path[1]) + TrapezoidSum(path[1..])
  }

  lemma TrapezoidIsCross(p: Point, q: Point)
    ensures Trapezoid(p, q) == Cross(p, q) + q.x * q.y - p.x * p.y
  {
  }

  lemma {:induction false} TrapezoidsArePath(path: seq<Point>)
    requires path != []
    ensures var last := path[|path| - 1];
            TrapezoidSum(path) == PathSum(path) + last.x * last.y - path[0].x * path[0].y
  {
    hide Trapezoid, Cross;
    if |path| >= 2 {
      TrapezoidsArePath(path[1..]);
      TrapezoidIsCross(path[0], path[1]);
    }
  }

  lemma {:induction false} RisingBound(path: seq<Point>)
    requires path != [] && AllInUnitTriangle(path) && Rises(path)
    ensures 0.0 <= TrapezoidSum(path) <= Below(path[|path| - 1].y) - Below(path[0].y)
  {
    if |path| >= 2 {
      TrapezoidBound(path[0], path[1]);
      RisingBound(path[1..]);
    }
  }

  lemma {:induction false} FallingBound(path: seq<Point>)
    requires path != [] && AllInUnitTriangle(path) && Falls(path)
    ensures Below(path[|path| - 1].y) - Below(path[0].y) <= TrapezoidSum(path) <= 0.0
  {
    if |path| >= 2 {
      TrapezoidBound(path[1], path[0]);
      assert Trapezoid(path[0], path[1]) == -Trapezoid(path[1], path[0]);
      FallingBound(path[1..]);
    }
  }

  // ----- up once, down once ------------------------------------------------------------

  ghost function LowIndex(fs: seq<real>): (k: nat)
    requires fs != []
    ensures k < |fs| && forall i :: 0 <= i < |fs| ==> fs[k] <= fs[i]
  {
    if |fs| == 1 then 0
    else
      var m := LowIndex(fs[..|fs| - 1]);
      if fs[|fs| - 1] < fs[m] then |fs| - 1 else m
  }

  ghost function HighIndex(fs: seq<real>): (k: nat)
    requires fs != []
    ensures k < |fs| && forall i :: 0 <= i < |fs| ==> fs[i] <= fs[k]
  {
    if |fs| == 1 then 0
    else
      var m := HighIndex(fs[..|fs| - 1]);
      if fs[m] < fs[|fs| - 1] then |fs| - 1 else m
  }

  /** From its lowest value a zigzag-free list climbs to its highest and comes back down. */
  lemma ClimbsThenFalls(fs: seq<real>, t: nat)
    requires t < |fs| && NoZigzag(fs)
    requires forall i :: 0 <= i < |fs| ==> fs[0] <= fs[i] <= fs[t]
    ensures forall i :: 0 <= i < t ==> fs[i] <= fs[i + 1]
    ensures forall i :: t <= i < |fs| - 1 ==> fs[i + 1] <= fs[i]
  {
    forall i | 0 <= i < t
      ensures fs[i] <= fs[i + 1]
    {
      if 0 < i && i + 1 < t {
        assert !Zigzag(fs, 0, i, i + 1, t);
      }
    }
    forall i | t <= i < |fs| - 1
      ensures fs[i + 1] <= fs[i]
    {
      if 0 < t < i {
        assert !Zigzag(fs, 0, t, i, i + 1);
      }
    }
  }

  lemma ShoelaceSplits(ring: seq<Point>, t: nat)
    requires t < |ring|
    ensures Shoelace(ring) == TrapezoidSum(ring[..t + 1]) + TrapezoidSum(ring[t..] + [ring[0]])
  {
    hide TrapezoidSum, PathSum;
    var up, down := ring[..t + 1], ring[t..] + [ring[0]];
    TrapezoidsArePath(up);
    TrapezoidsArePath(down);
    assert ring + [ring[0]] == ring[..t] + [ring[t]] + (ring[t + 1..] + [ring[0]]);
    PathJoins(ring[..t], ring[t], ring[t + 1..] + [ring[0]]);
    assert up == ring[..t] + [ring[t]] && down == [ring[t]] + (ring[t + 1..] + [ring[0]]);
    assert up[0] == down[|down| - 1] && up[|up| - 1] == down[0];
  }

  lemma LowFirstBound(ring: seq<Point>)
    requires ring != [] && AllInUnitTriangle(ring) && NoZigzag(Ys(ring))
    requires forall i :: 0 <= i < |ring| ==> ring[0].y <= ring[i].y
    ensures Abs(Shoelace(ring)) <= 1.0
  {
    var fs := Ys(ring);
    var t := HighIndex(fs);
    ClimbsThenFalls(fs, t);
    var up, down := ring[..t + 1], ring[t..] + [ring[0]];
    assert Rises(up) by {
      forall i | 0 <= i < |up| - 1 ensures up[i].y <= up[i + 1].y {
        assert fs[i] <= fs[i + 1];
      }
    }
    assert Falls(down) by {
      forall i | 0 <= i < |down| - 1 ensures down[i + 1].y <= down[i].y {
        if i + 1 < |down| - 1 {
          assert fs[t + i + 1] <= fs[t + i];
        }
      }
    }
    RisingBound(up);
    FallingBound(down);
    ShoelaceSplits(ring, t);
    BelowRange(ring[0].y);
    BelowRange(ring[t].y);
  }

  lemma BelowRange(y: real)
    requires 0.0 <= y <= 1.0
    ensures 0.0 <= Below(y) <= 1.0
  {
    ProductNonnegative(1.0 - y, 1.0 - y);
    ProductNonnegative(y, 2.0 - y);
    assert (1.0 - y) * (1.0 - y) == 1.0 - Below(y);
    assert y * (2.0 - y) == Below(y);
  }

  lemma UnitTriangleBound(ring: seq<Point>)
    requires AllInUnitTriangle(ring) && NoZigzag(Ys(ring))
    ensures Abs(Shoelace(ring)) <= 1.0
  {
    if ring != [] {
      var k := LowIndex(Ys(ring));
      var turned := Rotate(ring, k);
      ShoelaceRotates(ring, k);
      RotateKeepsNoZigzag(Ys(ring), k);
      assert Ys(turned) == Rotate(Ys(ring), k);
      forall i | 0 <= i < |turned|
        ensures turned[0].y <= turned[i].y && InUnitTriangle(turned[i])
      {
        var j := if i + k < |ring| then i + k else i + k - |ring|;
        assert turned[i] == ring[j];
        assert Ys(ring)[k] <= Ys(ring)[j];
      }
      LowFirstBound(turned);
    }
  }
}
