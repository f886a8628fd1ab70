/** Planar points, signed areas and the orientation test over exact reals. */
module Geometry {

  datatype Point = Point(x: real, y: real)

  /** Twice the signed area of the triangle `start`, `end`, `point`. */
  function Orient(start: Point, end: Point, point: Point): real {
    (end.x - start.x) * (point.y - start.y) - (end.y - start.y) * (point.x - start.x)
  }

  function Cross(p: Point, q: Point): real {
    p.x * q.y - q.x * p.y
  }

  function Abs(r: real): (a: real)
    ensures 0.0 <= a && (a == r || a == -r)
  {
    if r < 0.0 then -r else r
  }

  /** The point a fraction `t` of the way from `p` to `q`. */
  function Lerp(p: Point, q: Point, t: real): Point {
    Point(p.x + t * (q.x - p.x), p.y + t * (q.y - p.y))
  }

  lemma OrientRotates(a: Point, b: Point, c: Point)
    ensures Orient(a, b, c) == Orient(b, c, a) == Orient(c, a, b)
    ensures Orient(b, a, c) == -Orient(a, b, c)
  {
  }

  lemma LerpReal(u: real, v: real, p: Point, q: Point, t: real)
    ensures u * (p.x + t * (q.x - p.x)) - v * (p.y + t * (q.y - p.y))
         == (u * p.x - v * p.y) + t * ((u * q.x - v * q.y) - (u * p.x - v * p.y))
  {
  }

  lemma OrientLerp(a: Point, b: Point, p: Point, q: Point, t: real)
    ensures Orient(a, b, Lerp(p, q, t)) == Orient(a, b, p) + t * (Orient(a, b, q) - Orient(a, b, p))
  {
    var u, v := -(b.y - a.y), -(b.x - a.x);
    LerpReal(u, v, p, q, t);
  }

  lemma ProductNonnegative(a: real, b: real)
    requires 0.0 <= a && 0.0 <= b
    ensures 0.0 <= a * b
  {
  }

  lemma ProductPositive(a: real, b: real)
    requires 0.0 < a && 0.0 < b
    ensures 0.0 < a * b
  {
  }

  /** A convex combination of two nonnegative values is nonnegative. */
  lemma MixKeepsSign(u: real, v: real, t: real)
    requires 0.0 <= t <= 1.0 && 0.0 <= u && 0.0 <= v
    ensures 0.0 <= u + t * (v - u)
  {
    ProductNonnegative(1.0 - t, u);
    ProductNonnegative(t, v);
    assert u + t * (v - u) == (1.0 - t) * u + t * v;
  }

  lemma MixIsBetween(f: real, u: real, v: real, t: real)
    requires 0.0 <= t <= 1.0 && f == u + t * (v - u)
    ensures u <= f <= v || v <= f <= u
  {
    if u <= v {
      ProductNonnegative(t, v - u);
      ProductNonnegative(1.0 - t, v - u);
      assert u + t * (v - u) == v - (1.0 - t) * (v - u);
    }
    if v <= u {
      ProductNonnegative(t, u - v);
      ProductNonnegative(1.0 - t, u - v);
      assert t * (v - u) == -(t * (u - v));
      assert u + t * (v - u) == v + (1.0 - t) * (u - v);
    }
  }

  lemma OrientLerpIsBetween(a: Point, b: Point, p: Point, q: Point, t: real)
    requires 0.0 <= t <= 1.0
    ensures var f, u, v := Orient(a, b, Lerp(p, q, t)), Orient(a, b, p), Orient(a, b, q);
            u <= f <= v || v <= f <= u
  {
    OrientLerp(a, b, p, q, t);
    MixIsBetween(Orient(a, b, Lerp(p, q, t)), Orient(a, b, p), Orient(a, b, q), t);
  }

  /** Any four points are affinely dependent, with their orientations as the coefficients. */
  lemma FourPoints(a: Point, b: Point, p: Point, q: Point, r: Point, s: Point)
    ensures Orient(q, r, s) + Orient(p, q, s) == Orient(p, r, s) + Orient(p, q, r)
    ensures Orient(q, r, s) * Orient(a, b, p) + Orient(p, q, s) * Orient(a, b, r)
         == Orient(p, r, s) * Orient(a, b, q) + Orient(p, q, r) * Orient(a, b, s)
  {
  }
}
