/**
 Closed vertex lists ("rings") as the scorer stores them, and the two facts about a convex
 ring that survive clipping:
   - every three vertices taken in list order turn the same way;
   - along the list no affine function goes up, down, up and down again.
 Both survive putting a point of an edge between the edge's ends, and dropping a vertex.
 */
module ConvexRings {
  import opened Geometry

  // ----- closed sums -------------------------------------------------------------------

  /** The sum of `Cross` over consecutive points of an open path. */
  function PathSum(path: seq<Point>): real {
    if |path| < 2 then 0.0 else Cross(path[0], path[1]) + PathSum(path[1..])
  }

  /** Twice the signed area of a closed vertex list. */
  function Shoelace(ring: seq<Point>): real {
    if ring == [] then 0.0 else PathSum(ring + [ring[0]])
  }

  /** The absolute shoelace area. */
  function Area(ring: seq<Point>): (a: real)
    ensures 0.0 <= a
  {
    Abs(Shoelace(ring)) / 2.0
  }

  /** The sum of the triangles that `apex` spans with the steps of an open path. */
  function FanSum(apex: Point, path: seq<Point>): real {
    if |path| < 2 then 0.0 else Orient(apex, path[0], path[1]) + FanSum(apex, path[1..])
  }

  lemma OrientIsCrosses(apex: Point, p: Point, q: Point)
    ensures Orient(apex, p, q) == Cross(p, q) + Cross(q, apex) - Cross(p, apex)
  {
  }

  lemma {:induction false} FanIsPath(apex: Point, path: seq<Point>)
    requires path != []
    ensures FanSum(apex, path) == PathSum(path) + Cross(path[|path| - 1], apex) - Cross(path[0], apex)
  {
    hide Orient, Cross;
    if |path| >= 2 {
      FanIsPath(apex, path[1..]);
      assert path[1..][|path[1..]| - 1] == path[|path| - 1];
      OrientIsCrosses(apex, path[0], path[1]);
    }
  }

  /** A closed sum does not depend on the point it is measured from. */
  lemma ShoelaceIsFan(apex: Point, ring: seq<Point>)
    requires ring != []
    ensures Shoelace(ring) == FanSum(apex, ring + [ring[0]])
  {
    FanIsPath(apex, ring + [ring[0]]);
  }

  lemma {:induction false} FanJoins(apex: Point, left: seq<Point>, mid: Point, right: seq<Point>)
    ensures FanSum(apex, left + [mid] + right)
         == FanSum(apex, left + [mid]) + FanSum(apex, [mid] + right)
  {
    if left == [] {
      assert left + [mid] + right == [mid] + right;
    } else {
      var whole, part := left + [mid] + right, left + [mid];
      FanJoins(apex, left[1..], mid, right);
      assert whole[1..] == left[1..] + [mid] + right;
      assert part[1..] == left[1..] + [mid];
      assert whole[1] == part[1];
    }
  }

  // ----- editing a list ----------------------------------------------------------------

  function InsertAt<T>(xs: seq<T>, i: nat, x: T): (ys: seq<T>)
    requires i <= |xs|
    ensures |ys| == |xs| + 1 && ys[i] == x
    ensures forall k :: 0 <= k < i ==> ys[k] == xs[k]
    ensures forall k :: i < k < |ys| ==> ys[k] == xs[k - 1]
  {
    xs[..i] + [x] + xs[i..]
  }

  function RemoveAt<T>(xs: seq<T>, i: nat): (ys: seq<T>)
    requires i < |xs|
    ensures |ys| == |xs| - 1
    ensures forall k :: 0 <= k < i ==> ys[k] == xs[k]
    ensures forall k :: i <= k < |ys| ==> ys[k] == xs[k + 1]
  {
    xs[..i] + xs[i + 1..]
  }

  /** The index before `i` around a list of length `n`. */
  function Before(n: nat, i: nat): (k: nat)
    requires i < n
    ensures k < n
  {
    if i == 0 then n - 1 else i - 1
  }

  // ----- no zigzag ---------------------------------------------------------------------

  predicate Alternates(a: real, b: real, c: real, d: real) {
    a < b && a < d && c < b && c < d
  }

  /** The values at four increasing indices go up and down twice. */
  predicate Zigzag(fs: seq<real>, i: nat, j: nat, k: nat, l: nat)
    requires i < j < k < l < |fs|
  {
    Alternates(fs[i], fs[j], fs[k], fs[l]) || Alternates(fs[j], fs[k], fs[l], fs[i])
  }

  ghost predicate NoZigzag(fs: seq<real>) {
    forall i: nat, j: nat, k: nat, l: nat | i < j < k < l < |fs| :: !Zigzag(fs, i, j, k, l)
  }

  lemma RemoveKeepsNoZigzag(fs: seq<real>, i: nat)
    requires i < |fs| && NoZigzag(fs)
    ensures NoZigzag(RemoveAt(fs, i))
  {
    var gs := RemoveAt(fs, i);
    forall a: nat, b: nat, c: nat, d: nat | a < b < c < d < |gs|
      ensures !Zigzag(gs, a, b, c, d)
    {
      var a', b', c', d' := if a < i then a else a + 1, if b < i then b else b + 1,
                            if c < i then c else c + 1, if d < i then d else d + 1;
      assert !Zigzag(fs, a', b', c', d');
    }
  }

  /** Where an old value at least as high, or at least as low, as the inserted one stands. */
  function Stand(fs: seq<real>, i: nat, f: real, high: bool): (k: nat)
    requires i < |fs|
    requires Between(fs, i, f)
    ensures k < |fs| && (k == i || k == Before(|fs|, i))
    ensures if high then f <= fs[k] else fs[k] <= f
  {
    if (fs[i] <= f) == high && fs[i] != f then Before(|fs|, i) else i
  }

  ghost predicate Between(fs: seq<real>, i: nat, f: real)
    requires i < |fs|
  {
    fs[Before(|fs|, i)] <= f <= fs[i] || fs[i] <= f <= fs[Before(|fs|, i)]
  }

  lemma InsertKeepsNoZigzag(fs: seq<real>, i: nat, f: real)
    requires i < |fs| && NoZigzag(fs) && Between(fs, i, f)
    ensures NoZigzag(InsertAt(fs, i, f))
  {
    var gs := InsertAt(fs, i, f);
    forall a: nat, b: nat, c: nat, d: nat | a < b < c < d < |gs|
      ensures !Zigzag(gs, a, b, c, d)
    {
      if Zigzag(gs, a, b, c, d) {
        var up := Alternates(gs[b], gs[c], gs[d], gs[a]);
        var a', b', c', d' := if a < i then a else a - 1, if b < i then b else b - 1,
                              if c < i then c else c - 1, if d < i then d else d - 1;
        if a == i {
          var k := Stand(fs, i, f, up);
          if k == i || 0 < i {
            assert Zigzag(fs, k, b', c', d');
          } else {
            assert Zigzag(fs, b', c', d', k);
          }
        } else if b == i {
          assert Zigzag(fs, a', Stand(fs, i, f, !up), c', d');
        } else if c == i {
          assert Zigzag(fs, a', b', Stand(fs, i, f, up), d');
        } else if d == i {
          assert Zigzag(fs, a', b', c', Stand(fs, i, f, !up));
        } else {
          assert Zigzag(fs, a', b', c', d');
        }
      }
    }
  }

  // ----- triples -----------------------------------------------------------------------

  predicate Turns(s: real, ring: seq<Point>, i: nat, j: nat, k: nat)
    requires i <= j <= k < |ring|
  {
    0.0 <= s * Orient(ring[i], ring[j], ring[k])
  }

  /** Every three vertices in list order turn to the side `s` (1.0 left, -1.0 right). */
  ghost predicate TriplesTurn(s: real, ring: seq<Point>) {
    forall i: nat, j: nat, k: nat | i < j < k < |ring| :: Turns(s, ring, i, j, k)
  }

  lemma TripleWeak(s: real, ring: seq<Point>, i: nat, j: nat, k: nat)
    requires TriplesTurn(s, ring) && i <= j <= k < |ring|
    ensures Turns(s, ring, i, j, k)
  {
    if i < j < k {
    } else {
      assert Orient(ring[i], ring[j], ring[k]) == 0.0;
    }
  }

  lemma RemoveKeepsTriples(s: real, ring: seq<Point>, i: nat)
    requires i < |ring| && TriplesTurn(s, ring)
    ensures TriplesTurn(s, RemoveAt(ring, i))
  {
    var rest := RemoveAt(ring, i);
    forall a: nat, b: nat, c: nat | a < b < c < |rest|
      ensures Turns(s, rest, a, b, c)
    {
      var a', b', c' := if a < i then a else a + 1, if b < i then b else b + 1, if c < i then c else c + 1;
      assert Turns(s, ring, a', b', c');
    }
  }

  lemma MixedOrient(s: real, a: Point, b: Point, p: Point, q: Point, t: real)
    requires 0.0 <= t <= 1.0
    requires 0.0 <= s * Orient(a, b, p) && 0.0 <= s * Orient(a, b, q)
    ensures 0.0 <= s * Orient(a, b, Lerp(p, q, t))
  {
    var u, v := Orient(a, b, p), Orient(a, b, q);
    OrientLerp(a, b, p, q, t);
    MixKeepsSign(s * u, s * v, t);
    assert s * (u + t * (v - u)) == s * u + t * (s * v - s * u);
  }

  lemma MixedFirst(s: real, p: Point, q: Point, t: real, b: Point, c: Point)
    requires 0.0 <= t <= 1.0
    requires 0.0 <= s * Orient(p, b, c) && 0.0 <= s * Orient(q, b, c)
    ensures 0.0 <= s * Orient(Lerp(p, q, t), b, c)
  {
    OrientRotates(p, b, c);
    OrientRotates(q, b, c);
    MixedOrient(s, b, c, p, q, t);
    OrientRotates(Lerp(p, q, t), b, c);
  }

  lemma MixedSecond(s: real, a: Point, p: Point, q: Point, t: real, c: Point)
    requires 0.0 <= t <= 1.0
    requires 0.0 <= s * Orient(a, p, c) && 0.0 <= s * Orient(a, q, c)
    ensures 0.0 <= s * Orient(a, Lerp(p, q, t), c)
  {
    OrientRotates(a, p, c);
    OrientRotates(a, q, c);
    MixedOrient(s, c, a, p, q, t);
    OrientRotates(a, Lerp(p, q, t), c);
  }

  lemma InsertKeepsTriples(s: real, ring: seq<Point>, i: nat, t: real)
    requires i < |ring| && 0.0 <= t <= 1.0 && TriplesTurn(s, ring)
    ensures TriplesTurn(s, InsertAt(ring, i, Lerp(ring[Before(|ring|, i)], ring[i], t)))
  {
    hide Orient, Lerp;
    var p, q := ring[Before(|ring|, i)], ring[i];
    var more := InsertAt(ring, i, Lerp(p, q, t));
    forall a: nat, b: nat, c: nat | a < b < c < |more|
      ensures Turns(s, more, a, b, c)
    {
      var a', b', c' := if a < i then a else a - 1, if b < i then b else b - 1, if c < i then c else c - 1;
      if a == i {
        TripleWeak(s, ring, i, b', c');
        if i == 0 {
          TripleWeak(s, ring, b', c', |ring| - 1);
          OrientRotates(p, ring[b'], ring[c']);
        } else {
          TripleWeak(s, ring, i - 1, b', c');
        }
        MixedFirst(s, p, q, t, ring[b'], ring[c']);
      } else if b == i {
        TripleWeak(s, ring, a', i - 1, c');
        TripleWeak(s, ring, a', i, c');
        MixedSecond(s, ring[a'], p, q, t, ring[c']);
      } else if c == i {
        TripleWeak(s, ring, a', b', i - 1);
        TripleWeak(s, ring, a', b', i);
        MixedOrient(s, ring[a'], ring[b'], p, q, t);
      } else {
        TripleWeak(s, ring, a', b', c');
      }
    }
  }

  // ----- rings -------------------------------------------------------------------------

  /** The values of the affine function `Orient(u, v, .)` along a list of points. */
  function Heights(u: Point, v: Point, ring: seq<Point>): (fs: seq<real>)
    ensures |fs| == |ring| && forall k :: 0 <= k < |fs| ==> fs[k] == Orient(u, v, ring[k])
  {
    seq(|ring|, k requires 0 <= k < |ring| => Orient(u, v, ring[k]))
  }

  ghost predicate Convex(s: real, ring: seq<Point>) {
    && TriplesTurn(s, ring)
    && forall u, v :: NoZigzag(Heights(u, v, ring))
  }

  lemma RemoveKeepsConvex(s: real, ring: seq<Point>, i: nat)
    requires i < |ring| && Convex(s, ring)
    ensures Convex(s, RemoveAt(ring, i))
  {
    RemoveKeepsTriples(s, ring, i);
    forall u, v
      ensures NoZigzag(Heights(u, v, RemoveAt(ring, i)))
    {
      RemoveKeepsNoZigzag(Heights(u, v, ring), i);
      assert Heights(u, v, RemoveAt(ring, i)) == RemoveAt(Heights(u, v, ring), i);
    }
  }

  lemma InsertKeepsConvex(s: real, ring: seq<Point>, i: nat, t: real)
    requires i < |ring| && 0.0 <= t <= 1.0 && Convex(s, ring)
    ensures Convex(s, InsertAt(ring, i, Lerp(ring[Before(|ring|, i)], ring[i], t)))
  {
    var p, q := ring[Before(|ring|, i)], ring[i];
    var more := InsertAt(ring, i, Lerp(p, q, t));
    InsertKeepsTriples(s, ring, i, t);
    forall u, v
      ensures NoZigzag(Heights(u, v, more))
    {
      var fs := Heights(u, v, ring);
      var f := Orient(u, v, Lerp(p, q, t));
      OrientLerpIsBetween(u, v, p, q, t);
      assert fs[i] == Orient(u, v, q) && fs[Before(|fs|, i)] == Orient(u, v, p);
      assert Between(fs, i, f);
      InsertKeepsNoZigzag(fs, i, f);
      assert Heights(u, v, more) == InsertAt(fs, i, f);
    }
  }
}
