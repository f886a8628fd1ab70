/** The polygons the schema accepts are strictly convex in the sense the clipper's bounds need. */
module ConvexPolygons {
  import opened Geometry
  import opened ConvexRings
  import opened Clipping
  import opened TriangleBound

  /** Three vertices in list order turn properly to the side `s`. */
  predicate StrictTurn(s: real, ring: seq<Point>, i: nat, j: nat, k: nat)
    requires i < j < k < |ring|
  {
    0.0 < s * Orient(ring[i], ring[j], ring[k])
  }

  /** Every three vertices in list order turn properly to one side. */
  ghost predicate StrictlyConvex(s: real, ring: seq<Point>) {
    && IsSign(s) && 3 <= |ring|
    && forall i: nat, j: nat, k: nat | i < j < k < |ring| :: StrictTurn(s, ring, i, j, k)
  }

  function Next(n: nat, i: nat): (k: nat)
    requires i < n
    ensures k < n
  {
    if i + 1 == n then 0 else i + 1
  }

  ghost predicate Distinct(ring: seq<Point>) {
    forall i, j :: 0 <= i < j < |ring| ==> ring[i] != ring[j]
  }

  predicate TurnsAt(s: real, ring: seq<Point>, i: nat)
    requires i < |ring|
  {
    var j := Next(|ring|, i);
    0.0 < s * Orient(ring[i], ring[j], ring[Next(|ring|, j)])
  }

  predicate SidesWith(s: real, ring: seq<Point>, i: nat, j: nat)
    requires i < |ring| && j < |ring|
  {
    Inside(s, ring[i], ring[Next(|ring|, i)], ring[j])
  }

  /**
   A polygon the schema accepts: at least three vertices, no two equal, every turn proper and
   to the side `s`, and (convexity, taken globally) every vertex on the closed side `s` of
   every edge.
   */
  ghost predicate AcceptedPolygon(s: real, ring: seq<Point>) {
    && IsSign(s) && 3 <= |ring| && Distinct(ring)
    && (forall i: nat | i < |ring| :: TurnsAt(s, ring, i))
    && (forall i: nat, j: nat | i < |ring| && j < |ring| :: SidesWith(s, ring, i, j))
  }

  lemma RotateKeepsAccepted(s: real, ring: seq<Point>, k: nat)
    requires k < |ring| && AcceptedPolygon(s, ring)
    ensures AcceptedPolygon(s, Rotate(ring, k))
  {
    var n, turned := |ring|, Rotate(ring, k);
    forall i: nat | i < n
      ensures TurnsAt(s, turned, i)
    {
      assert TurnsAt(s, ring, if i + k < n then i + k else i + k - n);
    }
    forall i: nat, j: nat | i < n && j < n
      ensures SidesWith(s, turned, i, j)
    {
      assert SidesWith(s, ring, if i + k < n then i + k else i + k - n, if j + k < n then j + k else j + k - n);
    }
  }

  // ----- around one vertex -------------------------------------------------------------

  /** Coordinates of `v` seen from `o`: how far it leans towards `u`, and towards `w`. */
  function Lean(s: real, o: Point, v: Point, w: Point): real {
    s * Orient(o, v, w)
  }

  lemma PlaneIdentity(o: Point, u: Point, w: Point, p: Point, q: Point)
    ensures Orient(o, u, w) * Orient(o, p, q)
         == Orient(o, p, w) * Orient(o, u, q) - Orient(o, q, w) * Orient(o, u, p)
  {
  }

  lemma LeansGiveTurn(s: real, o: Point, u: Point, w: Point, p: Point, q: Point)
    requires IsSign(s)
    ensures Lean(s, o, u, w) * Lean(s, o, p, q)
         == Lean(s, o, p, w) * Lean(s, o, u, q) - Lean(s, o, q, w) * Lean(s, o, u, p)
  {
    PlaneIdentity(o, u, w, p, q);
    SignsCancel(s, Orient(o, u, w), Orient(o, p, q));
    SignsCancel(s, Orient(o, p, w), Orient(o, u, q));
    SignsCancel(s, Orient(o, q, w), Orient(o, u, p));
  }

  lemma SignsCancel(s: real, x: real, y: real)
    requires IsSign(s)
    ensures (s * x) * (s * y) == x * y
  {
  }

  lemma TurnFromApex(s: real, o: Point, p: Point, q: Point, x: Point)
    requires IsSign(s)
    ensures s * Orient(p, q, x) == Lean(s, o, p, q) + Lean(s, o, q, x) - Lean(s, o, p, x)
  {
    assert Orient(p, q, x) == Orient(o, p, q) + Orient(o, q, x) - Orient(o, p, x);
  }

  /** Both leans of a vertex vanish only at the apex. */
  lemma LeansIdentify(s: real, o: Point, u: Point, w: Point, p: Point, q: Point)
    requires IsSign(s) && Lean(s, o, u, w) != 0.0
    requires Lean(s, o, u, p) == Lean(s, o, u, q) && Lean(s, o, p, w) == Lean(s, o, q, w)
    ensures p == q
  {
    var d := Orient(o, u, w);
    assert Orient(o, u, p) == Orient(o, u, q) && Orient(o, p, w) == Orient(o, q, w);
    var dx, dy := p.x - q.x, p.y - q.y;
    assert (u.x - o.x) * dy - (u.y - o.y) * dx == 0.0;
    assert dx * (w.y - o.y) - dy * (w.x - o.x) == 0.0;
    assert d * dx == (u.x - o.x) * (dx * (w.y - o.y) - dy * (w.x - o.x)) + (w.x - o.x) * ((u.x - o.x) * dy - (u.y - o.y) * dx);
    assert d * dy == (u.y - o.y) * (dx * (w.y - o.y) - dy * (w.x - o.x)) + (w.y - o.y) * ((u.x - o.x) * dy - (u.y - o.y) * dx);
    Cancel(d, dx);
    Cancel(d, dy);
  }

  lemma ApexLeans(s: real, o: Point, u: Point, w: Point)
    ensures Lean(s, o, u, o) == 0.0 && Lean(s, o, o, w) == 0.0
  {
    assert Orient(o, u, o) == 0.0 && Orient(o, o, w) == 0.0;
  }

  /** How far vertex `j` leans away from the last vertex, and away from vertex 1, seen from vertex 0. */
  function FromLast(s: real, ring: seq<Point>, j: nat): real
    requires j < |ring|
  {
    Lean(s, ring[0], ring[j], ring[|ring| - 1])
  }

  function FromFirst(s: real, ring: seq<Point>, j: nat): real
    requires j < |ring| && 2 <= |ring|
  {
    Lean(s, ring[0], ring[1], ring[j])
  }

  lemma LeansAreSided(s: real, ring: seq<Point>, j: nat)
    requires AcceptedPolygon(s, ring) && 0 < j < |ring|
    ensures 0.0 <= FromLast(s, ring, j) && 0.0 <= FromFirst(s, ring, j)
    ensures 0.0 < FromFirst(s, ring, |ring| - 1)
    ensures j + 1 < |ring| ==> 0.0 <= Lean(s, ring[0], ring[j], ring[j + 1])
  {
    var n, o := |ring|, ring[0];
    assert SidesWith(s, ring, n - 1, j) && SidesWith(s, ring, 0, j) && TurnsAt(s, ring, n - 1);
    OrientRotates(ring[n - 1], o, ring[j]);
    OrientRotates(ring[n - 1], o, ring[1]);
    if j + 1 < n {
      assert SidesWith(s, ring, j, 0);
      OrientRotates(ring[j], ring[j + 1], o);
    }
  }

  /** `a`, `b` and `c`, `e` are the leans of two vertices, `l` the turn between them. */
  lemma LeansPersist(d: real, l: real, a: real, b: real, c: real, e: real)
    requires 0.0 <= d && 0.0 <= l && 0.0 <= a && 0.0 < b && 0.0 <= c && 0.0 <= e
    requires d * l == a * e - c * b
    ensures e == 0.0 ==> c == 0.0
    ensures 0.0 < c ==> 0.0 < a
  {
    ProductNonnegative(d, l);
    if 0.0 < c {
      ProductPositive(c, b);
    }
  }

  lemma {:induction false} FromFirstPositive(s: real, ring: seq<Point>, j: nat)
    requires AcceptedPolygon(s, ring) && 2 <= j < |ring|
    ensures 0.0 < FromFirst(s, ring, j)
  {
    hide Orient;
    var n, o := |ring|, ring[0];
    if j == 2 {
      assert TurnsAt(s, ring, 0);
    } else {
      FromFirstPositive(s, ring, j - 1);
      LeansAreSided(s, ring, j);
      LeansAreSided(s, ring, j - 1);
      LeansGiveTurn(s, o, ring[1], ring[n - 1], ring[j - 1], ring[j]);
      LeansPersist(FromFirst(s, ring, n - 1), Lean(s, o, ring[j - 1], ring[j]),
                   FromLast(s, ring, j - 1), FromFirst(s, ring, j - 1), FromLast(s, ring, j), FromFirst(s, ring, j));
      if FromFirst(s, ring, j) == 0.0 {
        ApexLeans(s, o, ring[1], ring[n - 1]);
        LeansIdentify(s, o, ring[1], ring[n - 1], ring[j], o);
      }
    }
  }

  lemma {:induction false} FromLastPositive(s: real, ring: seq<Point>, j: nat)
    requires AcceptedPolygon(s, ring) && 1 <= j <= |ring| - 2
    ensures 0.0 < FromLast(s, ring, j)
    decreases |ring| - j
  {
    var n, o := |ring|, ring[0];
    LeansAreSided(s, ring, j);
    if j == 1 {
    } else if j == n - 2 {
      assert TurnsAt(s, ring, n - 2);
      OrientRotates(ring[n - 2], ring[n - 1], o);
    } else {
      FromLastPositive(s, ring, j + 1);
      FromFirstPositive(s, ring, j);
      FromFirstPositive(s, ring, j + 1);
      LeansGiveTurn(s, o, ring[1], ring[n - 1], ring[j], ring[j + 1]);
      LeansPersist(FromFirst(s, ring, n - 1), Lean(s, o, ring[j], ring[j + 1]),
                   FromLast(s, ring, j), FromFirst(s, ring, j), FromLast(s, ring, j + 1), FromFirst(s, ring, j + 1));
    }
  }

  /** Equal slopes with leans moving towards the last vertex mean the leans do not move. */
  lemma EqualSlopes(a: real, b: real, c: real, d: real)
    requires 0.0 < a && 0.0 <= b && 0.0 <= c && 0.0 < d && a * d == c * b && d <= b && a <= c
    ensures a == c && b == d
  {
    assert c * b - a * d == (c - a) * b + a * (b - d);
    ProductNonnegative(c - a, b);
    ProductNonnegative(a, b - d);
    if d < b {
      ProductPositive(a, b - d);
    } else if a < c {
      ProductPositive(c - a, b);
    }
  }

  lemma StepTurnsFromZero(s: real, ring: seq<Point>, m: nat)
    requires AcceptedPolygon(s, ring) && 1 <= m && m + 1 < |ring|
    ensures 0.0 < Lean(s, ring[0], ring[m], ring[m + 1])
  {
    hide Orient;
    var n, o := |ring|, ring[0];
    LeansAreSided(s, ring, m);
    LeansAreSided(s, ring, m + 1);
    FromLastPositive(s, ring, m);
    FromFirstPositive(s, ring, m + 1);
    if Lean(s, o, ring[m], ring[m + 1]) == 0.0 {
      LeansGiveTurn(s, o, ring[1], ring[n - 1], ring[m], ring[m + 1]);
      assert SidesWith(s, ring, m, 1) && SidesWith(s, ring, m, n - 1);
      TurnFromApex(s, o, ring[m], ring[m + 1], ring[1]);
      TurnFromApex(s, o, ring[m], ring[m + 1], ring[n - 1]);
      OrientRotates(o, ring[m], ring[1]);
      OrientRotates(o, ring[1], ring[m]);
      OrientRotates(o, ring[m + 1], ring[1]);
      OrientRotates(o, ring[1], ring[m + 1]);
      EqualSlopes(FromLast(s, ring, m), FromFirst(s, ring, m), FromLast(s, ring, m + 1), FromFirst(s, ring, m + 1));
      LeansIdentify(s, o, ring[1], ring[n - 1], ring[m], ring[m + 1]);
    }
  }

  /** A turn between two vertices is a rise of the ratio of their leans. */
  lemma TurnIsRise(t: real, l: real, a: real, b: real, c: real, e: real)
    requires 0.0 < t && 0.0 < a && 0.0 < c && t * l == a * e - c * b
    ensures 0.0 < l <==> b / a < e / c
  {
    var p, q := b / a, e / c;
    assert b == p * a && e == q * c;
    assert t * l == (a * c) * (q - p);
    ProductPositive(a, c);
    SameSign(t, l, a * c, q - p);
  }

  lemma SameSign(t: real, l: real, u: real, v: real)
    requires 0.0 < t && 0.0 < u && t * l == u * v
    ensures 0.0 < l <==> 0.0 < v
  {
    if 0.0 < l {
      ProductPositive(t, l);
      if v <= 0.0 {
        ProductNonnegative(u, -v);
      }
    } else {
      ProductNonnegative(t, -l);
      if 0.0 < v {
        ProductPositive(u, v);
      }
    }
  }

  function Slope(s: real, ring: seq<Point>, j: nat): real
    requires j < |ring| && 2 <= |ring| && FromLast(s, ring, j) != 0.0
  {
    FromFirst(s, ring, j) / FromLast(s, ring, j)
  }

  lemma LeansOfRing(s: real, ring: seq<Point>, j: nat, k: nat)
    requires IsSign(s) && 2 <= |ring| && j < |ring| && k < |ring|
    ensures FromFirst(s, ring, |ring| - 1) * Lean(s, ring[0], ring[j], ring[k])
         == FromLast(s, ring, j) * FromFirst(s, ring, k) - FromLast(s, ring, k) * FromFirst(s, ring, j)
  {
    LeansGiveTurn(s, ring[0], ring[1], ring[|ring| - 1], ring[j], ring[k]);
  }

  lemma TurnIsSlopeRise(s: real, ring: seq<Point>, j: nat, k: nat)
    requires IsSign(s) && 2 <= |ring| && j < |ring| && k < |ring|
    requires 0.0 < FromFirst(s, ring, |ring| - 1) && 0.0 < FromLast(s, ring, j) && 0.0 < FromLast(s, ring, k)
    ensures 0.0 < Lean(s, ring[0], ring[j], ring[k]) <==> Slope(s, ring, j) < Slope(s, ring, k)
  {
    hide Orient, Lean, FromFirst, FromLast;
    LeansOfRing(s, ring, j, k);
    TurnIsRise(FromFirst(s, ring, |ring| - 1), Lean(s, ring[0], ring[j], ring[k]),
               FromLast(s, ring, j), FromFirst(s, ring, j), FromLast(s, ring, k), FromFirst(s, ring, k));
  }

  /** Seen from vertex 0, the other vertices come in strictly turning order. */
  lemma {:induction false} TurnsFromZero(s: real, ring: seq<Point>, j: nat, k: nat)
    requires AcceptedPolygon(s, ring) && 1 <= j < k < |ring|
    ensures 0.0 < Lean(s, ring[0], ring[j], ring[k])
    decreases k
  {
    if k == |ring| - 1 {
      FromLastPositive(s, ring, j);
    } else if j == k - 1 {
      StepTurnsFromZero(s, ring, j);
    } else {
      TurnsFromZero(s, ring, j, k - 1);
      StepTurnsFromZero(s, ring, k - 1);
      LeansAreSided(s, ring, k);
      FromLastPositive(s, ring, j);
      FromLastPositive(s, ring, k - 1);
      FromLastPositive(s, ring, k);
      TurnIsSlopeRise(s, ring, j, k - 1);
      TurnIsSlopeRise(s, ring, k - 1, k);
      TurnIsSlopeRise(s, ring, j, k);
    }
  }

  /** One-sided edges, proper turns and distinct vertices put every three vertices in proper turning order. */
  lemma AcceptedIsStrictlyConvex(s: real, ring: seq<Point>)
    requires AcceptedPolygon(s, ring)
    ensures StrictlyConvex(s, ring)
  {
    forall i: nat, j: nat, k: nat | i < j < k < |ring|
      ensures StrictTurn(s, ring, i, j, k)
    {
      RotateKeepsAccepted(s, ring, i);
      var turned := Rotate(ring, i);
      TurnsFromZero(s, turned, j - i, k - i);
    }
  }

  // ----- strictly convex polygons as rings ---------------------------------------------

  lemma BalanceAbout(w: real, x: real, y: real, z: real, a: real, b: real, c: real, d: real, m: real)
    requires w + y == x + z && w * a + y * c == x * b + z * d
    ensures w * (m - a) + y * (m - c) + x * (b - m) + z * (d - m) == 0.0
  {
    assert w * (m - a) == w * m - w * a && y * (m - c) == y * m - y * c;
    assert x * (b - m) == x * b - x * m && z * (d - m) == z * d - z * m;
    assert (w + y) * m == w * m + y * m && (x + z) * m == x * m + z * m;
  }

  lemma WeightedSum(w: real, x: real, y: real, z: real, p: real, q: real, r: real, t: real)
    requires 0.0 < w && 0.0 < x && 0.0 < y && 0.0 < z && 0.0 <= p && 0.0 < q && 0.0 <= r && 0.0 < t
    ensures 0.0 < w * p + y * r + x * q + z * t
  {
    ProductNonnegative(w, p);
    ProductNonnegative(y, r);
    ProductPositive(x, q);
    ProductPositive(z, t);
  }

  lemma WeightedBalance(w: real, x: real, y: real, z: real, a: real, b: real, c: real, d: real)
    requires 0.0 < w && 0.0 < x && 0.0 < y && 0.0 < z && w + y == x + z
    requires w * a + y * c == x * b + z * d
    ensures !Alternates(a, b, c, d)
  {
    var m := if a < c then c else a;
    BalanceAbout(w, x, y, z, a, b, c, d, m);
    if Alternates(a, b, c, d) {
      WeightedSum(w, x, y, z, m - a, b - m, m - c, d - m);
    }
  }

  lemma StrictlyConvexHasNoZigzag(s: real, ring: seq<Point>, u: Point, v: Point)
    requires StrictlyConvex(s, ring)
    ensures NoZigzag(Heights(u, v, ring))
  {
    hide Orient;
    var fs := Heights(u, v, ring);
    forall i: nat, j: nat, k: nat, l: nat | i < j < k < l < |fs|
      ensures !Zigzag(fs, i, j, k, l)
    {
      var p, q, r, t := ring[i], ring[j], ring[k], ring[l];
      assert StrictTurn(s, ring, j, k, l) && StrictTurn(s, ring, i, k, l);
      assert StrictTurn(s, ring, i, j, l) && StrictTurn(s, ring, i, j, k);
      FourPoints(u, v, p, q, r, t);
      var w, x, y, z := s * Orient(q, r, t), s * Orient(p, r, t), s * Orient(p, q, t), s * Orient(p, q, r);
      SignedBalance(s, Orient(q, r, t), Orient(p, r, t), Orient(p, q, t), Orient(p, q, r), fs[i], fs[j], fs[k], fs[l]);
      WeightedBalance(w, x, y, z, fs[i], fs[j], fs[k], fs[l]);
      WeightedBalance(x, y, z, w, fs[j], fs[k], fs[l], fs[i]);
    }
  }

  lemma SignedBalance(s: real, w: real, x: real, y: real, z: real, a: real, b: real, c: real, d: real)
    requires IsSign(s) && w + y == x + z && w * a + y * c == x * b + z * d
    ensures s * w + s * y == s * x + s * z
    ensures (s * w) * a + (s * y) * c == (s * x) * b + (s * z) * d
  {
  }

  lemma StrictlyConvexIsConvex(s: real, ring: seq<Point>)
    requires StrictlyConvex(s, ring)
    ensures Convex(s, ring)
  {
    forall i: nat, j: nat, k: nat | i < j < k < |ring|
      ensures Turns(s, ring, i, j, k)
    {
      assert StrictTurn(s, ring, i, j, k);
    }
    forall u, v
      ensures NoZigzag(Heights(u, v, ring))
    {
      StrictlyConvexHasNoZigzag(s, ring, u, v);
    }
  }
}
