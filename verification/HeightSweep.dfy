/** Rising segments and chains that do not meet keep their order from left to right, at every height over a line. */
module HeightSweep {
  import opened Geometry
  import opened Clipping
  import opened Segments

  // ----- sharing points ----------------------------------------------------------------

  lemma LerpFlips(p: Point, q: Point, t: real)
    ensures Lerp(q, p, 1.0 - t) == Lerp(p, q, t)
  {
    assert p.x + t * (q.x - p.x) == q.x + (1.0 - t) * (p.x - q.x);
    assert p.y + t * (q.y - p.y) == q.y + (1.0 - t) * (p.y - q.y);
  }

  lemma SharePointFlips(p: Point, q: Point, u: Point, v: Point)
    requires SharePoint(p, q, u, v)
    ensures SharePoint(q, p, u, v) && SharePoint(u, v, p, q)
  {
    var t, s :| MeetAt(p, q, u, v, t, s);
    LerpFlips(p, q, t);
    assert MeetAt(q, p, u, v, 1.0 - t, s) && MeetAt(u, v, p, q, s, t);
  }

  /** Meeting does not depend on the direction or the order of the segments. */
  lemma MeetingFlips(p: Point, q: Point, u: Point, v: Point)
    ensures SegmentsIntersect(q, p, u, v) == SegmentsIntersect(p, q, u, v)
    ensures SegmentsIntersect(u, v, p, q) == SegmentsIntersect(p, q, u, v)
  {
    hide SegmentsIntersect;
    IntersectIffSharePoint(p, q, u, v);
    IntersectIffSharePoint(q, p, u, v);
    IntersectIffSharePoint(u, v, p, q);
    if SharePoint(p, q, u, v) {
      SharePointFlips(p, q, u, v);
    }
    if SharePoint(q, p, u, v) {
      SharePointFlips(q, p, u, v);
    }
    if SharePoint(u, v, p, q) {
      SharePointFlips(u, v, p, q);
    }
  }

  function Mix(x: real, y: real, t: real): real {
    x + t * (y - x)
  }

  lemma LerpIsMix(p: Point, q: Point, t: real)
    ensures Lerp(p, q, t) == Point(Mix(p.x, q.x, t), Mix(p.y, q.y, t))
  {
  }

  lemma NestedMix(x: real, y: real, c: real, d: real, t: real)
    ensures Mix(Mix(x, y, c), Mix(x, y, d), t) == Mix(x, y, c + t * (d - c))
  {
    var w := y - x;
    assert t * ((x + d * w) - (x + c * w)) == (t * (d - c)) * w;
    assert (c + t * (d - c)) * w == c * w + (t * (d - c)) * w;
  }

  lemma NestedLerp(p: Point, q: Point, c: real, d: real, t: real)
    ensures Lerp(Lerp(p, q, c), Lerp(p, q, d), t) == Lerp(p, q, c + t * (d - c))
  {
    hide Mix, Lerp;
    LerpIsMix(p, q, c);
    LerpIsMix(p, q, d);
    LerpIsMix(p, q, c + t * (d - c));
    LerpIsMix(Lerp(p, q, c), Lerp(p, q, d), t);
    NestedMix(p.x, q.x, c, d, t);
    NestedMix(p.y, q.y, c, d, t);
  }

  lemma PartMeets(p: Point, q: Point, c: real, d: real, u: Point, v: Point)
    requires 0.0 <= c <= 1.0 && 0.0 <= d <= 1.0 && SharePoint(Lerp(p, q, c), Lerp(p, q, d), u, v)
    ensures SharePoint(p, q, u, v)
  {
    var t, s :| MeetAt(Lerp(p, q, c), Lerp(p, q, d), u, v, t, s);
    NestedLerp(p, q, c, d, t);
    MixIsBetween(c + t * (d - c), c, d, t);
    assert MeetAt(p, q, u, v, c + t * (d - c), s);
  }

  // ----- heights over the line a b -----------------------------------------------------

  function Height(a: Point, b: Point, p: Point): real {
    Orient(a, b, p)
  }

  lemma HeightTurns(a: Point, b: Point, p: Point)
    ensures Height(b, a, p) == -Height(a, b, p)
  {
  }

  lemma HeightOfLerp(a: Point, b: Point, p: Point, q: Point, t: real)
    ensures Height(a, b, Lerp(p, q, t)) == Height(a, b, p) + t * (Height(a, b, q) - Height(a, b, p))
  {
    OrientLerp(a, b, p, q, t);
  }

  /** The point of a rising segment at a height it reaches. */
  lemma AtHeight(a: Point, b: Point, p: Point, q: Point, level: real) returns (t: real)
    requires Height(a, b, p) < Height(a, b, q) && Height(a, b, p) <= level <= Height(a, b, q)
    ensures 0.0 <= t <= 1.0 && Height(a, b, Lerp(p, q, t)) == level && Orient(p, q, Lerp(p, q, t)) == 0.0
    ensures level == Height(a, b, p) ==> Lerp(p, q, t) == p
    ensures level == Height(a, b, q) ==> Lerp(p, q, t) == q
  {
    hide Height;
    var hp, hq := Height(a, b, p), Height(a, b, q);
    t := (level - hp) / (hq - hp);
    QuotientInRange(level - hp, hq - hp);
    HeightOfLerp(a, b, p, q, t);
    assert t * (hq - hp) == level - hp;
    LerpIsInBox(p, q, t);
    if level == hp {
      assert t == 0.0;
    }
    if level == hq {
      assert (hq - hp) * (t - 1.0) == t * (hq - hp) - (hq - hp);
      Cancel(hq - hp, t - 1.0);
    }
  }

  lemma CrossProducts(dx: real, dy: real, wx: real, wy: real, vx: real, vy: real, qx: real, qy: real)
    ensures (vx * wy - vy * wx) * (dx * qy - dy * qx) - (qx * wy - qy * wx) * (dx * vy - dy * vx)
         == (dx * wy - dy * wx) * (vx * qy - vy * qx)
  {
  }

  /** Two points of equal height on two lines: each sees the other's line on the opposite side. */
  lemma SameHeight(a: Point, b: Point, p: Point, q: Point, z: Point, u: Point, v: Point, x: Point)
    requires Height(a, b, z) == Height(a, b, x) && Orient(p, q, z) == 0.0 && Orient(u, v, x) == 0.0
    ensures Orient(u, v, z) * (Height(a, b, q) - Height(a, b, p)) == -(Orient(p, q, x) * (Height(a, b, v) - Height(a, b, u)))
  {
    var dx, dy, wx, wy := b.x - a.x, b.y - a.y, z.x - x.x, z.y - x.y;
    var vx, vy, qx, qy := v.x - u.x, v.y - u.y, q.x - p.x, q.y - p.y;
    CrossProducts(dx, dy, wx, wy, vx, vy, qx, qy);
    Difference(a, b, z, x);
    Difference(u, v, z, x);
    Difference(p, q, z, x);
    Difference(a, b, q, p);
    Difference(a, b, v, u);
    hide Orient, Height;
    Opposites(vx * wy - vy * wx, dx * qy - dy * qx, qx * wy - qy * wx, dx * vy - dy * vx);
  }

  lemma Difference(u: Point, v: Point, z: Point, x: Point)
    ensures Orient(u, v, z) - Orient(u, v, x) == (v.x - u.x) * (z.y - x.y) - (v.y - u.y) * (z.x - x.x)
    ensures Height(u, v, z) - Height(u, v, x) == Orient(u, v, z) - Orient(u, v, x)
  {
  }

  lemma Opposites(f: real, k: real, g: real, l: real)
    requires f * k - g * l == 0.0
    ensures f * k == -((-g) * l)
  {
  }

  lemma SidesSwap(a: Point, b: Point, p: Point, q: Point, z: Point, u: Point, v: Point, x: Point)
    requires Height(a, b, p) < Height(a, b, q) && Height(a, b, u) < Height(a, b, v)
    requires Height(a, b, z) == Height(a, b, x) && Orient(p, q, z) == 0.0 && Orient(u, v, x) == 0.0
    ensures 0.0 < Orient(u, v, z) <==> Orient(p, q, x) < 0.0
  {
    hide Height, Orient;
    SameHeight(a, b, p, q, z, u, v, x);
    ProductSigns(Orient(u, v, z), Height(a, b, q) - Height(a, b, p), Orient(p, q, x), Height(a, b, v) - Height(a, b, u));
  }

  lemma ProductSigns(f: real, k: real, g: real, l: real)
    requires 0.0 < k && 0.0 < l && f * k == -(g * l)
    ensures 0.0 < f <==> g < 0.0
  {
    assert (-f) * k == -(f * k) && (-g) * l == -(g * l);
    if 0.0 < f {
      ProductPositive(f, k);
    } else {
      ProductNonnegative(-f, k);
    }
    if g < 0.0 {
      ProductPositive(-g, l);
    } else {
      ProductNonnegative(g, l);
    }
  }

  // ----- a crossing between two heights ------------------------------------------------

  /** A segment within the heights of a rising segment, with its ends on both sides, meets it. */
  lemma CrossingMeets(a: Point, b: Point, p: Point, q: Point, u: Point, v: Point)
    requires Height(a, b, u) <= Height(a, b, p) <= Height(a, b, v) && Height(a, b, u) <= Height(a, b, q) <= Height(a, b, v)
    requires Height(a, b, u) < Height(a, b, v) && Orient(u, v, q) <= 0.0 < Orient(u, v, p)
    ensures SharePoint(p, q, u, v)
  {
    hide Orient;
    var t := Orient(u, v, p) / (Orient(u, v, p) - Orient(u, v, q));
    QuotientInRange(Orient(u, v, p), Orient(u, v, p) - Orient(u, v, q));
    var z := Lerp(p, q, t);
    OrientLerp(u, v, p, q, t);
    assert t * (Orient(u, v, q) - Orient(u, v, p)) == -(t * (Orient(u, v, p) - Orient(u, v, q)));
    assert Orient(u, v, z) == 0.0;
    OrientLerpIsBetween(a, b, p, q, t);
    var s := AtHeight(a, b, u, v, Height(a, b, z));
    LinesMeetOnce(a, b, u, v, z, Lerp(u, v, s));
    assert MeetAt(p, q, u, v, t, s);
  }

  /** Where a flat segment lies within the heights of a rising one it does not meet, its ends are on one side. */
  lemma FlatStays(a: Point, b: Point, p: Point, q: Point, u: Point, v: Point)
    requires Height(a, b, u) <= Height(a, b, p) <= Height(a, b, v) && Height(a, b, p) == Height(a, b, q)
    requires Height(a, b, u) < Height(a, b, v) && !SegmentsIntersect(p, q, u, v) && 0.0 < Orient(u, v, p)
    ensures 0.0 < Orient(u, v, q)
  {
    hide Orient, SegmentsIntersect;
    if Orient(u, v, q) <= 0.0 {
      CrossingMeets(a, b, p, q, u, v);
      IntersectIffSharePoint(p, q, u, v);
    }
  }

  // ----- rising segments ---------------------------------------------------------------

  predicate Climbs(a: Point, b: Point, p: Point, q: Point) {
    Height(a, b, p) < Height(a, b, q)
  }

  /** The segments share a height. */
  predicate Level(a: Point, b: Point, p: Point, q: Point, u: Point, v: Point) {
    Height(a, b, u) <= Height(a, b, q) && Height(a, b, p) <= Height(a, b, v)
  }

  /** `p` `q` is left of `u` `v` at the lowest height they share. */
  predicate LeftLow(a: Point, b: Point, p: Point, q: Point, u: Point, v: Point) {
    && (Height(a, b, u) <= Height(a, b, p) ==> 0.0 < Orient(u, v, p))
    && (Height(a, b, p) <= Height(a, b, u) ==> Orient(p, q, u) < 0.0)
  }

  /** `p` `q` is left of `u` `v` at the highest height they share. */
  predicate LeftHigh(a: Point, b: Point, p: Point, q: Point, u: Point, v: Point) {
    && (Height(a, b, q) <= Height(a, b, v) ==> 0.0 < Orient(u, v, q))
    && (Height(a, b, v) <= Height(a, b, q) ==> Orient(p, q, v) < 0.0)
  }

  lemma OnItself(p: Point, q: Point)
    ensures Orient(p, q, p) == 0.0 && Orient(p, q, q) == 0.0
  {
  }

  lemma LowTie(a: Point, b: Point, p: Point, q: Point, u: Point, v: Point)
    requires Climbs(a, b, p, q) && Climbs(a, b, u, v) && Height(a, b, p) == Height(a, b, u)
    ensures 0.0 < Orient(u, v, p) <==> Orient(p, q, u) < 0.0
  {
    OnItself(p, q);
    OnItself(u, v);
    SidesSwap(a, b, p, q, p, u, v, u);
  }

  lemma HighTie(a: Point, b: Point, p: Point, q: Point, u: Point, v: Point)
    requires Climbs(a, b, p, q) && Climbs(a, b, u, v) && Height(a, b, q) == Height(a, b, v)
    ensures 0.0 < Orient(u, v, q) <==> Orient(p, q, v) < 0.0
  {
    OnItself(p, q);
    OnItself(u, v);
    SidesSwap(a, b, p, q, q, u, v, v);
  }

  lemma LowAt(a: Point, b: Point, p: Point, q: Point, u: Point, v: Point) returns (t: real)
    requires Climbs(a, b, p, q) && Climbs(a, b, u, v) && Level(a, b, p, q, u, v)
    ensures 0.0 <= t <= 1.0 && Height(a, b, u) <= Height(a, b, Lerp(p, q, t)) <= Height(a, b, v)
    ensures LeftLow(a, b, p, q, u, v) <==> 0.0 < Orient(u, v, Lerp(p, q, t))
  {
    hide Orient, Height;
    if Height(a, b, u) <= Height(a, b, p) {
      t := AtHeight(a, b, p, q, Height(a, b, p));
      if Height(a, b, u) == Height(a, b, p) {
        LowTie(a, b, p, q, u, v);
      }
    } else {
      t := AtHeight(a, b, p, q, Height(a, b, u));
      OnItself(u, v);
      SidesSwap(a, b, p, q, Lerp(p, q, t), u, v, u);
    }
  }

  lemma HighAt(a: Point, b: Point, p: Point, q: Point, u: Point, v: Point) returns (t: real)
    requires Climbs(a, b, p, q) && Climbs(a, b, u, v) && Level(a, b, p, q, u, v)
    ensures 0.0 <= t <= 1.0 && Height(a, b, u) <= Height(a, b, Lerp(p, q, t)) <= Height(a, b, v)
    ensures LeftHigh(a, b, p, q, u, v) <==> 0.0 < Orient(u, v, Lerp(p, q, t))
  {
    hide Orient, Height;
    if Height(a, b, q) <= Height(a, b, v) {
      t := AtHeight(a, b, p, q, Height(a, b, q));
      if Height(a, b, q) == Height(a, b, v) {
        HighTie(a, b, p, q, u, v);
      }
    } else {
      t := AtHeight(a, b, p, q, Height(a, b, v));
      OnItself(u, v);
      SidesSwap(a, b, p, q, Lerp(p, q, t), u, v, v);
    }
  }

  /** Rising segments that do not meet are in the same order at all heights they share. */
  lemma Sweep(a: Point, b: Point, p: Point, q: Point, u: Point, v: Point)
    requires Climbs(a, b, p, q) && Climbs(a, b, u, v) && Level(a, b, p, q, u, v) && !SegmentsIntersect(p, q, u, v)
    ensures LeftLow(a, b, p, q, u, v) <==> LeftHigh(a, b, p, q, u, v)
  {
    hide Orient, Height, SegmentsIntersect, LeftLow, LeftHigh;
    var c := LowAt(a, b, p, q, u, v);
    var d := HighAt(a, b, p, q, u, v);
    var y, z := Lerp(p, q, c), Lerp(p, q, d);
    IntersectIffSharePoint(p, q, u, v);
    if 0.0 < Orient(u, v, y) && Orient(u, v, z) <= 0.0 {
      CrossingMeets(a, b, y, z, u, v);
      PartMeets(p, q, c, d, u, v);
    } else if 0.0 < Orient(u, v, z) && Orient(u, v, y) <= 0.0 {
      CrossingMeets(a, b, z, y, u, v);
      PartMeets(p, q, d, c, u, v);
    }
  }

  // ----- rising chains -----------------------------------------------------------------

  ghost predicate Rising(a: Point, b: Point, chain: seq<Point>) {
    forall i :: 0 <= i < |chain| - 1 ==> Climbs(a, b, chain[i], chain[i + 1])
  }

  lemma {:induction false} RisingIsOrdered(a: Point, b: Point, chain: seq<Point>, i: nat, j: nat)
    requires Rising(a, b, chain) && i <= j < |chain|
    ensures Height(a, b, chain[i]) <= Height(a, b, chain[j]) && (i < j ==> Height(a, b, chain[i]) < Height(a, b, chain[j]))
  {
    hide Height;
    if i < j {
      RisingIsOrdered(a, b, chain, i, j - 1);
      assert Climbs(a, b, chain[j - 1], chain[j]);
    }
  }

  /** From the segments at `i` and `j` on, no two of the chains meet, those two aside. */
  ghost predicate ApartFrom(left: seq<Point>, right: seq<Point>, i: nat, j: nat) {
    forall k, l :: i <= k < |left| - 1 && j <= l < |right| - 1 && (k, l) != (i, j) ==>
      !SegmentsIntersect(left[k], left[k + 1], right[l], right[l + 1])
  }

  /** The segment of the chain that reaches the height first. */
  predicate Reaches(a: Point, b: Point, chain: seq<Point>, i: nat, p: Point) {
    i < |chain| - 1 && Height(a, b, chain[i]) < Height(a, b, p) <= Height(a, b, chain[i + 1])
  }

  lemma NextSegment(a: Point, b: Point, q: Point, next: Point, u: Point, v: Point)
    requires Climbs(a, b, q, next) && Climbs(a, b, u, v) && !SegmentsIntersect(q, next, u, v)
    requires Height(a, b, u) <= Height(a, b, q) <= Height(a, b, v) && 0.0 < Orient(u, v, q)
    ensures Level(a, b, q, next, u, v) && LeftHigh(a, b, q, next, u, v)
  {
    hide Orient, Height, SegmentsIntersect;
    if Height(a, b, q) == Height(a, b, u) {
      LowTie(a, b, q, next, u, v);
    }
    Sweep(a, b, q, next, u, v);
  }

  lemma NextOther(a: Point, b: Point, p: Point, q: Point, v: Point, next: Point)
    requires Climbs(a, b, p, q) && Climbs(a, b, v, next) && !SegmentsIntersect(p, q, v, next)
    requires Height(a, b, p) <= Height(a, b, v) <= Height(a, b, q) && Orient(p, q, v) < 0.0
    ensures Level(a, b, p, q, v, next) && LeftHigh(a, b, p, q, v, next)
  {
    hide Orient, Height, SegmentsIntersect;
    if Height(a, b, p) == Height(a, b, v) {
      LowTie(a, b, p, q, v, next);
    }
    Sweep(a, b, p, q, v, next);
  }

  /** Two rising chains, the left one left of the right one where the segments at `i` and `j` end. */
  ghost predicate Climbing(a: Point, b: Point, left: seq<Point>, right: seq<Point>, i: nat, j: nat) {
    && Rising(a, b, left) && Rising(a, b, right) && i < |left| - 1 && j < |right| - 1 && ApartFrom(left, right, i, j)
    && Level(a, b, left[i], left[i + 1], right[j], right[j + 1])
    && LeftHigh(a, b, left[i], left[i + 1], right[j], right[j + 1])
    && Height(a, b, right[j]) < Height(a, b, left[|left| - 1]) && Height(a, b, left[i]) < Height(a, b, right[|right| - 1])
  }

  lemma ClimbLeft(a: Point, b: Point, left: seq<Point>, right: seq<Point>, i: nat, j: nat)
    requires Climbing(a, b, left, right, i, j) && Height(a, b, left[i + 1]) < Height(a, b, right[j + 1]) && i + 2 < |left|
    ensures Climbing(a, b, left, right, i + 1, j)
  {
    hide Orient, Height, SegmentsIntersect;
    var q, next, u, v := left[i + 1], left[i + 2], right[j], right[j + 1];
    assert Climbs(a, b, q, next) && Climbs(a, b, u, v) && !SegmentsIntersect(left[i + 1], left[i + 2], right[j], right[j + 1]);
    RisingIsOrdered(a, b, right, j + 1, |right| - 1);
    NextSegment(a, b, q, next, u, v);
  }

  lemma ClimbRight(a: Point, b: Point, left: seq<Point>, right: seq<Point>, i: nat, j: nat)
    requires Climbing(a, b, left, right, i, j) && Height(a, b, right[j + 1]) <= Height(a, b, left[i + 1]) && j + 2 < |right|
    requires Height(a, b, right[j + 1]) == Height(a, b, left[i + 1]) ==> i + 2 < |left|
    ensures Climbing(a, b, left, right, i, j + 1)
  {
    hide Orient, Height, SegmentsIntersect;
    var p, q, v, next := left[i], left[i + 1], right[j + 1], right[j + 2];
    assert Climbs(a, b, p, q) && Climbs(a, b, v, next) && !SegmentsIntersect(left[i], left[i + 1], right[j + 1], right[j + 2]);
    RisingIsOrdered(a, b, left, i + 1, |left| - 1);
    NextOther(a, b, p, q, v, next);
  }

  /** Where a chain that ends lower or level has arrived. */
  ghost predicate Arrived(a: Point, b: Point, left: seq<Point>, right: seq<Point>, top: nat)
    requires left != [] && right != []
  {
    var x, y := left[|left| - 1], right[|right| - 1];
    if Height(a, b, x) < Height(a, b, y) then Reaches(a, b, right, top, x) && 0.0 < Orient(right[top], right[top + 1], x)
    else Reaches(a, b, left, top, y) && Orient(left[top], left[top + 1], y) < 0.0
  }

  lemma LeftArrives(a: Point, b: Point, left: seq<Point>, right: seq<Point>, i: nat, j: nat)
    requires Climbing(a, b, left, right, i, j) && i + 2 == |left| && Height(a, b, left[i + 1]) <= Height(a, b, right[j + 1])
    requires Height(a, b, right[j + 1]) == Height(a, b, left[i + 1]) ==> j + 2 < |right|
    ensures Arrived(a, b, left, right, j)
  {
    hide Orient, Height, SegmentsIntersect, ApartFrom;
    RisingIsOrdered(a, b, right, j + 1, |right| - 1);
  }

  lemma RightArrives(a: Point, b: Point, left: seq<Point>, right: seq<Point>, i: nat, j: nat)
    requires Climbing(a, b, left, right, i, j) && j + 2 == |right| && Height(a, b, right[j + 1]) <= Height(a, b, left[i + 1])
    ensures Arrived(a, b, left, right, i)
  {
    hide Orient, Height, SegmentsIntersect, ApartFrom;
    RisingIsOrdered(a, b, left, i + 1, |left| - 1);
  }

  /** The lower of the two tops stays on its side of the other chain. */
  lemma {:induction false} Climb(a: Point, b: Point, left: seq<Point>, right: seq<Point>, i: nat, j: nat)
    returns (top: nat)
    requires Climbing(a, b, left, right, i, j)
    ensures left != [] && right != [] && Arrived(a, b, left, right, top)
    decreases |left| + |right| - i - j
  {
    hide Orient, Height, SegmentsIntersect, ApartFrom, Rising, Level, LeftHigh, Arrived;
    var hq, hv := Height(a, b, left[i + 1]), Height(a, b, right[j + 1]);
    if hq < hv || (hq == hv && i + 2 == |left| && j + 2 < |right|) {
      if i + 2 == |left| {
        LeftArrives(a, b, left, right, i, j);
        top := j;
      } else {
        ClimbLeft(a, b, left, right, i, j);
        top := Climb(a, b, left, right, i + 1, j);
      }
    } else if j + 2 == |right| {
      RightArrives(a, b, left, right, i, j);
      top := i;
    } else {
      ClimbRight(a, b, left, right, i, j);
      top := Climb(a, b, left, right, i, j + 1);
    }
  }
}
