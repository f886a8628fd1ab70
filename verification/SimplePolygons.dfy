/**
 The polygons the schema accepts are globally convex. A closed list that turns left everywhere and whose edges stay
 apart has one valley and one peak over any line: were there two valleys, the chains between them would wind inwards,
 each trapped between the two before it, and never close.
 */
module SimplePolygons {
  import opened Geometry
  import opened ConvexRings
  import opened Clipping
  import opened TriangleBound
  import opened ConvexPolygons
  import opened PolygonIoU
  import opened ClipMaximality
  import opened OverlapUnion
  import opened Segments
  import opened HeightSweep
  import opened PolygonSchema

  // ----- walking round the list --------------------------------------------------------

  /** The vertex `i` steps on from the first. */
  function At(ring: seq<Point>, i: nat): Point
    requires ring != []
  {
    if i < |ring| then ring[i] else At(ring, i - |ring|)
  }

  ghost predicate TurnsLeft(ring: seq<Point>) {
    3 <= |ring| && forall i: nat :: TurnsLeftAt(ring, i)
  }

  predicate TurnsLeftAt(ring: seq<Point>, i: nat)
    requires ring != []
  {
    0.0 < Orient(At(ring, i), At(ring, i + 1), At(ring, i + 2))
  }

  predicate EdgesCross(ring: seq<Point>, i: nat, j: nat)
    requires ring != []
  {
    SegmentsIntersect(At(ring, i), At(ring, i + 1), At(ring, j), At(ring, j + 1))
  }

  /** Edges at least two and at most all but two steps apart do not meet. */
  ghost predicate StaysApart(ring: seq<Point>)
    requires ring != []
  {
    forall i: nat, j: nat :: i + 2 <= j <= i + |ring| - 2 ==> !EdgesCross(ring, i, j)
  }

  ghost predicate Tame(ring: seq<Point>) {
    TurnsLeft(ring) && StaysApart(ring)
  }

  lemma AtNext(ring: seq<Point>, i: nat)
    requires i < |ring|
    ensures At(ring, i) == ring[i] && At(ring, i + 1) == ring[Next(|ring|, i)]
  {
  }

  lemma {:induction false} LeftTurnsGoOn(ring: seq<Point>, i: nat)
    requires 3 <= |ring| && UniformTurns(ring) && 0.0 < TurnAt(ring, 0)
    ensures TurnsLeftAt(ring, i)
    decreases i
  {
    hide Orient;
    var n := |ring|;
    if i >= n {
      LeftTurnsGoOn(ring, i - n);
    } else {
      AtNext(ring, i);
      AtNext(ring, Next(n, i));
      assert At(ring, i + 2) == At(ring, Next(n, i) + 1);
      assert TurnAt(ring, i) != 0.0;
    }
  }

  lemma {:induction false} ApartGoesOn(ring: seq<Point>, i: nat, j: nat)
    requires 3 <= |ring| && EdgesApart(ring) && i + 2 <= j <= i + |ring| - 2
    ensures !EdgesCross(ring, i, j)
    decreases i + j
  {
    hide SegmentsIntersect;
    var n := |ring|;
    if i >= n {
      ApartGoesOn(ring, i - n, j - n);
    } else if j >= n {
      ApartGoesBack(ring, j - n, i);
      MeetingFlips(At(ring, j - n), At(ring, j - n + 1), At(ring, i), At(ring, i + 1));
    } else {
      AtNext(ring, i);
      AtNext(ring, j);
      assert !EdgesMeet(ring, i, j);
    }
  }

  lemma ApartGoesBack(ring: seq<Point>, i: nat, j: nat)
    requires 3 <= |ring| && EdgesApart(ring) && i + 2 <= j <= i + |ring| - 2 && j < |ring|
    ensures !EdgesCross(ring, i, j)
  {
    hide SegmentsIntersect;
    AtNext(ring, i);
    AtNext(ring, j);
    assert !EdgesMeet(ring, i, j);
  }

  lemma LeftSchemaIsTame(ring: seq<Point>)
    requires 3 <= |ring| && EdgesApart(ring) && UniformTurns(ring) && 0.0 < TurnAt(ring, 0)
    ensures Tame(ring)
  {
    forall i: nat
      ensures TurnsLeftAt(ring, i)
    {
      LeftTurnsGoOn(ring, i);
    }
    forall i: nat, j: nat | i + 2 <= j <= i + |ring| - 2
      ensures !EdgesCross(ring, i, j)
    {
      ApartGoesOn(ring, i, j);
    }
  }

  // ----- chains ------------------------------------------------------------------------

  /** The height of a vertex over the line `a` `b`. */
  function HeightAt(a: Point, b: Point, ring: seq<Point>, i: nat): real
    requires ring != []
  {
    Height(a, b, At(ring, i))
  }

  lemma HeightsTurn(a: Point, b: Point, ring: seq<Point>)
    requires ring != []
    ensures forall i: nat :: HeightAt(b, a, ring, i) == -HeightAt(a, b, ring, i)
  {
    forall i: nat
      ensures HeightAt(b, a, ring, i) == -HeightAt(a, b, ring, i)
    {
      HeightTurns(a, b, At(ring, i));
    }
  }

  ghost predicate UpRun(a: Point, b: Point, ring: seq<Point>, s: nat, t: nat)
    requires ring != []
  {
    s < t && forall i: nat :: s <= i < t ==> HeightAt(a, b, ring, i) < HeightAt(a, b, ring, i + 1)
  }

  /** One vertex where the direction turns over, or a flat edge. */
  predicate Turnover(a: Point, b: Point, ring: seq<Point>, t: nat, t': nat)
    requires ring != []
  {
    t' == t || (t' == t + 1 && HeightAt(a, b, ring, t) == HeightAt(a, b, ring, t'))
  }

  /** The vertices from `s` to `t` in order. */
  function Part(ring: seq<Point>, s: nat, t: nat): (chain: seq<Point>)
    requires ring != [] && s <= t
    ensures |chain| == t - s + 1 && forall k: nat :: k < |chain| ==> chain[k] == At(ring, s + k)
  {
    seq(t - s + 1, k requires 0 <= k => At(ring, s + k))
  }

  /** And back from `t` to `s`. */
  function Back(ring: seq<Point>, s: nat, t: nat): (chain: seq<Point>)
    requires ring != [] && s <= t
    ensures |chain| == t - s + 1 && forall k: nat :: k < |chain| ==> chain[k] == At(ring, t - k)
  {
    seq(t - s + 1, k requires 0 <= k <= t - s => At(ring, t - k))
  }

  lemma {:induction false} RunIsOrdered(a: Point, b: Point, ring: seq<Point>, s: nat, t: nat, i: nat, j: nat)
    requires ring != [] && UpRun(a, b, ring, s, t) && s <= i <= j <= t
    ensures HeightAt(a, b, ring, i) <= HeightAt(a, b, ring, j)
    ensures i < j ==> HeightAt(a, b, ring, i) < HeightAt(a, b, ring, j)
  {
    hide HeightAt;
    if i < j {
      RunIsOrdered(a, b, ring, s, t, i, j - 1);
    }
  }

  lemma PartRises(a: Point, b: Point, ring: seq<Point>, s: nat, t: nat)
    requires ring != [] && UpRun(a, b, ring, s, t)
    ensures Rising(a, b, Part(ring, s, t)) && Rising(b, a, Back(ring, s, t))
  {
    hide Height, At, Part, Back;
    var chain, back := Part(ring, s, t), Back(ring, s, t);
    forall i: nat | i < t - s
      ensures Climbs(a, b, chain[i], chain[i + 1]) && Climbs(b, a, back[i], back[i + 1])
    {
      assert HeightAt(a, b, ring, s + i) < HeightAt(a, b, ring, s + i + 1);
      assert HeightAt(a, b, ring, t - i - 1) < HeightAt(a, b, ring, t - i);
      HeightTurns(a, b, At(ring, t - i));
      HeightTurns(a, b, At(ring, t - i - 1));
    }
  }

  // ----- a turn separates its chains ---------------------------------------------------

  lemma TurnSeparates(c: Point, d: Point, x: Point, m: Point, y: Point)
    requires 0.0 < Orient(x, m, y)
    ensures LeftHigh(c, d, m, x, m, y)
  {
    hide Orient;
    OrientRotates(x, m, y);
  }

  /** Away from a left turn, the chain that came in is left of the one that goes out. */
  lemma TurnStart(c: Point, d: Point, ring: seq<Point>, i: nat, i': nat)
    requires ring != [] && 0 < i && Turnover(c, d, ring, i, i') && TurnsLeft(ring)
    requires Climbs(c, d, At(ring, i), At(ring, i - 1)) && Climbs(c, d, At(ring, i'), At(ring, i' + 1))
    requires i' == i + 1 ==> !EdgesCross(ring, i - 1, i')
    ensures Level(c, d, At(ring, i), At(ring, i - 1), At(ring, i'), At(ring, i' + 1))
    ensures LeftHigh(c, d, At(ring, i), At(ring, i - 1), At(ring, i'), At(ring, i' + 1))
  {
    hide Orient, Height, SegmentsIntersect, At, LeftHigh;
    assert TurnsLeftAt(ring, i - 1) && TurnsLeftAt(ring, i);
    var x, m, y, z := At(ring, i - 1), At(ring, i), At(ring, i'), At(ring, i' + 1);
    if i' == i {
      TurnSeparates(c, d, x, m, z);
    } else {
      OrientRotates(x, m, y);
      OrientRotates(m, y, z);
      MeetingFlips(x, m, y, z);
      Sweep(c, d, m, x, y, z);
    }
  }

  // ----- two chains and the next -------------------------------------------------------

  /** A rise to a peak, a fall to a valley no deeper than the start, and the next rise begins, all within one round. */
  ghost predicate Stage(a: Point, b: Point, ring: seq<Point>, s: nat, t: nat, t': nat, r: nat, r': nat)
    requires ring != []
  {
    && UpRun(a, b, ring, s, t) && Turnover(a, b, ring, t, t') && UpRun(b, a, ring, t', r) && Turnover(a, b, ring, r, r')
    && HeightAt(a, b, ring, s) <= HeightAt(a, b, ring, r) && r' < s + |ring|
    && HeightAt(a, b, ring, r') < HeightAt(a, b, ring, r' + 1)
  }

  lemma StageHeights(a: Point, b: Point, ring: seq<Point>, s: nat, t: nat, t': nat, r: nat, r': nat)
    requires ring != [] && Stage(a, b, ring, s, t, t', r, r')
    ensures HeightAt(a, b, ring, r) == HeightAt(a, b, ring, r') && HeightAt(a, b, ring, t) == HeightAt(a, b, ring, t')
    ensures HeightAt(a, b, ring, r) < HeightAt(a, b, ring, t)
  {
    hide HeightAt;
    HeightsTurn(a, b, ring);
    RunIsOrdered(b, a, ring, t', r, t', r);
  }

  /** Chains at least two steps apart do not meet. */
  lemma ChainsApart(ring: seq<Point>, i: nat, j: nat)
    requires ring != [] && StaysApart(ring) && i + 2 <= j <= i + |ring| - 2
    ensures !SegmentsIntersect(At(ring, i), At(ring, i + 1), At(ring, j), At(ring, j + 1))
    ensures !SegmentsIntersect(At(ring, i + 1), At(ring, i), At(ring, j), At(ring, j + 1))
    ensures !SegmentsIntersect(At(ring, j), At(ring, j + 1), At(ring, i), At(ring, i + 1))
  {
    hide SegmentsIntersect, At;
    assert !EdgesCross(ring, i, j);
    MeetingFlips(At(ring, i), At(ring, i + 1), At(ring, j), At(ring, j + 1));
  }

  /** The chain back from a turn and the chain on from it climb apart. */
  lemma ChainsClimb(c: Point, d: Point, ring: seq<Point>, s: nat, i: nat, i': nat, e: nat)
    requires ring != [] && Tame(ring) && UpRun(d, c, ring, s, i) && Turnover(c, d, ring, i, i') && UpRun(c, d, ring, i', e)
    requires e < s + |ring|
    requires HeightAt(c, d, ring, i') < HeightAt(c, d, ring, s) && HeightAt(c, d, ring, i) < HeightAt(c, d, ring, e)
    ensures Climbing(c, d, Back(ring, s, i), Part(ring, i', e), 0, 0)
  {
    hide SegmentsIntersect, At, LeftHigh, Level, Height, TurnsLeft, StaysApart, Part, Back, Orient;
    var left, right := Back(ring, s, i), Part(ring, i', e);
    PartRises(d, c, ring, s, i);
    PartRises(c, d, ring, i', e);
    forall k, l | 0 <= k < |left| - 1 && 0 <= l < |right| - 1 && (k, l) != (0, 0)
      ensures !SegmentsIntersect(left[k], left[k + 1], right[l], right[l + 1])
    {
      ChainsApart(ring, i - 1 - k, i' + l);
    }
    assert Climbs(c, d, left[0], left[1]) && Climbs(c, d, right[0], right[1]);
    if i' == i + 1 {
      ChainsApart(ring, i - 1, i');
    }
    TurnStart(c, d, ring, i, i');
  }

  /** The valley lies left of the first chain. */
  lemma ValleyIsLeft(a: Point, b: Point, ring: seq<Point>, s: nat, t: nat, t': nat, r: nat, r': nat) returns (i: nat)
    requires ring != [] && Tame(ring) && Stage(a, b, ring, s, t, t', r, r')
    ensures s <= i < t && HeightAt(a, b, ring, i) <= HeightAt(a, b, ring, r) < HeightAt(a, b, ring, i + 1)
    ensures 0.0 < Orient(At(ring, i), At(ring, i + 1), At(ring, r))
  {
    hide Orient, At, Height, Tame, Part, Back;
    StageHeights(a, b, ring, s, t, t', r, r');
    HeightsTurn(a, b, ring);
    RunIsOrdered(a, b, ring, s, t, s, t);
    ChainsClimb(b, a, ring, s, t, t', r);
    var left, right := Back(ring, s, t), Part(ring, t', r);
    var top := Climb(b, a, left, right, 0, 0);
    assert left[|left| - 1] == At(ring, s) && right[|right| - 1] == At(ring, r);
    assert HeightAt(b, a, ring, r) <= HeightAt(b, a, ring, s);
    assert Reaches(b, a, left, top, At(ring, r));
    i := t - 1 - top;
    assert left[top] == At(ring, i + 1) && left[top + 1] == At(ring, i);
    assert HeightAt(b, a, ring, i + 1) < HeightAt(b, a, ring, r) <= HeightAt(b, a, ring, i);
    OrientRotates(At(ring, i), At(ring, i + 1), At(ring, r));
  }

  /** Where the next rise passes the height of the peak it is left of the peak's right end. */
  lemma RisePassesLeft(a: Point, b: Point, ring: seq<Point>, s: nat, t: nat, t': nat, r: nat, r': nat, e: nat)
    returns (k: nat)
    requires ring != [] && Tame(ring) && Stage(a, b, ring, s, t, t', r, r') && UpRun(a, b, ring, r', e) && e < s + |ring|
    requires HeightAt(a, b, ring, t) <= HeightAt(a, b, ring, e)
    ensures Reaches(a, b, Part(ring, r', e), k, At(ring, t))
    ensures Orient(At(ring, r' + k), At(ring, r' + k + 1), At(ring, t)) < 0.0
  {
    hide Orient, At, Height, SegmentsIntersect, TurnsLeft, StaysApart, Part, Reaches;
    StageHeights(a, b, ring, s, t, t', r, r');
    var i := ValleyIsLeft(a, b, ring, s, t, t', r, r');
    var left, right := Part(ring, r', e), Part(ring, s, t);
    PartRises(a, b, ring, s, t);
    PartRises(a, b, ring, r', e);
    var u, v := At(ring, i), At(ring, i + 1);
    assert Climbs(a, b, right[i - s], right[i - s + 1]) && right[i - s] == u && right[i - s + 1] == v;
    if r' == r + 1 {
      ChainsApart(ring, i, r);
      FlatStays(a, b, At(ring, r), At(ring, r'), u, v);
    }
    forall k, l | 0 <= k < |left| - 1 && i - s <= l < |right| - 1
      ensures !SegmentsIntersect(left[k], left[k + 1], right[l], right[l + 1])
    {
      ChainsApart(ring, s + l, r' + k);
    }
    assert Climbs(a, b, left[0], left[1]) && !SegmentsIntersect(left[0], left[1], right[i - s], right[i - s + 1]);
    NextSegment(a, b, left[0], left[1], u, v);
    assert right[|right| - 1] == At(ring, t) && left[|left| - 1] == At(ring, e);
    assert Climbing(a, b, left, right, 0, i - s);
    k := Climb(a, b, left, right, 0, i - s);
    assert Reaches(a, b, left, k, At(ring, t));
    assert k < |left| - 1 by { ReachesWithin(a, b, left, k, At(ring, t)); }
  }

  lemma ReachesWithin(a: Point, b: Point, chain: seq<Point>, k: nat, p: Point)
    requires Reaches(a, b, chain, k, p)
    ensures k < |chain| - 1 && Height(a, b, chain[k]) < Height(a, b, p) <= Height(a, b, chain[k + 1])
  {
  }

  /** And right of the peak's left end. */
  lemma RisePassesRight(a: Point, b: Point, ring: seq<Point>, s: nat, t: nat, t': nat, r: nat, r': nat, e: nat)
    returns (k: nat)
    requires ring != [] && Tame(ring) && Stage(a, b, ring, s, t, t', r, r') && UpRun(a, b, ring, r', e) && e < s + |ring|
    requires HeightAt(a, b, ring, t) <= HeightAt(a, b, ring, e)
    ensures Reaches(a, b, Part(ring, r', e), k, At(ring, t'))
    ensures 0.0 < Orient(At(ring, r' + k), At(ring, r' + k + 1), At(ring, t'))
  {
    hide Orient, At, Height, Tame, Part, Back;
    StageHeights(a, b, ring, s, t, t', r, r');
    RunIsOrdered(a, b, ring, r', e, r', e);
    ChainsClimb(a, b, ring, t', r, r', e);
    var left, right := Back(ring, t', r), Part(ring, r', e);
    PartRises(b, a, ring, t', r);
    PartRises(a, b, ring, r', e);
    var top := Climb(a, b, left, right, 0, 0);
    assert left[|left| - 1] == At(ring, t') && right[|right| - 1] == At(ring, e);
    if HeightAt(a, b, ring, t') < HeightAt(a, b, ring, e) {
      k := top;
    } else {
      assert Reaches(a, b, left, top, At(ring, e));
      if top + 1 < |left| - 1 {
        RisingIsOrdered(a, b, left, top + 1, |left| - 1);
      }
      k := e - 1 - r';
      assert Climbs(a, b, right[k], right[k + 1]) && Climbs(a, b, left[top], left[top + 1]);
      HighTie(a, b, left[top], left[top + 1], right[k], right[k + 1]);
    }
  }

  /** The next rise ends below the peak. */
  lemma NextPeakIsLower(a: Point, b: Point, ring: seq<Point>, s: nat, t: nat, t': nat, r: nat, r': nat, e: nat)
    requires ring != [] && Tame(ring) && Stage(a, b, ring, s, t, t', r, r') && UpRun(a, b, ring, r', e) && e < s + |ring|
    ensures HeightAt(a, b, ring, e) < HeightAt(a, b, ring, t)
  {
    hide Orient, At, Height, Part, SegmentsIntersect, StaysApart, TurnsLeft, Reaches;
    if HeightAt(a, b, ring, t) <= HeightAt(a, b, ring, e) {
      var k := RisePassesLeft(a, b, ring, s, t, t', r, r', e);
      var l := RisePassesRight(a, b, ring, s, t, t', r, r', e);
      var chain := Part(ring, r', e);
      StageHeights(a, b, ring, s, t, t', r, r');
      PartRises(a, b, ring, r', e);
      ReachesWithin(a, b, chain, k, At(ring, t));
      ReachesWithin(a, b, chain, l, At(ring, t'));
      if k < l {
        RisingIsOrdered(a, b, chain, k + 1, l);
      } else if l < k {
        RisingIsOrdered(a, b, chain, l + 1, k);
      }
      var u, v := At(ring, r' + k), At(ring, r' + k + 1);
      assert k == l && t' == t + 1;
      CrossingMeets(a, b, At(ring, t'), At(ring, t), u, v);
      ChainsApart(ring, t, r' + k);
      IntersectIffSharePoint(At(ring, t'), At(ring, t), u, v);
    }
  }

  // ----- chains end and turn over ------------------------------------------------------

  lemma AtRepeats(ring: seq<Point>, i: nat)
    requires ring != []
    ensures At(ring, i + |ring|) == At(ring, i)
  {
  }

  /** A rise ends within one round. */
  lemma {:induction false} RunEnds(a: Point, b: Point, ring: seq<Point>, s: nat, k: nat) returns (e: nat)
    requires ring != [] && UpRun(a, b, ring, s, k) && k <= s + |ring|
    ensures k <= e && UpRun(a, b, ring, s, e) && HeightAt(a, b, ring, e + 1) <= HeightAt(a, b, ring, e)
    decreases s + |ring| - k
  {
    hide At, Height;
    if HeightAt(a, b, ring, k + 1) <= HeightAt(a, b, ring, k) {
      e := k;
    } else {
      if k == s + |ring| {
        RunIsOrdered(a, b, ring, s, k, s, k);
        AtRepeats(ring, s);
      }
      e := RunEnds(a, b, ring, s, k + 1);
    }
  }

  /** Seen along a flat edge, points are as far off as they are high. */
  lemma FlatScale(a: Point, b: Point, p: Point, q: Point, x: Point, y: Point)
    requires Height(a, b, p) == Height(a, b, q)
    ensures Orient(p, q, x) * (Height(a, b, y) - Height(a, b, p)) == Orient(p, q, y) * (Height(a, b, x) - Height(a, b, p))
  {
    var dx, dy, ex, ey := b.x - a.x, b.y - a.y, q.x - p.x, q.y - p.y;
    var vx, vy, wx, wy := x.x - p.x, x.y - p.y, y.x - p.x, y.y - p.y;
    Difference(a, b, q, p);
    Difference(a, b, x, p);
    Difference(a, b, y, p);
    Difference(p, q, x, p);
    Difference(p, q, y, p);
    OnItself(p, q);
    CrossProducts(dx, dy, ex, ey, vx, vy, wx, wy);
    hide Orient, Height;
    FlatProducts(ex * vy - ey * vx, dx * wy - dy * wx, ex * wy - ey * wx, dx * vy - dy * vx, vx * ey - vy * ex, wx * ey - wy * ex);
  }

  lemma FlatProducts(f: real, k: real, g: real, l: real, f': real, g': real)
    requires f' == -f && g' == -g && f' * k - g' * l == 0.0
    ensures f * k == g * l
  {
    assert f' * k == -(f * k) && g' * l == -(g * l);
  }

  lemma SameSigns(f: real, k: real, g: real, l: real)
    requires 0.0 < f && 0.0 < g && f * k == g * l && l < 0.0
    ensures k < 0.0
  {
    ProductPositive(g, -l);
    assert g * -l == -(g * l);
    if 0.0 <= k {
      ProductNonnegative(f, k);
    }
  }

  lemma FlatTurn(a: Point, b: Point, x: Point, p: Point, q: Point, y: Point)
    requires Height(a, b, x) < Height(a, b, p) && Height(a, b, p) == Height(a, b, q)
    requires 0.0 < Orient(x, p, q) && 0.0 < Orient(p, q, y)
    ensures Height(a, b, y) < Height(a, b, q)
  {
    hide Orient, Height;
    OrientRotates(x, p, q);
    FlatScale(a, b, p, q, x, y);
    SameSigns(Orient(p, q, x), Height(a, b, y) - Height(a, b, p), Orient(p, q, y), Height(a, b, x) - Height(a, b, p));
  }

  /** Where a rise ends, at once or after one flat edge, a fall begins. */
  lemma AfterRise(a: Point, b: Point, ring: seq<Point>, e: nat) returns (e': nat)
    requires ring != [] && TurnsLeft(ring) && 0 < e
    requires HeightAt(a, b, ring, e - 1) < HeightAt(a, b, ring, e) && HeightAt(a, b, ring, e + 1) <= HeightAt(a, b, ring, e)
    ensures Turnover(a, b, ring, e, e') && HeightAt(a, b, ring, e' + 1) < HeightAt(a, b, ring, e')
  {
    hide Orient, Height, At;
    assert TurnsLeftAt(ring, e - 1) && TurnsLeftAt(ring, e);
    if HeightAt(a, b, ring, e + 1) < HeightAt(a, b, ring, e) {
      e' := e;
    } else {
      e' := e + 1;
      FlatTurn(a, b, At(ring, e - 1), At(ring, e), At(ring, e + 1), At(ring, e + 2));
    }
  }

  // ----- winding inwards ---------------------------------------------------------------

  /** The next rise ends within the round, and what follows is a stage upside down. */
  lemma NextStage(a: Point, b: Point, ring: seq<Point>, s: nat, t: nat, t': nat, r: nat, r': nat) returns (e: nat, e': nat)
    requires ring != [] && Tame(ring) && Stage(a, b, ring, s, t, t', r, r')
    ensures UpRun(a, b, ring, r', e) && Turnover(a, b, ring, e, e')
    ensures HeightAt(a, b, ring, e) < HeightAt(a, b, ring, t) && Stage(b, a, ring, t', r, r', e, e')
  {
    hide Height, At, TurnsLeft, StaysApart;
    StageHeights(a, b, ring, s, t, t', r, r');
    e := RunEnds(a, b, ring, r', r' + 1);
    if s + |ring| <= e {
      RunIsOrdered(a, b, ring, r', e, r', s + |ring|);
      AtRepeats(ring, s);
    }
    NextPeakIsLower(a, b, ring, s, t, t', r, r', e);
    assert HeightAt(a, b, ring, e - 1) < HeightAt(a, b, ring, e - 1 + 1);
    e' := AfterRise(a, b, ring, e);
    HeightsTurn(a, b, ring);
  }

  /** Once a valley is no deeper than the one before it, all that follows lies between it and the peak before it. */
  lemma {:induction false} WindsInwards(a: Point, b: Point, ring: seq<Point>, s: nat, t: nat, t': nat, r: nat, r': nat, i: nat)
    requires ring != [] && Tame(ring) && Stage(a, b, ring, s, t, t', r, r') && r' < i
    ensures HeightAt(a, b, ring, r) < HeightAt(a, b, ring, i) < HeightAt(a, b, ring, t)
    decreases i - r'
  {
    hide Height, At, Tame, HeightAt;
    StageHeights(a, b, ring, s, t, t', r, r');
    var e, e' := NextStage(a, b, ring, s, t, t', r, r');
    if i <= e {
      RunIsOrdered(a, b, ring, r', e, r', i);
      RunIsOrdered(a, b, ring, r', e, i, e);
    } else if i <= e' {
      RunIsOrdered(a, b, ring, r', e, r', e);
    } else {
      WindsInwards(b, a, ring, t', r, r', e, e', i);
      HeightsTurn(a, b, ring);
    }
  }

  // ----- one valley --------------------------------------------------------------------

  ghost predicate IsLowest(a: Point, b: Point, ring: seq<Point>, s: nat)
    requires ring != []
  {
    forall i: nat :: HeightAt(a, b, ring, s) <= HeightAt(a, b, ring, i)
  }

  /** From the lowest vertex the list rises, turns over, and falls until the round is complete. */
  lemma OneValley(a: Point, b: Point, ring: seq<Point>, s: nat) returns (t: nat, t': nat, r: nat)
    requires ring != [] && Tame(ring) && IsLowest(a, b, ring, s) && HeightAt(a, b, ring, s) < HeightAt(a, b, ring, s + 1)
    ensures UpRun(a, b, ring, s, t) && Turnover(a, b, ring, t, t') && UpRun(b, a, ring, t', r)
    ensures HeightAt(a, b, ring, t' + 1) < HeightAt(a, b, ring, t')
    ensures s + |ring| <= r + 1 && (s + |ring| == r + 1 ==> Turnover(a, b, ring, r, r + 1))
  {
    hide Height, At, TurnsLeft, StaysApart;
    t := RunEnds(a, b, ring, s, s + 1);
    assert HeightAt(a, b, ring, t - 1) < HeightAt(a, b, ring, t - 1 + 1);
    t' := AfterRise(a, b, ring, t);
    HeightsTurn(a, b, ring);
    r := RunEnds(b, a, ring, t', t' + 1);
    assert HeightAt(b, a, ring, r - 1) < HeightAt(b, a, ring, r - 1 + 1);
    var r' := AfterRise(b, a, ring, r);
    if r' < s + |ring| {
      assert Stage(a, b, ring, s, t, t', r, r');
      WindsInwards(a, b, ring, s, t, t', r, r', s + |ring|);
      AtRepeats(ring, s);
    }
  }

  /** Above the lowest height, a flat edge is followed by a fall. */
  lemma FlatIsPeak(a: Point, b: Point, ring: seq<Point>, s: nat, k: nat)
    requires ring != [] && Tame(ring) && IsLowest(a, b, ring, s) && HeightAt(a, b, ring, s) < HeightAt(a, b, ring, s + 1)
    requires s <= k < s + |ring| && HeightAt(a, b, ring, k) == HeightAt(a, b, ring, k + 1)
    requires HeightAt(a, b, ring, s) < HeightAt(a, b, ring, k)
    ensures HeightAt(a, b, ring, k + 2) < HeightAt(a, b, ring, k + 1)
  {
    hide Height, At, TurnsLeft, StaysApart;
    var t, t', r := OneValley(a, b, ring, s);
    HeightsTurn(a, b, ring);
    AtRepeats(ring, s);
  }

  // ----- every edge sees the list on its left ------------------------------------------

  lemma {:induction false} LowestOf(a: Point, b: Point, ring: seq<Point>, n: nat) returns (s: nat)
    requires 0 < n <= |ring|
    ensures s < n && forall i: nat :: i < n ==> HeightAt(a, b, ring, s) <= HeightAt(a, b, ring, i)
    decreases n
  {
    hide At, Height;
    if n == 1 {
      s := 0;
    } else {
      s := LowestOf(a, b, ring, n - 1);
      if HeightAt(a, b, ring, n - 1) < HeightAt(a, b, ring, s) {
        s := n - 1;
      }
    }
  }

  lemma {:induction false} LowestOfRound(a: Point, b: Point, ring: seq<Point>, s: nat, i: nat)
    requires ring != [] && forall k: nat :: k < |ring| ==> HeightAt(a, b, ring, s) <= HeightAt(a, b, ring, k)
    ensures HeightAt(a, b, ring, s) <= HeightAt(a, b, ring, i)
    decreases i
  {
    hide At, Height;
    if |ring| <= i {
      AtRepeats(ring, i - |ring|);
      LowestOfRound(a, b, ring, s, i - |ring|);
    }
  }

  /** A lowest vertex after which the list rises. */
  lemma LowestStart(a: Point, b: Point, ring: seq<Point>) returns (s: nat)
    requires ring != [] && TurnsLeft(ring) && a != b
    ensures IsLowest(a, b, ring, s) && HeightAt(a, b, ring, s) < HeightAt(a, b, ring, s + 1) && s <= |ring|
  {
    hide At, Height, Orient;
    s := LowestOf(a, b, ring, |ring|);
    forall i: nat
      ensures HeightAt(a, b, ring, s) <= HeightAt(a, b, ring, i)
    {
      LowestOfRound(a, b, ring, s, i);
    }
    if HeightAt(a, b, ring, s + 1) == HeightAt(a, b, ring, s) {
      assert TurnsLeftAt(ring, s);
      NotAllFlat(a, b, At(ring, s), At(ring, s + 1), At(ring, s + 2));
      s := s + 1;
    }
  }

  lemma NotAllFlat(a: Point, b: Point, p: Point, q: Point, x: Point)
    requires a != b && Height(a, b, p) == Height(a, b, q) && 0.0 < Orient(p, q, x)
    ensures Height(a, b, x) != Height(a, b, p)
  {
    if Height(a, b, x) == Height(a, b, p) {
      Difference(a, b, q, p);
      Difference(a, b, x, p);
      Difference(p, q, x, p);
      OnItself(p, q);
      Parallel(b.x - a.x, b.y - a.y, q.x - p.x, q.y - p.y, x.x - p.x, x.y - p.y);
    }
  }

  /** The steps of the first round after `s` repeat those of the list. */
  lemma StepWithin(ring: seq<Point>, i: nat, s: nat) returns (k: nat)
    requires i < |ring| && s <= |ring|
    ensures s <= k < s + |ring| && At(ring, k) == At(ring, i) && At(ring, k + 1) == At(ring, i + 1) && At(ring, k + 2) == At(ring, i + 2)
  {
    if s <= i {
      k := i;
    } else {
      k := i + |ring|;
      AtRepeats(ring, i);
      AtRepeats(ring, i + 1);
      AtRepeats(ring, i + 2);
    }
  }

  lemma EdgeSeesLeft(ring: seq<Point>, i: nat, j: nat)
    requires ring != [] && Tame(ring) && i < |ring|
    ensures 0.0 <= Orient(At(ring, i), At(ring, i + 1), At(ring, j))
  {
    hide At, Height, Orient, StaysApart;
    var a, b := At(ring, i), At(ring, i + 1);
    assert TurnsLeftAt(ring, i);
    OnItself(a, b);
    HeightIsOrient(a, b);
    ProperLine(a, At(ring, i + 2));
    var s := LowestStart(a, b, ring);
    var k := StepWithin(ring, i, s);
    if HeightAt(a, b, ring, s) < 0.0 {
      FlatIsPeak(a, b, ring, s, k);
    }
    assert HeightAt(a, b, ring, s) <= HeightAt(a, b, ring, j);
  }

  lemma HeightIsOrient(a: Point, b: Point)
    ensures forall p :: Height(a, b, p) == Orient(a, b, p)
  {
  }

  lemma LeftSchemaIsAccepted(ring: seq<Point>)
    requires 3 <= |ring| && EdgesApart(ring) && UniformTurns(ring) && 0.0 < TurnAt(ring, 0)
    ensures AcceptedPolygon(1.0, ring)
  {
    hide At, Orient, Tame;
    LeftSchemaIsTame(ring);
    DistinctnessIsImplied(ring);
    forall i: nat, j: nat | i < |ring| && j < |ring|
      ensures SidesWith(1.0, ring, i, j)
    {
      AtNext(ring, i);
      AtNext(ring, j);
      EdgeSeesLeft(ring, i, j);
    }
    forall i: nat | i < |ring|
      ensures TurnsAt(1.0, ring, i)
    {
      assert TurnAt(ring, i) != 0.0;
    }
  }

  // ----- either winding ----------------------------------------------------------------

  /** The mirror image, which turns the other way. */
  function Mirrored(ring: seq<Point>): (r: seq<Point>)
    ensures |r| == |ring| && forall i :: 0 <= i < |r| ==> r[i] == Flip(ring[i])
  {
    seq(|ring|, i requires 0 <= i < |ring| => Flip(ring[i]))
  }

  lemma FlipMeets(p: Point, q: Point, u: Point, v: Point)
    ensures SegmentsIntersect(Flip(p), Flip(q), Flip(u), Flip(v)) == SegmentsIntersect(p, q, u, v)
  {
    hide Orient;
    FlipOrient(p, q, u);
    FlipOrient(p, q, v);
    FlipOrient(u, v, p);
    FlipOrient(u, v, q);
  }

  lemma MirrorKeepsSchema(ring: seq<Point>)
    requires 3 <= |ring| && EdgesApart(ring) && UniformTurns(ring) && TurnAt(ring, 0) < 0.0
    ensures EdgesApart(Mirrored(ring)) && UniformTurns(Mirrored(ring)) && 0.0 < TurnAt(Mirrored(ring), 0)
  {
    hide Orient, SegmentsIntersect;
    var n, image := |ring|, Mirrored(ring);
    forall i: nat | i < n
      ensures TurnAt(image, i) == -TurnAt(ring, i) && TurnAt(ring, i) != 0.0 && (TurnAt(ring, i) > 0.0 <==> TurnAt(ring, 0) > 0.0)
    {
      FlipOrient(ring[i], ring[Next(n, i)], ring[Next(n, Next(n, i))]);
    }
    forall i: nat, j: nat | i < j < n && !Adjacent(n, i, j)
      ensures !EdgesMeet(image, i, j)
    {
      assert !EdgesMeet(ring, i, j);
      FlipMeets(ring[i], ring[Next(n, i)], ring[j], ring[Next(n, j)]);
    }
  }

  lemma MirrorIsAccepted(ring: seq<Point>)
    requires AcceptedPolygon(1.0, Mirrored(ring))
    ensures AcceptedPolygon(-1.0, ring)
  {
    hide Orient;
    var n, image := |ring|, Mirrored(ring);
    forall i: nat | i < n
      ensures TurnsAt(-1.0, ring, i)
    {
      assert TurnsAt(1.0, image, i);
      FlipOrient(ring[i], ring[Next(n, i)], ring[Next(n, Next(n, i))]);
    }
    forall i: nat, j: nat | i < n && j < n
      ensures SidesWith(-1.0, ring, i, j)
    {
      assert SidesWith(1.0, image, i, j);
      FlipOrient(ring[i], ring[Next(n, i)], ring[j]);
    }
    forall i, j | 0 <= i < j < n
      ensures ring[i] != ring[j]
    {
      assert image[i] != image[j];
    }
  }

  // ----- what the schema accepts -------------------------------------------------------

  function Winding(ring: seq<Point>): (s: real)
    requires 3 <= |ring|
    ensures IsSign(s)
  {
    if 0.0 < TurnAt(ring, 0) then 1.0 else -1.0
  }

  /** The edge loop and the turns alone make a polygon globally convex. */
  lemma TurnsAndEdgesSuffice(ring: seq<Point>)
    requires 3 <= |ring| && EdgesApart(ring) && UniformTurns(ring)
    ensures AcceptedPolygon(Winding(ring), ring)
  {
    hide Orient;
    assert TurnAt(ring, 0) != 0.0;
    if 0.0 < TurnAt(ring, 0) {
      LeftSchemaIsAccepted(ring);
    } else {
      MirrorKeepsSchema(ring);
      LeftSchemaIsAccepted(Mirrored(ring));
      MirrorIsAccepted(ring);
    }
  }

  /** The schema accepts exactly the globally convex polygons. */
  lemma SchemaIffConvex(ring: seq<Point>)
    ensures PassesSchema(ring) <==> AcceptedPolygon(1.0, ring) || AcceptedPolygon(-1.0, ring)
  {
    hide Orient, EdgesApart, UniformTurns;
    if PassesSchema(ring) {
      TurnsAndEdgesSuffice(ring);
    }
    if AcceptedPolygon(1.0, ring) {
      AcceptedIffPassesSchema(1.0, ring);
    }
    if AcceptedPolygon(-1.0, ring) {
      AcceptedIffPassesSchema(-1.0, ring);
    }
  }

  /** Every vertex of `inner` is on the inner side of every edge of `outer`. */
  ghost predicate Within(inner: seq<Point>, outer: seq<Point>)
    requires 3 <= |outer|
  {
    Confined(Winding(outer), Closed(outer), inner)
  }

  /**
   For all polygons the schema accepts: the score is the overlap over the union, in [0, 1] and symmetric, one exactly
   for polygons within each other, and for nested ones the ratio of their areas.
   */
  lemma SchemaPolygonsScore(expected: seq<Point>, predicted: seq<Point>)
    requires PassesSchema(expected) && PassesSchema(predicted)
    ensures IoU(expected, predicted).Ratio? && 0.0 <= IoU(expected, predicted).value <= 1.0
    ensures IoU(expected, predicted).value * UnionArea(expected, predicted) == Area(Intersection(expected, predicted))
    ensures IoU(expected, predicted) == IoU(predicted, expected) && IoU(expected, expected) == Ratio(1.0)
    ensures IoU(expected, predicted) == Ratio(1.0) <==> Within(expected, predicted) && Within(predicted, expected)
    ensures Area(Intersection(expected, predicted)) == Area(expected) <==> Within(expected, predicted)
    ensures Area(predicted) != 0.0 && (Within(expected, predicted) ==>
              IoU(expected, predicted) == Ratio(Area(expected) / Area(predicted)))
    ensures Area(expected) != 0.0 && (Within(predicted, expected) ==>
              IoU(expected, predicted) == Ratio(Area(predicted) / Area(expected)))
  {
    hide IoU, AcceptedPolygon, UnionArea, Intersection, Area;
    TurnsAndEdgesSuffice(expected);
    TurnsAndEdgesSuffice(predicted);
    var s, s' := Winding(expected), Winding(predicted);
    AcceptedArea(s, expected);
    AcceptedArea(s', predicted);
    ScoreTimesUnion(s, expected, s', predicted);
    ScoreIsSymmetric(s, expected, s', predicted);
    IdenticalScoresOne(s, expected);
    ScoreIsOneIff(s, expected, s', predicted);
    OverlapIsWholeIff(s, expected, s', predicted);
    if Within(expected, predicted) {
      NestedScoresRatio(s, expected, s', predicted);
    }
    if Within(predicted, expected) {
      NestedScoresRatio(s', predicted, s, expected);
    }
  }
}
