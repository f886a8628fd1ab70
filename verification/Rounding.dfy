/** Rounding to a decimal scale, ties to even (section 4.3.1 of IEEE 754), over exact reals. */
module Rounding {

  function Quanta(scale: nat): (q: real)
    ensures q >= 1.0
  {
    if scale == 0 then 1.0 else 10.0 * Quanta(scale - 1)
  }

  /** The nearest integer; of two equally near ones, the even one. */
  function RoundUnit(x: real): (n: int)
    ensures -0.5 <= n as real - x <= 0.5
    ensures (n as real - x == 0.5 || n as real - x == -0.5) ==> n % 2 == 0
  {
    var below := x.Floor;
    var part := x - below as real;
    if part < 0.5 then below
    else if part > 0.5 then below + 1
    else if below % 2 == 0 then below
    else below + 1
  }

  /** Any integer nearer than a half, or as near as a half and even, is the rounded one. */
  lemma RoundUnitIs(x: real, n: int)
    requires -0.5 <= n as real - x <= 0.5
    requires (n as real - x == 0.5 || n as real - x == -0.5) ==> n % 2 == 0
    ensures RoundUnit(x) == n
  {
    var m := RoundUnit(x);
    assert -1.0 <= (m - n) as real <= 1.0;
  }

  lemma RoundUnitIsMonotone(x: real, y: real)
    requires x <= y
    ensures RoundUnit(x) <= RoundUnit(y)
  {
    var n, m := RoundUnit(x), RoundUnit(y);
    assert (n - m) as real <= 1.0;
    assert n > m ==> n == m + 1;
  }

  /** How many quanta a value is. */
  function Units(x: real, q: real): (u: real)
    requires q >= 1.0
  {
    x * q
  }

  /** The value of a number of quanta. */
  function Point(u: real, q: real): (x: real)
    requires q >= 1.0
  {
    u / q
  }

  lemma PointOfUnits(x: real, q: real)
    requires q >= 1.0
    ensures Point(Units(x, q), q) == x && Units(Point(x, q), q) == x
  {
  }

  lemma UnitsKeepOrder(a: real, b: real, q: real)
    requires q >= 1.0
    ensures a <= b <==> Units(a, q) <= Units(b, q)
  {
    assert a < b ==> (b - a) * q > 0.0;
    assert b < a ==> (a - b) * q > 0.0;
  }

  lemma PointsKeepOrder(u: real, v: real, q: real)
    requires q >= 1.0
    ensures u <= v <==> Point(u, q) <= Point(v, q)
  {
    PointOfUnits(u, q);
    PointOfUnits(v, q);
    UnitsKeepOrder(Point(u, q), Point(v, q), q);
  }

  lemma PointsSubtract(u: real, v: real, q: real)
    requires q >= 1.0
    ensures Point(u - v, q) == Point(u, q) - Point(v, q)
  {
  }

  function Round(x: real, scale: nat): real {
    Point(RoundUnit(Units(x, Quanta(scale))) as real, Quanta(scale))
  }

  /** A value the scale can hold exactly. */
  predicate OnGrid(x: real, scale: nat) {
    var u := Units(x, Quanta(scale));
    u.Floor as real == u
  }

  /** Rounding errs by at most half a unit in the last place. */
  lemma RoundErrsByHalf(x: real, scale: nat)
    ensures Point(-0.5, Quanta(scale)) <= Round(x, scale) - x <= Point(0.5, Quanta(scale))
  {
    var q := Quanta(scale);
    var n := RoundUnit(Units(x, q)) as real;
    PointOfUnits(x, q);
    PointsSubtract(n, Units(x, q), q);
    PointsKeepOrder(-0.5, n - Units(x, q), q);
    PointsKeepOrder(n - Units(x, q), 0.5, q);
  }

  lemma RoundIsMonotone(x: real, y: real, scale: nat)
    requires x <= y
    ensures Round(x, scale) <= Round(y, scale)
  {
    var q := Quanta(scale);
    UnitsKeepOrder(x, y, q);
    RoundUnitIsMonotone(Units(x, q), Units(y, q));
    PointsKeepOrder(RoundUnit(Units(x, q)) as real, RoundUnit(Units(y, q)) as real, q);
  }

  /** Rounding fixes exactly the values of the grid. */
  lemma RoundFixesTheGrid(x: real, scale: nat)
    ensures Round(x, scale) == x <==> OnGrid(x, scale)
  {
    var q := Quanta(scale);
    var n := RoundUnit(Units(x, q));
    PointOfUnits(x, q);
    PointOfUnits(n as real, q);
    if OnGrid(x, scale) {
      RoundUnitIs(Units(x, q), Units(x, q).Floor);
    }
  }
}
