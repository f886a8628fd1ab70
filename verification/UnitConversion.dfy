/** The unit registry and its conversions, over exact reals. */
module UnitConversion {
  import opened Options
  import opened Rounding
  import opened Whitespace

  datatype Dimension = Mass | Length | Percent | Count

  datatype Unit = Unit(code: string, dimension: Dimension, factor: real, conversionVersion: string)

  type Registry = map<string, Unit>

  datatype Converted = Converted(preRound: real, rounded: real, source: string, target: string,
                                 conversionVersion: string, roundingVersion: string)

  const MAX_SCALE := 18

  // ----- building the registry ---------------------------------------------------------

  predicate UnitOk(unit: Unit) {
    !IsBlankText(unit.code) && !IsBlankText(unit.conversionVersion) && unit.factor > 0.0
  }

  predicate UnitsOk(units: seq<Unit>) {
    && (forall i :: 0 <= i < |units| ==> UnitOk(units[i]))
    && forall i, j :: 0 <= i < j < |units| ==> units[i].code != units[j].code
  }

  predicate RegistryOf(registry: Registry, units: seq<Unit>) {
    && (forall i :: 0 <= i < |units| ==> units[i].code in registry && registry[units[i].code] == units[i])
    && forall code :: code in registry ==> registry[code] in units && registry[code].code == code
  }

  lemma RegistryGrows(registry: Registry, units: seq<Unit>, unit: Unit)
    requires RegistryOf(registry, units)
    ensures UnitsOk(units + [unit]) <==> UnitsOk(units) && UnitOk(unit) && unit.code !in registry
    ensures unit.code !in registry ==> RegistryOf(registry[unit.code := unit], units + [unit])
  {
    var more := units + [unit];
    assert more[|units|] == unit && forall i :: 0 <= i < |units| ==> more[i] == units[i];
    if unit.code in registry {
      var k :| 0 <= k < |units| && units[k] == registry[unit.code];
      assert more[k].code == more[|units|].code;
    } else {
      var grown := registry[unit.code := unit];
      forall code | code in grown ensures grown[code] in more {
        if code != unit.code {
          assert registry[code] in units;
        }
      }
    }
  }

  lemma PrefixOk(units: seq<Unit>, i: nat)
    requires i <= |units|
    ensures UnitsOk(units) ==> UnitsOk(units[..i])
  {
  }

  /** Every unit under its code, if all are valid and no code comes twice. */
  method BuildRegistry(units: seq<Unit>) returns (r: Option<Registry>)
    ensures r.Some? <==> UnitsOk(units)
    ensures r.Some? ==> RegistryOf(r.value, units)
  {
    var registry: Registry := map[];
    for i := 0 to |units|
      invariant UnitsOk(units[..i]) && RegistryOf(registry, units[..i])
    {
      var unit := units[i];
      assert units[..i + 1] == units[..i] + [unit];
      RegistryGrows(registry, units[..i], unit);
      if IsBlankText(unit.code) || IsBlankText(unit.conversionVersion) || unit.code in registry || unit.factor <= 0.0 {
        PrefixOk(units, i + 1);
        return None;
      }
      registry := registry[unit.code := unit];
    }
    assert units[..|units|] == units;
    return Some(registry);
  }

  // ----- converting --------------------------------------------------------------------

  predicate RegistryOk(registry: Registry) {
    forall code :: code in registry ==> registry[code].factor > 0.0
  }

  function Ratio(x: real, from: real, to: real): real
    requires to > 0.0
  {
    x * from / to
  }

  /** The value in the target unit; a result written as negative zero is no decimal value. */
  function Convert(registry: Registry, x: real, source: string, target: string, scale: int, roundingVersion: string):
      Option<Converted>
    requires RegistryOk(registry)
  {
    if scale < 0 || scale > MAX_SCALE || IsBlankText(roundingVersion) then None
    else if source !in registry || target !in registry then None
    else if registry[source].dimension != registry[target].dimension then None
    else
      var preRound := Ratio(x, registry[source].factor, registry[target].factor);
      var rounded := Round(preRound, scale);
      if preRound < 0.0 && rounded == 0.0 then None
      else Some(Converted(preRound, rounded, source, target,
                          registry[source].conversionVersion + ":" + registry[target].conversionVersion, roundingVersion))
  }

  predicate Convertible(registry: Registry, source: string, target: string, scale: int, roundingVersion: string) {
    && 0 <= scale <= MAX_SCALE && !IsBlankText(roundingVersion) && source in registry && target in registry
    && registry[source].dimension == registry[target].dimension
  }

  /** At most half a unit in the last place below zero. */
  predicate VanishesNegative(x: real, scale: nat) {
    -0.5 <= Units(x, Quanta(scale)) < 0.0
  }

  lemma VanishesIffRoundsToZero(x: real, scale: nat)
    ensures VanishesNegative(x, scale) <==> x < 0.0 && Round(x, scale) == 0.0
  {
    var q := Quanta(scale);
    UnitsKeepOrder(x, 0.0, q);
    UnitsKeepOrder(0.0, x, q);
    if -0.5 <= Units(x, q) < 0.0 {
      RoundUnitIs(Units(x, q), 0);
    }
    PointOfUnits(RoundUnit(Units(x, q)) as real, q);
  }

  /** A conversion fails exactly on invalid arguments, or on a negative result that rounds away. */
  lemma ConvertFailsIff(registry: Registry, x: real, source: string, target: string, scale: int, roundingVersion: string)
    requires RegistryOk(registry)
    ensures Convert(registry, x, source, target, scale, roundingVersion).None? <==>
              || !Convertible(registry, source, target, scale, roundingVersion)
              || VanishesNegative(Ratio(x, registry[source].factor, registry[target].factor), scale)
  {
    if Convertible(registry, source, target, scale, roundingVersion) {
      VanishesIffRoundsToZero(Ratio(x, registry[source].factor, registry[target].factor), scale);
    }
  }

  /** A conversion errs by at most half a unit at the chosen scale. */
  lemma ConvertErrsByHalf(registry: Registry, x: real, source: string, target: string, scale: int, roundingVersion: string)
    requires RegistryOk(registry) && Convert(registry, x, source, target, scale, roundingVersion).Some?
    ensures var r := Convert(registry, x, source, target, scale, roundingVersion).value;
      && r.preRound == Ratio(x, registry[source].factor, registry[target].factor)
      && Point(-0.5, Quanta(scale)) <= r.rounded - r.preRound <= Point(0.5, Quanta(scale))
  {
    RoundErrsByHalf(Ratio(x, registry[source].factor, registry[target].factor), scale);
  }

  // ----- there and back ----------------------------------------------------------------

  lemma RatioBack(x: real, from: real, to: real)
    requires from > 0.0 && to > 0.0
    ensures Ratio(Ratio(x, from, to), to, from) == x
  {
  }

  lemma RatioSubtracts(a: real, b: real, from: real, to: real)
    requires to > 0.0
    ensures Ratio(a - b, from, to) == Ratio(a, from, to) - Ratio(b, from, to)
  {
  }

  lemma RatioKeepsOrder(a: real, b: real, from: real, to: real)
    requires from > 0.0 && to > 0.0 && a <= b
    ensures Ratio(a, from, to) <= Ratio(b, from, to)
  {
    assert (b - a) * from >= 0.0;
    assert (b - a) * from / to >= 0.0;
    RatioSubtracts(b, a, from, to);
  }

  lemma RatioNegates(a: real, from: real, to: real)
    requires to > 0.0
    ensures Ratio(-a, from, to) == -Ratio(a, from, to)
  {
    RatioSubtracts(0.0, a, from, to);
  }

  lemma HalfNegates(q: real)
    requires q >= 1.0
    ensures Point(-0.5, q) == -Point(0.5, q) && Point(0.5, q) > 0.0
  {
    PointsKeepOrder(0.5, 0.0, q);
  }

  /** Converting there and back errs by at most half a unit, plus half a unit scaled back. */
  lemma ThereAndBackErrs(registry: Registry, x: real, a: string, b: string, scale: int, version: string)
    requires RegistryOk(registry) && Convert(registry, x, a, b, scale, version).Some?
    requires Convert(registry, Convert(registry, x, a, b, scale, version).value.rounded, b, a, scale, version).Some?
    ensures var half := Point(0.5, Quanta(scale));
      var back := Convert(registry, Convert(registry, x, a, b, scale, version).value.rounded, b, a, scale, version).value;
      var bound := half + Ratio(half, registry[b].factor, registry[a].factor);
      -bound <= back.rounded - x <= bound
  {
    var fa, fb, half := registry[a].factor, registry[b].factor, Point(0.5, Quanta(scale));
    var there := Ratio(x, fa, fb);
    var y := Round(there, scale);
    RoundErrsByHalf(there, scale);
    RoundErrsByHalf(Ratio(y, fb, fa), scale);
    HalfNegates(Quanta(scale));
    RatioBack(x, fa, fb);
    RatioSubtracts(y, there, fb, fa);
    RatioKeepsOrder(-half, y - there, fb, fa);
    RatioKeepsOrder(y - there, half, fb, fa);
    RatioNegates(half, fb, fa);
  }

  /** Whether a value survives the conversion from `from` to `to` and back. */
  predicate Recovers(x: real, from: real, to: real, scale: nat)
    requires from > 0.0 && to > 0.0
  {
    Round(Ratio(Round(Ratio(x, from, to), scale), to, from), scale) == x
  }

  /** Every value of the grid survives. */
  ghost predicate RecoversTheGrid(from: real, to: real, scale: nat)
    requires from > 0.0 && to > 0.0
  {
    forall x {:trigger Recovers(x, from, to, scale)} :: OnGrid(x, scale) ==> Recovers(x, from, to, scale)
  }

  lemma SignOfProduct(d: real, f: real)
    requires f > 0.0
    ensures (d * f >= 0.0 <==> d >= 0.0) && (d * f > 0.0 <==> d > 0.0)
  {
  }

  lemma SmallerUnitShrinks(e: real, from: real, to: real)
    requires 0.0 < to < from && e > 0.0
    ensures Ratio(e, to, from) < e
  {
    var g := Ratio(e, to, from);
    assert g * from == e * to;
    SignOfProduct(from - to, e);
    assert (e - g) * from == (from - to) * e;
    SignOfProduct(e - g, from);
  }

  lemma NearGridPoint(x: real, y: real, scale: nat)
    requires OnGrid(x, scale) && -Point(0.5, Quanta(scale)) < y - x < Point(0.5, Quanta(scale))
    ensures Round(y, scale) == x
  {
    var q := Quanta(scale);
    var n := Units(x, q).Floor;
    HalfNegates(q);
    PointOfUnits(x, q);
    PointOfUnits(y, q);
    PointOfUnits(0.5, q);
    PointOfUnits(-0.5, q);
    PointsSubtract(Units(y, q), Units(x, q), q);
    PointsKeepOrder(Units(y, q) - Units(x, q), -0.5, q);
    PointsKeepOrder(0.5, Units(y, q) - Units(x, q), q);
    RoundUnitIs(Units(y, q), n);
  }

  /** A unit no larger gives every on-grid value back. */
  lemma SmallerUnitRecovers(x: real, from: real, to: real, scale: nat)
    requires 0.0 < to <= from && OnGrid(x, scale)
    ensures Recovers(x, from, to, scale)
  {
    var half := Point(0.5, Quanta(scale));
    var there := Ratio(x, from, to);
    var y := Round(there, scale);
    var back := Ratio(y, to, from);
    HalfNegates(Quanta(scale));
    RatioBack(x, from, to);
    RatioSubtracts(y, there, to, from);
    RoundErrsByHalf(there, scale);
    if to == from {
      assert there == x;
      RoundFixesTheGrid(x, scale);
    } else {
      RatioKeepsOrder(-half, y - there, to, from);
      RatioKeepsOrder(y - there, half, to, from);
      RatioNegates(half, to, from);
      SmallerUnitShrinks(half, from, to);
      NearGridPoint(x, back, scale);
    }
  }

  /** A point of the grid, in units of the target. */
  function Image(n: int, from: real, to: real, scale: nat): int
    requires to > 0.0
  {
    RoundUnit(Units(Ratio(Point(n as real, Quanta(scale)), from, to), Quanta(scale)))
  }

  lemma ImageClimbs(n: int, from: real, to: real, scale: nat)
    requires from > 0.0 && to > 0.0
    requires Recovers(Point(n as real, Quanta(scale)), from, to, scale)
    requires Recovers(Point((n + 1) as real, Quanta(scale)), from, to, scale)
    ensures Image(n, from, to, scale) < Image(n + 1, from, to, scale)
  {
    var q := Quanta(scale);
    var x, y := Point(n as real, q), Point((n + 1) as real, q);
    PointsKeepOrder((n + 1) as real, n as real, q);
    PointsKeepOrder(n as real, (n + 1) as real, q);
    RatioKeepsOrder(x, y, from, to);
    UnitsKeepOrder(Ratio(x, from, to), Ratio(y, from, to), q);
    RoundUnitIsMonotone(Units(Ratio(x, from, to), q), Units(Ratio(y, from, to), q));
  }

  lemma {:induction false} ImageKeepsUp(n: nat, from: real, to: real, scale: nat)
    requires from > 0.0 && to > 0.0 && RecoversTheGrid(from, to, scale)
    ensures Image(n, from, to, scale) >= n
  {
    if n == 0 {
      ImageOfZero(from, to, scale);
    } else {
      ImageKeepsUp(n - 1, from, to, scale);
      PointRecovers(n - 1, from, to, scale);
      PointRecovers(n, from, to, scale);
      ImageClimbs(n - 1, from, to, scale);
    }
  }

  lemma ImageOfZero(from: real, to: real, scale: nat)
    requires to > 0.0
    ensures Image(0, from, to, scale) == 0
  {
    var q := Quanta(scale);
    assert Point(0 as real, q) == 0.0;
    assert Units(Ratio(0.0, from, to), q) == 0.0;
  }

  lemma PointRecovers(n: int, from: real, to: real, scale: nat)
    requires from > 0.0 && to > 0.0 && RecoversTheGrid(from, to, scale)
    ensures Recovers(Point(n as real, Quanta(scale)), from, to, scale)
  {
    PointOfUnits(n as real, Quanta(scale));
    assert OnGrid(Point(n as real, Quanta(scale)), scale);
  }

  lemma RatioOfPoint(n: int, from: real, to: real, q: real)
    requires to > 0.0 && q >= 1.0
    ensures Units(Ratio(Point(n as real, q), from, to), q) * to == n as real * from
  {
    PointOfUnits(n as real, q);
    assert Ratio(Point(n as real, q), from, to) * to == Point(n as real, q) * from;
    assert Units(Ratio(Point(n as real, q), from, to), q) * to == Ratio(Point(n as real, q), from, to) * to * q;
  }

  lemma Outgrows(n: real, to: real, gap: real)
    requires gap > 0.0 && n > to / gap
    ensures n * gap > to
  {
    var t := to / gap;
    assert t * gap == to;
    SignOfProduct(n - t, gap);
    assert (n - t) * gap == n * gap - t * gap;
  }

  /** Far enough out, the grid of a larger unit falls behind. */
  lemma ImageFallsBehind(from: real, to: real, scale: nat) returns (n: nat)
    requires 0.0 < from < to
    ensures Image(n, from, to, scale) < n
  {
    var gap := to - from;
    n := (to / gap).Floor + 1;
    assert n as real > to / gap;
    Outgrows(n as real, to, gap);
    var u := Units(Ratio(Point(n as real, Quanta(scale)), from, to), Quanta(scale));
    RatioOfPoint(n, from, to, Quanta(scale));
    assert (n as real - 1.0 - u) * to == n as real * gap - to;
    SignOfProduct(n as real - 1.0 - u, to);
  }

  /** Every on-grid value survives the way there and back exactly when the target unit is no larger. */
  lemma RecoversIffNotLarger(from: real, to: real, scale: nat)
    requires from > 0.0 && to > 0.0
    ensures RecoversTheGrid(from, to, scale) <==> to <= from
  {
    if to <= from {
      forall x | OnGrid(x, scale) ensures Recovers(x, from, to, scale) {
        SmallerUnitRecovers(x, from, to, scale);
      }
    } else if RecoversTheGrid(from, to, scale) {
      var n := ImageFallsBehind(from, to, scale);
      ImageKeepsUp(n, from, to, scale);
    }
  }

  lemma RatioOfZero(from: real, to: real)
    requires to > 0.0
    ensures Ratio(0.0, from, to) == 0.0
  {
  }

  lemma ZeroOnGrid(scale: nat)
    ensures OnGrid(0.0, scale)
  {
    assert Units(0.0, Quanta(scale)) == 0.0;
  }

  /** Both conversions succeed and give the value back, whenever the target unit is no larger. */
  lemma SmallerUnitRoundTrips(registry: Registry, x: real, a: string, b: string, scale: int, version: string)
    requires RegistryOk(registry) && Convertible(registry, a, b, scale, version)
    requires registry[b].factor <= registry[a].factor && OnGrid(x, scale)
    ensures var there := Convert(registry, x, a, b, scale, version);
      && there.Some?
      && var back := Convert(registry, there.value.rounded, b, a, scale, version);
      && back.Some? && back.value.rounded == x
  {
    hide Round, Ratio;
    var fa, fb := registry[a].factor, registry[b].factor;
    var there := Ratio(x, fa, fb);
    var y := Round(there, scale);
    SmallerUnitRecovers(x, fa, fb, scale);
    RoundFixesTheGrid(0.0, scale);
    RatioOfZero(fa, fb);
    RatioOfZero(fb, fa);
    ZeroOnGrid(scale);
  }
}
