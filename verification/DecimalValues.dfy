/** The number a decimal stands for, and the decimal grid in terms of what its texts write. */
module DecimalValues {
  import opened Options
  import opened JsonText
  import opened DecimalText
  import opened Rounding
  import UnitConversion

  function Signed(negative: bool, r: real): real {
    if negative then -r else r
  }

  /** The digits as a whole number, times or divided by as many tens as the exponent says. */
  function ValueOf(d: Decimal): real
    requires d.Finite?
  {
    Signed(d.negative, if d.exponent >= 0 then TimesTen(d.coefficient, d.exponent) as real
                       else d.coefficient as real / Ten(-d.exponent))
  }

  /** One followed by zeros. */
  function Ten(zeros: nat): (r: real)
    ensures r >= 1.0
  {
    TimesTenGrows(1, zeros);
    TimesTen(1, zeros) as real
  }

  /** The places behind the point, counted in the text itself. */
  predicate HasPlaces(text: string, places: nat) {
    if places == 0 then '.' !in text else |text| > places && text[|text| - 1 - places] == '.'
  }

  /** The text is accepted as a decimal, writes that many places, and denotes the value. */
  ghost predicate Writes(text: string, places: nat, x: real) {
    Parse(text).Some? && Parse(text).value.Finite? && HasPlaces(text, places) && ValueOf(Parse(text).value) == x
  }

  /** The scale's quanta are one followed by as many zeros. */
  lemma {:induction false} QuantaIsTen(scale: nat)
    ensures Quanta(scale) == Ten(scale)
  {
    if scale > 0 {
      QuantaIsTen(scale - 1);
    }
  }

  lemma JoinedPlaces(p: Parts, places: nat)
    requires PartsOk(p)
    ensures HasPlaces(Joined(p), places) <==> places == |p.part|
  {
    var text := Joined(p);
    var start := if p.negative then 1 else 0;
    if p.part == [] {
      assert forall i :: 0 <= i < |text| ==> text[i] != '.';
    } else {
      var point := |text| - 1 - |p.part|;
      assert text[point] == '.';
      assert forall i :: 0 <= i < |text| && i != point ==> text[i] != '.';
    }
  }

  /** An accepted text denotes its digits, in units of as many places as it writes. */
  lemma ParsedPlaces(text: string, places: nat)
    requires Parse(text).Some?
    ensures Parse(text).value.Finite?
    ensures HasPlaces(text, places) <==> Parse(text).value.exponent == 0 - places
  {
    SplitJoins(text);
    JoinedPlaces(Split(text).value, places);
  }

  lemma UnitsOfQuotient(n: real, places: nat)
    ensures Units(n / Ten(places), Quanta(places)) == n && Point(n, Quanta(places)) == n / Ten(places)
  {
    QuantaIsTen(places);
    PointOfUnits(n, Quanta(places));
  }

  lemma ValueIsPoint(d: Decimal, places: nat)
    requires d.Finite? && d.exponent == 0 - places
    ensures ValueOf(d) == Point(Signed(d.negative, d.coefficient as real), Quanta(places))
  {
    hide Signed;
    UnitsOfQuotient(d.coefficient as real, places);
    UnitsOfQuotient(-(d.coefficient as real), places);
    assert places == 0 ==> TimesTen(d.coefficient, 0) == d.coefficient;
    SignedQuotient(d.negative, d.coefficient as real, Ten(places));
    UnitsOfQuotient(Signed(d.negative, d.coefficient as real), places);
  }

  lemma SignedQuotient(negative: bool, n: real, d: real)
    requires d >= 1.0
    ensures Signed(negative, n / d) == Signed(negative, n) / d
  {
  }

  function DecimalOf(n: int, places: nat): (d: Decimal)
    ensures d.Finite? && d.exponent == 0 - places && Signed(d.negative, d.coefficient as real) == n as real
    ensures !NegativeZero(d)
  {
    if n < 0 then Finite(true, -n, 0 - places) else Finite(false, n, 0 - places)
  }

  lemma WholeUnitsAreWritten(n: int, places: nat)
    ensures Writes(Canonical(DecimalOf(n, places)), places, Point(n as real, Quanta(places)))
  {
    hide ValueOf, HasPlaces, Canonical, Parse, Quanta, Point;
    var d := DecimalOf(n, places);
    CanonicalParses(d.negative, d.coefficient, places);
    assert Parse(Canonical(d)) == Some(d);
    ParsedPlaces(Canonical(d), places);
    ValueIsPoint(d, places);
  }

  /** The grid of a scale is what accepted texts with that many places denote. */
  lemma GridIsWritten(x: real, scale: nat)
    ensures OnGrid(x, scale) <==> exists text :: Writes(text, scale, x)
  {
    hide ValueOf, HasPlaces, Canonical, Parse, Quanta, Point;
    PointOfUnits(x, Quanta(scale));
    if OnGrid(x, scale) {
      var n := Units(x, Quanta(scale)).Floor;
      WholeUnitsAreWritten(n, scale);
      assert Writes(Canonical(DecimalOf(n, scale)), scale, x);
    }
    if text :| Writes(text, scale, x) {
      var d := Parse(text).value;
      ParsedPlaces(text, scale);
      ValueIsPoint(d, scale);
      var n: int := if d.negative then -(d.coefficient as int) else d.coefficient;
      PointOfUnits(n as real, Quanta(scale));
      assert Units(x, Quanta(scale)) == n as real;
    }
  }

  /** Rounding gives a value with that many places, and none with that many is nearer. */
  lemma RoundIsNearest(x: real, scale: nat)
    ensures exists text :: Writes(text, scale, Round(x, scale))
    ensures forall text, y | Writes(text, scale, y) :: Distance(Round(x, scale), x) <= Distance(y, x)
  {
    hide Writes, Round, OnGrid, Distance;
    RoundIsOnGrid(x, scale);
    GridIsWritten(Round(x, scale), scale);
    forall text, y | Writes(text, scale, y)
      ensures Distance(Round(x, scale), x) <= Distance(y, x)
    {
      GridIsWritten(y, scale);
      NoneIsNearer(x, scale, y);
    }
  }

  lemma RoundIsOnGrid(x: real, scale: nat)
    ensures OnGrid(Round(x, scale), scale)
  {
    PointOfUnits(RoundUnit(Units(x, Quanta(scale))) as real, Quanta(scale));
  }

  lemma NoneIsNearer(x: real, scale: nat, y: real)
    requires OnGrid(y, scale)
    ensures Distance(Round(x, scale), x) <= Distance(y, x)
  {
    hide Distance;
    var q := Quanta(scale);
    var n := RoundUnit(Units(x, q));
    var m := Units(y, q).Floor;
    PointOfUnits(x, q);
    PointOfUnits(y, q);
    PointOfUnits(n as real, q);
    NearestUnit(Units(x, q), m);
    DistanceInUnits(Round(x, scale), x, q);
    DistanceInUnits(y, x, q);
    UnitsKeepOrder(Distance(Round(x, scale), x), Distance(y, x), q);
  }

  function Distance(a: real, b: real): (r: real)
    ensures 0.0 <= r
  {
    if a < b then b - a else a - b
  }

  lemma NearestUnit(x: real, m: int)
    ensures Distance(RoundUnit(x) as real, x) <= Distance(m as real, x)
  {
    var n := RoundUnit(x);
    if m != n {
      assert m >= n + 1 || m <= n - 1;
    }
  }

  lemma DistanceInUnits(a: real, b: real, q: real)
    requires q >= 1.0
    ensures Units(Distance(a, b), q) == Distance(Units(a, q), Units(b, q))
  {
    UnitsKeepOrder(a, b, q);
    assert Units(a, q) - Units(b, q) == Units(a - b, q);
  }

  /** Of two equally near values with that many places, rounding takes the one whose last digit is even. */
  lemma RoundTiesToEven(x: real, scale: nat, d: Decimal)
    requires d.Finite? && d.exponent == 0 - scale && ValueOf(d) != Round(x, scale)
    requires Distance(ValueOf(d), x) == Distance(Round(x, scale), x)
    ensures d.coefficient % 2 == 1
  {
    hide ValueOf, Distance, Quanta, Units, Point;
    var q := Quanta(scale);
    var n := RoundUnit(Units(x, q));
    var m: int := if d.negative then -(d.coefficient as int) else d.coefficient;
    ValueIsPoint(d, scale);
    PointOfUnits(n as real, q);
    PointOfUnits(m as real, q);
    DistanceInUnits(ValueOf(d), x, q);
    DistanceInUnits(Round(x, scale), x, q);
    assert Distance(m as real, Units(x, q)) == Distance(n as real, Units(x, q)) && m != n;
    TieIsBetween(Units(x, q), n, m);
  }

  lemma TieIsBetween(u: real, n: int, m: int)
    requires n == RoundUnit(u) && m != n && Distance(m as real, u) == Distance(n as real, u)
    ensures m % 2 == 1 && n % 2 == 0
  {
    assert m as real - u == u - n as real;
    assert -1.0 <= (m - n) as real <= 1.0;
    assert m == n + 1 || m == n - 1;
  }

  // ----- decimal values as input -------------------------------------------------------

  lemma {:induction false} TimesTenGrowsStrictly(a: nat, b: nat)
    requires a < b
    ensures TimesTen(1, a) < TimesTen(1, b)
  {
    TimesTenGrows(1, b - 1);
    if a < b - 1 {
      TimesTenGrowsStrictly(a, b - 1);
    }
  }

  /** A number of so many digits lies between two powers of ten. */
  lemma {:induction false} DigitCount(c: nat)
    requires c > 0
    ensures TimesTen(1, |NatText(c)| - 1) <= c < TimesTen(1, |NatText(c)|)
  {
    if c >= 10 {
      DigitCount(c / 10);
    } else {
      assert TimesTen(1, 0) == 1 && TimesTen(1, 1) == 10;
    }
  }

  lemma Millionth(places: nat)
    requires places >= 6
    ensures TimesTen(1, places) == 1000000 * TimesTen(1, places - 6)
  {
    assert TimesTen(1, places) == 10 * TimesTen(1, places - 1) && TimesTen(1, places - 1) == 10 * TimesTen(1, places - 2);
    assert TimesTen(1, places - 2) == 10 * TimesTen(1, places - 3) && TimesTen(1, places - 3) == 10 * TimesTen(1, places - 4);
    assert TimesTen(1, places - 4) == 10 * TimesTen(1, places - 5) && TimesTen(1, places - 5) == 10 * TimesTen(1, places - 6);
  }

  lemma FarBehindIff(c: nat, places: nat)
    requires c > 0
    ensures |NatText(c)| - places > -6 <==> 1000000 * c >= TimesTen(1, places)
  {
    var n := |NatText(c)|;
    DigitCount(c);
    if places >= 6 {
      Millionth(places);
      if n - 1 > places - 6 {
        TimesTenGrowsStrictly(places - 6, n - 1);
      } else if n < places - 6 {
        TimesTenGrowsStrictly(n, places - 6);
      }
    } else {
      assert TimesTen(1, 0) == 1 && TimesTen(1, 1) == 10 && TimesTen(1, 2) == 100 && TimesTen(1, 3) == 1000;
      assert TimesTen(1, 4) == 10000 && TimesTen(1, 5) == 100000;
    }
  }

  /** A decimal other than zero is accepted by its own text exactly without positive exponent and from one millionth on. */
  lemma AcceptedFromMillionth(d: Decimal)
    requires d.Finite? && d.coefficient > 0
    ensures Parse(ValueText(d)) == Some(d) <==> d.exponent <= 0 && Distance(ValueOf(d), 0.0) >= 1.0 / 1000000.0
    ensures Parse(ValueText(d)) == Some(d) || Parse(ValueText(d)) == None
  {
    hide Parse, ValueText;
    DecimalInputIff(d);
    if d.exponent <= 0 {
      var places: nat := 0 - d.exponent;
      FarBehindIff(d.coefficient, places);
      QuotientAtLeast(d.coefficient as real, Ten(places));
      SizeOfValue(d, places);
    }
  }

  lemma SizeOfValue(d: Decimal, places: nat)
    requires d.Finite? && d.exponent == 0 - places
    ensures Distance(ValueOf(d), 0.0) == d.coefficient as real / Ten(places)
  {
    assert places == 0 ==> TimesTen(d.coefficient, 0) == d.coefficient && Ten(0) == 1.0;
    assert d.coefficient as real / Ten(places) >= 0.0;
  }

  lemma QuotientAtLeast(n: real, d: real)
    requires d >= 1.0
    ensures n / d >= 1.0 / 1000000.0 <==> 1000000.0 * n >= d
  {
    var q := n / d;
    assert q * d == n;
    if q >= 1.0 / 1000000.0 {
      assert (q - 1.0 / 1000000.0) * d >= 0.0;
    } else {
      assert (1.0 / 1000000.0 - q) * d > 0.0;
    }
  }

  /** A conversion gives a value with as many places as its scale, and none with that many is nearer to the exact one. */
  lemma ConvertedIsNearest(registry: UnitConversion.Registry, x: real, source: string, target: string, scale: int,
                           version: string)
    requires UnitConversion.RegistryOk(registry)
    requires UnitConversion.Convert(registry, x, source, target, scale, version).Some?
    ensures scale >= 0 && source in registry && target in registry && registry[target].factor > 0.0
    ensures var r := UnitConversion.Convert(registry, x, source, target, scale, version).value;
      var exact := x * registry[source].factor / registry[target].factor;
      && r.preRound == exact
      && (exists text :: Writes(text, scale, r.rounded))
      && (forall text, y | Writes(text, scale, y) :: Distance(r.rounded, exact) <= Distance(y, exact))
  {
    hide Writes, Round, Distance;
    RoundIsNearest(x * registry[source].factor / registry[target].factor, scale);
  }
}
