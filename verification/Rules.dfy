/** Acceptance rules and what rounding does to them. */
module Rules {
  import opened Options
  import opened Rounding

  datatype Operator = Gte | Gt | Lte | Lt | BetweenInclusive | BetweenExclusive | TargetPlusMinus | Equal
                    | InSet | Contains | ManualPassFail

  datatype Rule = Rule(operator: Operator, lower: Option<real>, upper: Option<real>, target: Option<real>,
                       tolerance: Option<real>, allowed: set<string>)

  datatype Decision = Accepted | Rejected | OnHold

  /** The columns an operator needs, and no others. */
  predicate Valid(rule: Rule) {
    var numeric := rule.lower.Some? || rule.upper.Some? || rule.target.Some? || rule.tolerance.Some?;
    match rule.operator
    case Gte | Gt | Equal =>
      rule.lower.Some? && rule.upper.None? && rule.target.None? && rule.tolerance.None? && rule.allowed == {}
    case Lte | Lt =>
      rule.upper.Some? && rule.lower.None? && rule.target.None? && rule.tolerance.None? && rule.allowed == {}
    case BetweenInclusive | BetweenExclusive =>
      rule.lower.Some? && rule.upper.Some? && rule.lower.value <= rule.upper.value && rule.target.None?
      && rule.tolerance.None? && rule.allowed == {}
    case TargetPlusMinus =>
      rule.target.Some? && rule.tolerance.Some? && rule.tolerance.value >= 0.0 && rule.lower.None? && rule.upper.None?
      && rule.allowed == {}
    case InSet | Contains => rule.allowed != {} && !numeric
    case ManualPassFail => !numeric && rule.allowed == {}
  }

  function Abs(x: real): real {
    if x < 0.0 then -x else x
  }

  function EvaluateRule(rule: Rule, x: real): Decision
    requires Valid(rule)
  {
    match rule.operator
    case Gte => Verdict(x >= rule.lower.value)
    case Gt => Verdict(x > rule.lower.value)
    case Lte => Verdict(x <= rule.upper.value)
    case Lt => Verdict(x < rule.upper.value)
    case BetweenInclusive => Verdict(rule.lower.value <= x <= rule.upper.value)
    case BetweenExclusive => Verdict(rule.lower.value < x < rule.upper.value)
    case TargetPlusMinus => Verdict(Abs(x - rule.target.value) <= rule.tolerance.value)
    case Equal => Verdict(x == rule.lower.value)
    case _ => OnHold
  }

  function Verdict(accepted: bool): Decision {
    if accepted then Accepted else Rejected
  }

  // ----- the interval a numeric rule accepts -------------------------------------------

  datatype Bound = Unbounded | Closed(at: real) | Open(at: real)

  predicate Numeric(rule: Rule) {
    !rule.operator.InSet? && !rule.operator.Contains? && !rule.operator.ManualPassFail?
  }

  function Low(rule: Rule): Bound
    requires Valid(rule) && Numeric(rule)
  {
    match rule.operator
    case Gte | BetweenInclusive | Equal => Closed(rule.lower.value)
    case Gt | BetweenExclusive => Open(rule.lower.value)
    case TargetPlusMinus => Closed(rule.target.value - rule.tolerance.value)
    case _ => Unbounded
  }

  function High(rule: Rule): Bound
    requires Valid(rule) && Numeric(rule)
  {
    match rule.operator
    case Lte | BetweenInclusive => Closed(rule.upper.value)
    case Equal => Closed(rule.lower.value)
    case Lt | BetweenExclusive => Open(rule.upper.value)
    case TargetPlusMinus => Closed(rule.target.value + rule.tolerance.value)
    case _ => Unbounded
  }

  predicate Above(low: Bound, x: real) {
    match low case Unbounded => true case Closed(l) => l <= x case Open(l) => l < x
  }

  predicate Below(high: Bound, x: real) {
    match high case Unbounded => true case Closed(h) => x <= h case Open(h) => x < h
  }

  predicate Within(rule: Rule, x: real)
    requires Valid(rule) && Numeric(rule)
  {
    Above(Low(rule), x) && Below(High(rule), x)
  }

  /** A numeric rule accepts an interval and holds nothing; any other rule holds everything. */
  lemma RuleAcceptsInterval(rule: Rule, x: real)
    requires Valid(rule)
    ensures Numeric(rule) ==> EvaluateRule(rule, x) == Verdict(Within(rule, x))
    ensures !Numeric(rule) ==> EvaluateRule(rule, x) == OnHold
  {
  }

  function OneSided(operator: Operator, bound: real): (rule: Rule)
    requires operator.Gte? || operator.Gt? || operator.Lte? || operator.Lt?
    ensures Valid(rule)
  {
    if operator.Gte? || operator.Gt? then Rule(operator, Some(bound), None, None, None, {})
    else Rule(operator, None, Some(bound), None, None, {})
  }

  predicate Accepts(rule: Rule, x: real) {
    Valid(rule) && EvaluateRule(rule, x) == Accepted
  }

  /** "At least" is the order of the values, and the other one-sided rules are its mirror image and their opposites. */
  lemma OneSidedRelate(bound: real, x: real)
    ensures Accepts(OneSided(Gte, bound), x) <==> bound <= x
    ensures Accepts(OneSided(Lte, bound), x) <==> Accepts(OneSided(Gte, -bound), -x)
    ensures Accepts(OneSided(Gt, bound), x) <==> !Accepts(OneSided(Lte, bound), x)
    ensures Accepts(OneSided(Lt, bound), x) <==> !Accepts(OneSided(Gte, bound), x)
  {
  }

  /** Every two-sided rule is two one-sided ones together. */
  lemma TwoSidedSplit(rule: Rule, x: real)
    requires Valid(rule)
    ensures rule.operator.BetweenInclusive? ==>
      (Accepts(rule, x) <==> Accepts(OneSided(Gte, rule.lower.value), x) && Accepts(OneSided(Lte, rule.upper.value), x))
    ensures rule.operator.BetweenExclusive? ==>
      (Accepts(rule, x) <==> Accepts(OneSided(Gt, rule.lower.value), x) && Accepts(OneSided(Lt, rule.upper.value), x))
    ensures rule.operator.TargetPlusMinus? ==>
      (Accepts(rule, x) <==> Accepts(OneSided(Gte, rule.target.value - rule.tolerance.value), x)
                             && Accepts(OneSided(Lte, rule.target.value + rule.tolerance.value), x))
    ensures rule.operator.Equal? ==>
      (Accepts(rule, x) <==> Accepts(OneSided(Gte, rule.lower.value), x) && Accepts(OneSided(Lte, rule.lower.value), x))
  {
    hide Abs;
    if rule.operator.TargetPlusMinus? {
      AbsWithin(x - rule.target.value, rule.tolerance.value);
    }
  }

  lemma AbsWithin(d: real, tolerance: real)
    ensures Abs(d) <= tolerance <==> -tolerance <= d <= tolerance
  {
  }

  // ----- rounding at the ends of an interval -------------------------------------------

  /** What values just above `x` round to. */
  function RoundAbove(x: real, scale: nat): real {
    Point((Units(x, Quanta(scale)) + 0.5).Floor as real, Quanta(scale))
  }

  /** What values just below `x` round to. */
  function RoundBelow(x: real, scale: nat): real {
    -RoundAbove(-x, scale)
  }

  predicate LowStays(low: Bound, scale: nat) {
    match low
    case Unbounded => true
    case Closed(l) => Round(l, scale) >= l
    case Open(l) => RoundAbove(l, scale) > l
  }

  predicate HighStays(high: Bound, scale: nat) {
    match high
    case Unbounded => true
    case Closed(h) => Round(h, scale) <= h
    case Open(h) => RoundBelow(h, scale) < h
  }

  /** Whether accepted values stay accepted when rounded. An interval between equal open ends has none. */
  predicate RoundingStays(rule: Rule, scale: nat)
    requires Valid(rule)
  {
    !Numeric(rule) || (rule.operator.BetweenExclusive? && rule.lower == rule.upper)
    || (LowStays(Low(rule), scale) && HighStays(High(rule), scale))
  }

  lemma RoundsAtLeastAbove(l: real, x: real, scale: nat)
    requires l < x
    ensures Round(x, scale) >= RoundAbove(l, scale)
  {
    var q := Quanta(scale);
    UnitsKeepOrder(x, l, q);
    var n, m := (Units(l, q) + 0.5).Floor, RoundUnit(Units(x, q));
    assert m >= n;
    PointsKeepOrder(n as real, m as real, q);
  }

  /** Between two values there is one that rounds as values just above the smaller do. */
  lemma RoundedJustAbove(l: real, h: real, scale: nat) returns (x: real)
    requires l < h
    ensures l < x < h && Round(x, scale) == RoundAbove(l, scale)
  {
    var q := Quanta(scale);
    var u, v := Units(l, q), Units(h, q);
    var n := (u + 0.5).Floor;
    UnitsKeepOrder(h, l, q);
    var end := if v < n as real + 0.5 then v else n as real + 0.5;
    var w := (u + end) / 2.0;
    RoundUnitIs(w, n);
    x := Point(w, q);
    PointOfUnits(l, q);
    PointOfUnits(h, q);
    PointOfUnits(w, q);
    PointsKeepOrder(w, u, q);
    PointsKeepOrder(v, w, q);
  }

  lemma RoundUnitIsOdd(u: real)
    ensures RoundUnit(-u) == -RoundUnit(u)
  {
    RoundUnitIs(-u, -RoundUnit(u));
  }

  /** Rounding treats both signs alike. */
  lemma RoundIsOdd(x: real, scale: nat)
    ensures Round(-x, scale) == -Round(x, scale)
  {
    var q := Quanta(scale);
    var n := RoundUnit(Units(x, q));
    UnitsNegate(x, q);
    RoundUnitIsOdd(Units(x, q));
    PointsSubtract(0.0, n as real, q);
    assert Point(0.0, q) == 0.0;
  }

  lemma RoundsAtMostBelow(x: real, h: real, scale: nat)
    requires x < h
    ensures Round(x, scale) <= RoundBelow(h, scale)
  {
    RoundsAtLeastAbove(-h, -x, scale);
    RoundIsOdd(x, scale);
  }

  lemma RoundedJustBelow(l: real, h: real, scale: nat) returns (x: real)
    requires l < h
    ensures l < x < h && Round(x, scale) == RoundBelow(h, scale)
  {
    var y := RoundedJustAbove(-h, -l, scale);
    RoundIsOdd(y, scale);
    x := -y;
  }

  lemma StayingLow(low: Bound, x: real, scale: nat)
    requires LowStays(low, scale) && Above(low, x)
    ensures Above(low, Round(x, scale))
  {
    match low
    case Unbounded =>
    case Closed(l) => RoundIsMonotone(l, x, scale);
    case Open(l) => RoundsAtLeastAbove(l, x, scale);
  }

  lemma StayingHigh(high: Bound, x: real, scale: nat)
    requires HighStays(high, scale) && Below(high, x)
    ensures Below(high, Round(x, scale))
  {
    match high
    case Unbounded =>
    case Closed(h) => RoundIsMonotone(x, h, scale);
    case Open(h) => RoundsAtMostBelow(x, h, scale);
  }

  /** Neither end is past the other: the interval holds a value. */
  predicate Inhabited(low: Bound, high: Bound) {
    low.Unbounded? || high.Unbounded? || low.at < high.at || (low.Closed? && high.Closed? && low.at == high.at)
  }

  lemma LeavingLow(low: Bound, high: Bound, scale: nat) returns (x: real)
    requires !LowStays(low, scale) && Inhabited(low, high)
    ensures Above(low, x) && Below(high, x) && !Above(low, Round(x, scale))
  {
    if low.Closed? {
      x := low.at;
    } else {
      x := RoundedJustAbove(low.at, if high.Unbounded? then low.at + 1.0 else high.at, scale);
    }
  }

  lemma LeavingHigh(low: Bound, high: Bound, scale: nat) returns (x: real)
    requires !HighStays(high, scale) && Inhabited(low, high)
    ensures Above(low, x) && Below(high, x) && !Below(high, Round(x, scale))
  {
    if high.Closed? {
      x := high.at;
    } else {
      x := RoundedJustBelow(if low.Unbounded? then high.at - 1.0 else low.at, high.at, scale);
    }
  }

  /** A rule keeps accepting every accepted value after rounding exactly when both ends stay. */
  lemma RoundingStaysIff(rule: Rule, scale: nat)
    requires Valid(rule)
    ensures RoundingStays(rule, scale) <==>
              forall x :: EvaluateRule(rule, x) == Accepted ==> EvaluateRule(rule, Round(x, scale)) == Accepted
  {
    if RoundingStays(rule, scale) {
      forall x | EvaluateRule(rule, x) == Accepted ensures EvaluateRule(rule, Round(x, scale)) == Accepted {
        StayingLow(Low(rule), x, scale);
        StayingHigh(High(rule), x, scale);
        RuleAcceptsInterval(rule, Round(x, scale));
      }
    } else {
      assert Inhabited(Low(rule), High(rule));
      var x;
      if !LowStays(Low(rule), scale) {
        x := LeavingLow(Low(rule), High(rule), scale);
      } else {
        x := LeavingHigh(Low(rule), High(rule), scale);
      }
      RuleAcceptsInterval(rule, x);
      RuleAcceptsInterval(rule, Round(x, scale));
      assert EvaluateRule(rule, x) == Accepted && EvaluateRule(rule, Round(x, scale)) != Accepted;
    }
  }

  /** Rules without strict ends whose bounds the scale holds exactly keep their values. */
  lemma GridBoundsStay(rule: Rule, scale: nat)
    requires Valid(rule)
    requires !rule.operator.Gt? && !rule.operator.Lt? && !rule.operator.BetweenExclusive?
    requires Numeric(rule) ==> && (Low(rule).Closed? ==> OnGrid(Low(rule).at, scale))
                               && (High(rule).Closed? ==> OnGrid(High(rule).at, scale))
    ensures RoundingStays(rule, scale)
  {
    if Numeric(rule) && Low(rule).Closed? {
      RoundFixesTheGrid(Low(rule).at, scale);
    }
    if Numeric(rule) && High(rule).Closed? {
      RoundFixesTheGrid(High(rule).at, scale);
    }
  }

  lemma RoundAboveFixesTheGrid(x: real, scale: nat)
    requires OnGrid(x, scale)
    ensures RoundAbove(x, scale) == x
  {
    PointOfUnits(x, Quanta(scale));
    WholeFloor(Units(x, Quanta(scale)));
  }

  lemma FloorWithin(x: real, n: int)
    requires n as real <= x < n as real + 1.0
    ensures x.Floor == n
  {
  }

  lemma WholeFloor(u: real)
    requires u.Floor as real == u
    ensures (u + 0.5).Floor == u.Floor && (-u).Floor as real == -u
  {
    var n := u.Floor;
    assert -u == (0 - n) as real;
    FloorWithin(u + 0.5, n);
    FloorWithin(-u, 0 - n);
  }

  lemma GridNegates(x: real, scale: nat)
    requires OnGrid(x, scale)
    ensures OnGrid(-x, scale)
  {
    WholeFloor(Units(x, Quanta(scale)));
    UnitsNegate(x, Quanta(scale));
  }

  lemma UnitsNegate(x: real, q: real)
    requires q >= 1.0
    ensures Units(-x, q) == -Units(x, q)
  {
  }

  /** A strict rule with a bound on the grid always has accepted values that round onto the bound. */
  lemma StrictGridBoundsLeave(bound: real, scale: nat)
    requires OnGrid(bound, scale)
    ensures !LowStays(Open(bound), scale) && !HighStays(Open(bound), scale)
  {
    GridNegates(bound, scale);
    RoundAboveFixesTheGrid(bound, scale);
    RoundAboveFixesTheGrid(-bound, scale);
  }
}
