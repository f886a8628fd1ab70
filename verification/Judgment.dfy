/** Judging samples, items and cases, failing closed. */
module Judgment {
  import opened Options
  import opened Rounding
  import opened Rules
  import opened Sorting
  import UnitConversion

  datatype SamplePolicy = AllSamples | Average | WorstCase | Min | Max | Manual

  // ----- samples -----------------------------------------------------------------------

  function Sum(values: seq<real>): real {
    if values == [] then 0.0 else values[0] + Sum(values[1..])
  }

  function Mean(values: seq<real>): real
    requires values != []
  {
    Sum(values) / |values| as real
  }

  function Smallest(values: seq<real>): (m: real)
    requires values != []
    ensures m in values && forall x :: x in values ==> m <= x
  {
    if |values| == 1 then values[0]
    else
      var m := Smallest(values[1..]);
      assert forall x :: x in values ==> x == values[0] || x in values[1..];
      if values[0] < m then values[0] else m
  }

  function Largest(values: seq<real>): (m: real)
    requires values != []
    ensures m in values && forall x :: x in values ==> x <= m
  {
    if |values| == 1 then values[0]
    else
      var m := Largest(values[1..]);
      assert forall x :: x in values ==> x == values[0] || x in values[1..];
      if values[0] > m then values[0] else m
  }

  /** Held if one is missing or held, else rejected if one is rejected, else accepted. */
  function Combine(values: seq<Option<Decision>>): Decision {
    if None in values || Some(OnHold) in values then OnHold
    else if Some(Rejected) in values then Rejected
    else Accepted
  }

  function Decisions(rule: Rule, values: seq<real>): (d: seq<Option<Decision>>)
    requires Valid(rule)
    ensures |d| == |values| && forall i :: 0 <= i < |d| ==> d[i] == Some(EvaluateRule(rule, values[i]))
  {
    seq(|values|, i requires 0 <= i < |values| => Some(EvaluateRule(rule, values[i])))
  }

  /** The decision of a sample set; no samples give none. */
  function Aggregate(values: seq<real>, policy: SamplePolicy, rule: Rule, scale: nat): Option<Decision>
    requires values != [] ==> Valid(rule)
  {
    if values == [] then None
    else match policy
      case AllSamples | WorstCase => Some(Combine(Decisions(rule, values)))
      case Average => Some(EvaluateRule(rule, Round(Mean(values), scale)))
      case Min => Some(EvaluateRule(rule, Smallest(values)))
      case Max => Some(EvaluateRule(rule, Largest(values)))
      case Manual => Some(OnHold)
  }

  lemma {:induction false} SumJoins(a: seq<real>, b: seq<real>)
    ensures Sum(a + b) == Sum(a) + Sum(b)
    decreases a
  {
    if a == [] {
      assert a + b == b;
    } else {
      SumJoins(a[1..], b);
      assert (a + b)[1..] == a[1..] + b;
    }
  }

  /** The sum of one sample is that sample, and sums of parts add up. */
  lemma SumIsAdditive(x: real, a: seq<real>, b: seq<real>)
    ensures Sum([x]) == x && Sum(a + b) == Sum(a) + Sum(b)
  {
    assert [x][1..] == [];
    SumJoins(a, b);
  }

  /** What each sample policy looks at: the mean, taken so many times the sum; the least; the greatest. */
  lemma PolicyDecidesOn(values: seq<real>, rule: Rule, scale: nat, m: real)
    requires values != [] && Valid(rule)
    ensures m * |values| as real == Sum(values) ==>
              Aggregate(values, Average, rule, scale) == Some(EvaluateRule(rule, Round(m, scale)))
    ensures m in values && (forall x | x in values :: m <= x) ==>
              Aggregate(values, Min, rule, scale) == Some(EvaluateRule(rule, m))
    ensures m in values && (forall x | x in values :: x <= m) ==>
              Aggregate(values, Max, rule, scale) == Some(EvaluateRule(rule, m))
    ensures Aggregate(values, WorstCase, rule, scale) == Aggregate(values, AllSamples, rule, scale)
    ensures Aggregate(values, Manual, rule, scale) == Some(OnHold)
  {
    hide Mean, Sum, Smallest, Largest, Round, EvaluateRule, Valid, Combine;
    StatisticsAre(values, m);
  }

  lemma StatisticsAre(values: seq<real>, m: real)
    requires values != []
    ensures m * |values| as real == Sum(values) ==> Mean(values) == m
    ensures m in values && (forall x | x in values :: m <= x) ==> Smallest(values) == m
    ensures m in values && (forall x | x in values :: x <= m) ==> Largest(values) == m
  {
    hide Sum, Smallest, Largest;
    assert Smallest(values) in values && Largest(values) in values;
    if m * |values| as real == Sum(values) {
      MeanIs(values, m);
    }
  }

  lemma MeanIs(values: seq<real>, m: real)
    requires values != [] && m * |values| as real == Sum(values)
    ensures Mean(values) == m
  {
    hide Sum;
    Divided(Sum(values), |values| as real, m);
  }

  lemma Divided(sum: real, n: real, m: real)
    requires n > 0.0 && m * n == sum
    ensures sum / n == m
  {
  }

  lemma AllAcceptedIff(values: seq<real>, rule: Rule, scale: nat)
    requires values != [] && Valid(rule)
    ensures Aggregate(values, AllSamples, rule, scale) == Some(Accepted) <==>
              forall x :: x in values ==> EvaluateRule(rule, x) == Accepted
  {
    var d := Decisions(rule, values);
    if Combine(d) == Accepted {
      forall x | x in values ensures EvaluateRule(rule, x) == Accepted {
        var i :| 0 <= i < |values| && values[i] == x;
        assert d[i] in d;
      }
    }
  }

  /** The smallest and the largest sample are accepted exactly when all are. */
  lemma ExtremesDecideAll(values: seq<real>, rule: Rule, scale: nat)
    requires values != [] && Valid(rule)
    ensures Aggregate(values, Min, rule, scale) == Some(Accepted) && Aggregate(values, Max, rule, scale) == Some(Accepted)
        <==> Aggregate(values, AllSamples, rule, scale) == Some(Accepted)
  {
    AllAcceptedIff(values, rule, scale);
    var low, high := Smallest(values), Largest(values);
    if EvaluateRule(rule, low) == Accepted && EvaluateRule(rule, high) == Accepted {
      RuleAcceptsInterval(rule, low);
      RuleAcceptsInterval(rule, high);
      forall x | x in values ensures EvaluateRule(rule, x) == Accepted {
        RuleAcceptsInterval(rule, x);
      }
    }
  }

  lemma {:induction false} SumIsBounded(values: seq<real>, low: Bound, high: Bound)
    requires forall x :: x in values ==> Above(low, x) && Below(high, x)
    ensures !low.Unbounded? ==> Sum(values) >= |values| as real * low.at
    ensures low.Open? && values != [] ==> Sum(values) > |values| as real * low.at
    ensures !high.Unbounded? ==> Sum(values) <= |values| as real * high.at
    ensures high.Open? && values != [] ==> Sum(values) < |values| as real * high.at
  {
    if values != [] {
      SumIsBounded(values[1..], low, high);
      assert values[0] in values;
    }
  }

  lemma MeanIsWithin(values: seq<real>, low: Bound, high: Bound)
    requires values != [] && forall x :: x in values ==> Above(low, x) && Below(high, x)
    ensures Above(low, Mean(values)) && Below(high, Mean(values))
  {
    SumIsBounded(values, low, high);
    assert Mean(values) * |values| as real == Sum(values);
  }

  lemma MeanOfOne(x: real)
    ensures Mean([x]) == x && forall y :: y in [x] <==> y == x
  {
    assert Sum([x][1..]) == 0.0;
  }

  /** Whenever all samples are accepted, so is their rounded average. */
  ghost predicate AverageFollows(rule: Rule, scale: nat)
    requires Valid(rule)
  {
    forall values :: values != [] && Aggregate(values, AllSamples, rule, scale) == Some(Accepted) ==>
      Aggregate(values, Average, rule, scale) == Some(Accepted)
  }

  /** The average follows from all samples exactly when rounding keeps both ends of the accepted interval. */
  lemma AverageFollowsIff(rule: Rule, scale: nat)
    requires Valid(rule)
    ensures AverageFollows(rule, scale) <==> RoundingStays(rule, scale)
  {
    RoundingStaysIff(rule, scale);
    if RoundingStays(rule, scale) {
      forall values | values != [] && Aggregate(values, AllSamples, rule, scale) == Some(Accepted)
        ensures Aggregate(values, Average, rule, scale) == Some(Accepted)
      {
        MeanIsAccepted(values, rule, scale);
      }
    }
    if AverageFollows(rule, scale) {
      forall x | EvaluateRule(rule, x) == Accepted ensures EvaluateRule(rule, Round(x, scale)) == Accepted {
        MeanOfOne(x);
        AllAcceptedIff([x], rule, scale);
        assert Aggregate([x], Average, rule, scale) == Some(Accepted);
      }
    }
  }

  lemma MeanIsAccepted(values: seq<real>, rule: Rule, scale: nat)
    requires values != [] && Valid(rule) && Aggregate(values, AllSamples, rule, scale) == Some(Accepted)
    ensures EvaluateRule(rule, Mean(values)) == Accepted
  {
    AllAcceptedIff(values, rule, scale);
    assert values[0] in values;
    RuleAcceptsInterval(rule, values[0]);
    forall x | x in values ensures Within(rule, x) {
      RuleAcceptsInterval(rule, x);
    }
    MeanIsWithin(values, Low(rule), High(rule));
    RuleAcceptsInterval(rule, Mean(values));
  }

  /** For rules without strict ends whose bounds are multiples of the scale's unit, the average follows. */
  lemma AverageFollowsOnGrid(rule: Rule, scale: nat)
    requires Valid(rule) && !rule.operator.Gt? && !rule.operator.Lt? && !rule.operator.BetweenExclusive?
    requires Numeric(rule) ==> && (Low(rule).Closed? ==> OnGrid(Low(rule).at, scale))
                               && (High(rule).Closed? ==> OnGrid(High(rule).at, scale))
    ensures AverageFollows(rule, scale)
  {
    GridBoundsStay(rule, scale);
    AverageFollowsIff(rule, scale);
  }

  // ----- the order of samples ----------------------------------------------------------

  lemma {:induction false} SumDropsOne(values: seq<real>, i: nat)
    requires i < |values|
    ensures Sum(values) == values[i] + Sum(values[..i] + values[i + 1..])
  {
    var rest := values[..i] + values[i + 1..];
    if i == 0 {
      assert rest == values[1..];
    } else {
      SumDropsOne(values[1..], i - 1);
      assert rest[1..] == values[1..][..i - 1] + values[1..][i..];
    }
  }

  lemma DropOne<T>(a: seq<T>, b: seq<T>, i: nat)
    requires multiset(a) == multiset(b) && a != [] && i < |b| && b[i] == a[0]
    ensures multiset(a[1..]) == multiset(b[..i] + b[i + 1..])
  {
    assert a == [a[0]] + a[1..] && b == b[..i] + [b[i]] + b[i + 1..];
    assert multiset(a[1..]) == multiset(a) - multiset{a[0]};
    assert multiset(b[..i] + b[i + 1..]) == multiset(b) - multiset{b[i]};
  }

  lemma {:induction false} SumIgnoresOrder(a: seq<real>, b: seq<real>)
    requires multiset(a) == multiset(b)
    ensures Sum(a) == Sum(b)
  {
    if a != [] {
      assert a[0] in multiset(b);
      var i :| 0 <= i < |b| && b[i] == a[0];
      SumDropsOne(b, i);
      DropOne(a, b, i);
      SumIgnoresOrder(a[1..], b[..i] + b[i + 1..]);
    } else {
      assert |b| == |multiset(b)| == |multiset(a)| == 0;
    }
  }

  lemma DecisionMembers(rule: Rule, a: seq<real>, b: seq<real>)
    requires Valid(rule) && forall x :: x in a ==> x in b
    ensures forall d :: d in Decisions(rule, a) ==> d in Decisions(rule, b)
  {
    forall d | d in Decisions(rule, a) ensures d in Decisions(rule, b) {
      var i :| 0 <= i < |a| && Decisions(rule, a)[i] == d;
      assert a[i] in b;
      var j :| 0 <= j < |b| && b[j] == a[i];
      assert Decisions(rule, b)[j] == d;
    }
  }

  /** The order of samples decides nothing. */
  lemma AggregateIgnoresOrder(a: seq<real>, b: seq<real>, policy: SamplePolicy, rule: Rule, scale: nat)
    requires multiset(a) == multiset(b) && (a != [] ==> Valid(rule))
    ensures b != [] ==> Valid(rule)
    ensures Aggregate(a, policy, rule, scale) == Aggregate(b, policy, rule, scale)
  {
    SameMembers(a, b);
    if a != [] {
      SumIgnoresOrder(a, b);
      DecisionMembers(rule, a, b);
      DecisionMembers(rule, b, a);
    }
  }

  // ----- items -------------------------------------------------------------------------

  datatype MappingStatus = Unmapped | AliasMatched | ManualConfirmed

  datatype SourcePolicy = SupplierOnly | InternalOnly | BothInternalPriority | BothAllMustPass
                        | SupplierReferenceInternalFinal

  datatype MissingPolicy = RequestSupplement | InternalSubstitute | SpecialAcceptance | Hold | Reject

  /** A value as given: some are no canonical decimals. */
  datatype Raw = NotCanonical | Number(value: real)

  datatype Item = Item(
    rule: Rule, sourcePolicy: SourcePolicy, missingPolicy: MissingPolicy, samplePolicy: SamplePolicy,
    supplierValues: seq<Raw>, internalValues: seq<Raw>, supplierRule: Option<Rule>, mappingStatus: MappingStatus,
    mapped: bool, sourceConfident: bool, internalRequired: bool, rawSupplierValues: seq<Raw>, rawInternalValues: seq<Raw>,
    supplierUnit: Option<string>, internalUnit: Option<string>, targetUnit: Option<string>,
    units: Option<UnitConversion.Registry>, scale: nat, roundingVersion: string)

  predicate ItemOk(item: Item) {
    item.units.Some? ==> UnitConversion.RegistryOk(item.units.value)
  }

  /** One value, converted to the target unit where units are given. */
  function NormaliseOne(raw: Raw, unit: Option<string>, item: Item): Option<real>
    requires ItemOk(item)
  {
    if raw.NotCanonical? then None
    else if unit.None? && item.targetUnit.None? then Some(raw.value)
    else if item.units.None? || unit.None? || item.targetUnit.None? then None
    else
      match UnitConversion.Convert(item.units.value, raw.value, unit.value, item.targetUnit.value, item.scale,
                                   item.roundingVersion)
      case None => None
      case Some(c) => Some(c.rounded)
  }

  /** A value given in a unit is read in the target unit: the ratio of the factors, to half a unit of the scale. */
  lemma ReadInTargetUnit(x: real, unit: string, item: Item)
    requires ItemOk(item) && item.targetUnit.Some? && NormaliseOne(Number(x), Some(unit), item).Some?
    ensures item.units.Some? && unit in item.units.value && item.targetUnit.value in item.units.value
    ensures var read := NormaliseOne(Number(x), Some(unit), item).value;
      var exact := x * item.units.value[unit].factor / item.units.value[item.targetUnit.value].factor;
      Point(-0.5, Quanta(item.scale)) <= read - exact <= Point(0.5, Quanta(item.scale))
  {
    hide Round, Quanta, Point;
    UnitConversion.ConvertErrsByHalf(item.units.value, x, unit, item.targetUnit.value, item.scale, item.roundingVersion);
  }

  predicate Normalises(values: seq<Raw>, unit: Option<string>, item: Item)
    requires ItemOk(item)
  {
    forall v :: v in values ==> NormaliseOne(v, unit, item).Some?
  }

  function NormalisedValues(values: seq<Raw>, unit: Option<string>, item: Item): (n: seq<real>)
    requires ItemOk(item) && Normalises(values, unit, item)
    ensures |n| == |values| && forall i :: 0 <= i < |n| ==> NormaliseOne(values[i], unit, item) == Some(n[i])
  {
    seq(|values|, i requires 0 <= i < |values| => assert values[i] in values; NormaliseOne(values[i], unit, item).value)
  }

  /** All values in order, or none if one fails. */
  function Normalised(values: seq<Raw>, unit: Option<string>, item: Item): Option<seq<real>>
    requires ItemOk(item)
  {
    if Normalises(values, unit, item) then Some(NormalisedValues(values, unit, item)) else None
  }

  method NormaliseValues(values: seq<Raw>, unit: Option<string>, item: Item) returns (r: Option<seq<real>>)
    requires ItemOk(item)
    ensures r == Normalised(values, unit, item)
  {
    var normalised: seq<real> := [];
    for i := 0 to |values|
      invariant |normalised| == i
      invariant forall k :: 0 <= k < i ==> NormaliseOne(values[k], unit, item) == Some(normalised[k])
    {
      var one := NormaliseOne(values[i], unit, item);
      if one.None? {
        assert values[i] in values;
        return None;
      }
      normalised := normalised + [one.value];
    }
    assert Normalises(values, unit, item);
    assert normalised == NormalisedValues(values, unit, item);
    return Some(normalised);
  }

  function Either<T>(first: seq<T>, second: seq<T>): seq<T> {
    if first != [] then first else second
  }

  function Supplier(item: Item): Option<seq<real>>
    requires ItemOk(item)
  {
    Normalised(Either(item.rawSupplierValues, item.supplierValues), item.supplierUnit, item)
  }

  function Internal(item: Item): Option<seq<real>>
    requires ItemOk(item)
  {
    Normalised(Either(item.rawInternalValues, item.internalValues), item.internalUnit, item)
  }

  /** The missing policy plays no part in reading values. */
  lemma ReadingIgnoresMissingPolicy(item: Item, policy: MissingPolicy)
    requires ItemOk(item)
    ensures var other := item.(missingPolicy := policy);
      ItemOk(other) && Supplier(other) == Supplier(item) && Internal(other) == Internal(item)
  {
    hide UnitConversion.Convert;
    var other := item.(missingPolicy := policy);
    forall v, unit
      ensures NormaliseOne(v, unit, other) == NormaliseOne(v, unit, item)
    {
    }
    NormalisedAlike(Either(item.rawSupplierValues, item.supplierValues), item.supplierUnit, item, other);
    NormalisedAlike(Either(item.rawInternalValues, item.internalValues), item.internalUnit, item, other);
  }

  lemma NormalisedAlike(values: seq<Raw>, unit: Option<string>, a: Item, b: Item)
    requires ItemOk(a) && ItemOk(b) && forall v :: NormaliseOne(v, unit, a) == NormaliseOne(v, unit, b)
    ensures Normalised(values, unit, a) == Normalised(values, unit, b)
  {
    hide NormaliseOne;
    if Normalises(values, unit, a) {
      assert NormalisedValues(values, unit, a) == NormalisedValues(values, unit, b);
    }
  }

  datatype Stage = Mapping | ParseType | Units | Sample | Decided | BySource | ByMissing | Overall

  const PIPELINE: seq<Stage> := [Mapping, ParseType, Units, Sample, Decided, BySource, ByMissing, Overall]

  datatype Evaluation = Evaluation(supplier: Option<Decision>, hycSupplier: Option<Decision>, internal: Option<Decision>,
                                   overall: Decision, stages: seq<Stage>)

  function Held(stages: seq<Stage>): Evaluation {
    Evaluation(None, None, None, OnHold, stages)
  }

  function SupplierMissing(policy: MissingPolicy, internal: Option<Decision>): Decision {
    match policy
    case Reject => Rejected
    case InternalSubstitute => if internal.None? then OnHold else internal.value
    case _ => OnHold
  }

  predicate RuleFits(rule: Option<Rule>, values: seq<real>) {
    rule.Some? && values != [] ==> Valid(rule.value)
  }

  /** Mapped, confident, readable, not left to a person, and with rules that can be applied. */
  predicate Ready(item: Item)
    requires ItemOk(item)
  {
    && item.mapped && item.mappingStatus != Unmapped && item.sourceConfident
    && Supplier(item).Some? && Internal(item).Some? && item.samplePolicy != Manual
    && RuleFits(item.supplierRule, Supplier(item).value)
    && RuleFits(Some(item.rule), Supplier(item).value) && RuleFits(Some(item.rule), Internal(item).value)
  }

  /** What the supplier's own samples say under the HYC rule. */
  function HycSupplier(item: Item): Option<Decision>
    requires ItemOk(item) && Ready(item)
  {
    Aggregate(Supplier(item).value, item.samplePolicy, item.rule, item.scale)
  }

  function HycInternal(item: Item): Option<Decision>
    requires ItemOk(item) && Ready(item)
  {
    Aggregate(Internal(item).value, item.samplePolicy, item.rule, item.scale)
  }

  /** The decision by source policy, when no required source is missing. */
  function BySourcePolicy(item: Item, supplier: Option<Decision>, internal: Option<Decision>): Decision {
    match item.sourcePolicy
    case SupplierOnly => Combine([supplier])
    case InternalOnly | SupplierReferenceInternalFinal => Combine([internal])
    case BothInternalPriority => Combine([if internal.Some? then internal else supplier])
    case BothAllMustPass => Combine([supplier, internal])
  }

  /** The decision on an item. */
  function Judge(item: Item): Decision
    requires ItemOk(item)
  {
    if !Ready(item) then OnHold
    else
      var supplier, internal := HycSupplier(item), HycInternal(item);
      if item.internalRequired && internal.None? then OnHold
      else if item.sourcePolicy != InternalOnly && supplier.None? then
        if item.sourcePolicy == BothAllMustPass then OnHold else SupplierMissing(item.missingPolicy, internal)
      else BySourcePolicy(item, supplier, internal)
  }

  /** Runs the stages in order; a decision other than a hold completes them all. */
  method EvaluateItemDetails(item: Item) returns (e: Evaluation)
    requires ItemOk(item)
    ensures e.overall == Judge(item)
    ensures e.stages <= PIPELINE && (e.overall != OnHold ==> e.stages == PIPELINE)
    ensures Decided in e.stages ==> Ready(item) && e.hycSupplier == HycSupplier(item) && e.internal == HycInternal(item)
  {
    var stages: seq<Stage> := [];
    if !item.mapped || item.mappingStatus == Unmapped {
      return Held(stages);
    }
    stages := stages + [Mapping];
    if !item.sourceConfident {
      return Held(stages);
    }
    var supplier := NormaliseValues(Either(item.rawSupplierValues, item.supplierValues), item.supplierUnit, item);
    var internal := NormaliseValues(Either(item.rawInternalValues, item.internalValues), item.internalUnit, item);
    if supplier.None? || internal.None? {
      return Held(stages);
    }
    stages := stages + [ParseType, Units];
    if item.samplePolicy == Manual {
      return Held(stages);
    }
    if !RuleFits(item.supplierRule, supplier.value) || !RuleFits(Some(item.rule), supplier.value)
       || !RuleFits(Some(item.rule), internal.value) {
      return Held(stages);
    }
    stages := stages + [Sample, Decided];
    e := DecideBySources(item, stages);
  }

  /** Applies the source and missing policies to what the samples say. */
  method DecideBySources(item: Item, before: seq<Stage>) returns (e: Evaluation)
    requires ItemOk(item) && Ready(item)
    ensures e.overall == Judge(item) && e.hycSupplier == HycSupplier(item) && e.internal == HycInternal(item)
    ensures e.stages == before || e.stages == before + [BySource, ByMissing, Overall]
    ensures e.overall != OnHold ==> e.stages == before + [BySource, ByMissing, Overall]
  {
    var stages := before;
    var supplier := if item.supplierRule.None? then None
                    else Aggregate(Supplier(item).value, item.samplePolicy, item.supplierRule.value, item.scale);
    var hycSupplier, internal := HycSupplier(item), HycInternal(item);
    if item.internalRequired && internal.None? {
      return Evaluation(supplier, hycSupplier, internal, OnHold, stages);
    }
    if item.sourcePolicy != InternalOnly && hycSupplier.None? {
      var overall := if item.sourcePolicy == BothAllMustPass then OnHold else SupplierMissing(item.missingPolicy, internal);
      stages := stages + [BySource, ByMissing, Overall];
      return Evaluation(supplier, hycSupplier, internal, overall, stages);
    }
    stages := stages + [BySource, ByMissing];
    var overall := BySourcePolicy(item, hycSupplier, internal);
    stages := stages + [Overall];
    assert stages == before + [BySource, ByMissing, Overall];
    return Evaluation(supplier, hycSupplier, internal, overall, stages);
  }

  /** An item is accepted exactly when the sources its policies ask for are there and accepted. */
  lemma AcceptedIff(item: Item)
    requires ItemOk(item)
    ensures Judge(item) == Accepted <==>
              && Ready(item)
              && var supplier, internal := HycSupplier(item), HycInternal(item);
                 var substitute := supplier.None? && item.missingPolicy == InternalSubstitute && internal == Some(Accepted);
                 match item.sourcePolicy
                 case SupplierOnly =>
                   substitute || (supplier == Some(Accepted) && (item.internalRequired ==> internal.Some?))
                 case InternalOnly => internal == Some(Accepted)
                 case BothInternalPriority =>
                   substitute || (supplier.Some? && internal == Some(Accepted))
                   || (supplier == Some(Accepted) && internal.None? && !item.internalRequired)
                 case BothAllMustPass => supplier == internal == Some(Accepted)
                 case SupplierReferenceInternalFinal => substitute || (supplier.Some? && internal == Some(Accepted))
  {
    if Ready(item) {
      var supplier, internal := HycSupplier(item), HycInternal(item);
      CombineOne(supplier);
      CombineOne(internal);
      CombineTwo(supplier, internal);
    }
  }

  lemma CombineOne(d: Option<Decision>)
    ensures Combine([d]) == if d.None? then OnHold else d.value
  {
    assert d in [d];
  }

  lemma CombineTwo(a: Option<Decision>, b: Option<Decision>)
    ensures Combine([a, b]) == Accepted <==> a == b == Some(Accepted)
  {
    assert a in [a, b] && b in [a, b] && forall d :: d in [a, b] ==> d == a || d == b;
    assert a.Some? ==> a.value.Accepted? || a.value.Rejected? || a.value.OnHold?;
    assert b.Some? ==> b.value.Accepted? || b.value.Rejected? || b.value.OnHold?;
  }

  lemma CombineRejects(a: Option<Decision>, b: Option<Decision>)
    ensures Combine([a]) == Rejected <==> a == Some(Rejected)
    ensures Combine([a, b]) == Rejected <==>
              (a == Some(Rejected) && (b == Some(Rejected) || b == Some(Accepted))) || (a == Some(Accepted) && b == Some(Rejected))
  {
    assert a in [a] && a in [a, b] && b in [a, b] && forall d :: d in [a, b] ==> d == a || d == b;
    assert a.Some? ==> a.value.Accepted? || a.value.Rejected? || a.value.OnHold?;
    assert b.Some? ==> b.value.Accepted? || b.value.Rejected? || b.value.OnHold?;
  }

  /** An item is rejected exactly when a deciding source is rejected, or a missing supplier result is to be. */
  lemma RejectedIff(item: Item)
    requires ItemOk(item)
    ensures Judge(item) == Rejected <==>
              && Ready(item)
              && var supplier, internal := HycSupplier(item), HycInternal(item);
                 var missing := supplier.None? && (|| item.missingPolicy == Reject
                                                   || (item.missingPolicy == InternalSubstitute && internal == Some(Rejected)));
                 && (item.internalRequired ==> internal.Some?)
                 && match item.sourcePolicy
                    case SupplierOnly => missing || supplier == Some(Rejected)
                    case InternalOnly => internal == Some(Rejected)
                    case BothInternalPriority =>
                      missing || (supplier.Some? && internal == Some(Rejected)) || (supplier == Some(Rejected) && internal.None?)
                    case BothAllMustPass =>
                      || (supplier == Some(Rejected) && (internal == Some(Rejected) || internal == Some(Accepted)))
                      || (supplier == Some(Accepted) && internal == Some(Rejected))
                    case SupplierReferenceInternalFinal => missing || (supplier.Some? && internal == Some(Rejected))
  {
    if Ready(item) {
      var supplier, internal := HycSupplier(item), HycInternal(item);
      CombineRejects(supplier, internal);
      CombineRejects(internal, supplier);
    }
  }

  /** The supplier's samples, or the laboratory's, are non-empty and accepted under the HYC rule. */
  predicate SomeSourceAccepted(item: Item)
    requires ItemOk(item) && Ready(item)
  {
    || (Supplier(item).value != [] && HycSupplier(item) == Some(Accepted))
    || (Internal(item).value != [] && HycInternal(item) == Some(Accepted))
  }

  lemma AcceptedHasSamples(item: Item)
    requires ItemOk(item) && Judge(item) == Accepted
    ensures Ready(item) && SomeSourceAccepted(item)
  {
    AcceptedIff(item);
  }

  // ----- cases -------------------------------------------------------------------------

  predicate ItemsOk(items: seq<Item>) {
    forall i :: 0 <= i < |items| ==> ItemOk(items[i])
  }

  function Judgments(items: seq<Item>): (d: seq<Option<Decision>>)
    requires ItemsOk(items)
    ensures |d| == |items| && forall i :: 0 <= i < |d| ==> d[i] == Some(Judge(items[i]))
  {
    seq(|items|, i requires 0 <= i < |items| => Some(Judge(items[i])))
  }

  /** The candidate decision of a case. */
  function EvaluateCase(items: seq<Item>): Decision
    requires ItemsOk(items)
  {
    if items == [] then OnHold else Combine(Judgments(items))
  }

  /** A case is accepted only with items, every one of them mapped, confident, not manual, and with accepted samples. */
  lemma CaseAcceptedIff(items: seq<Item>)
    requires ItemsOk(items)
    ensures EvaluateCase(items) == Accepted <==> items != [] && forall i :: 0 <= i < |items| ==> Judge(items[i]) == Accepted
    ensures EvaluateCase(items) == Accepted ==>
              forall i :: 0 <= i < |items| ==> Ready(items[i]) && SomeSourceAccepted(items[i])
  {
    var d := Judgments(items);
    if items != [] && Combine(d) == Accepted {
      forall i | 0 <= i < |items| ensures Judge(items[i]) == Accepted && Ready(items[i]) && SomeSourceAccepted(items[i]) {
        assert d[i] in d;
        AcceptedHasSamples(items[i]);
      }
    }
  }

  /** A case on hold has no items or a held one; a rejected case has a rejected item and none on hold. */
  lemma CaseFailsClosed(items: seq<Item>)
    requires ItemsOk(items)
    ensures EvaluateCase(items) == OnHold <==> items == [] || exists i :: 0 <= i < |items| && Judge(items[i]) == OnHold
  {
    var d := Judgments(items);
    if i :| 0 <= i < |items| && Judge(items[i]) == OnHold {
      assert d[i] in d;
    }
    if Some(OnHold) in d {
      var i :| 0 <= i < |d| && d[i] == Some(OnHold);
      assert Judge(items[i]) == OnHold;
    }
  }

  lemma JudgmentMembers(a: seq<Item>, b: seq<Item>)
    requires ItemsOk(a) && ItemsOk(b) && forall x :: x in a ==> x in b
    ensures forall d :: d in Judgments(a) ==> d in Judgments(b)
  {
    forall d | d in Judgments(a) ensures d in Judgments(b) {
      var i :| 0 <= i < |a| && Judgments(a)[i] == d;
      assert a[i] in b;
      var j :| 0 <= j < |b| && b[j] == a[i];
      assert Judgments(b)[j] == d;
    }
  }

  /** The order of items decides nothing. */
  lemma CaseIgnoresOrder(a: seq<Item>, b: seq<Item>)
    requires multiset(a) == multiset(b) && ItemsOk(a) && ItemsOk(b)
    ensures EvaluateCase(a) == EvaluateCase(b)
  {
    SameMembers(a, b);
    JudgmentMembers(a, b);
    JudgmentMembers(b, a);
  }

  lemma {:induction false} ImagesIgnoreOrder<S(!new), T>(a: seq<S>, b: seq<S>, p: seq<T>, q: seq<T>, f: S -> T)
    requires multiset(a) == multiset(b) && |p| == |a| && |q| == |b|
    requires (forall i :: 0 <= i < |a| ==> p[i] == f(a[i])) && forall i :: 0 <= i < |b| ==> q[i] == f(b[i])
    ensures multiset(p) == multiset(q)
    decreases |a|
  {
    SameMembers(a, b);
    if a != [] {
      assert a[0] in b;
      var i :| 0 <= i < |b| && b[i] == a[0];
      DropOne(a, b, i);
      ImagesIgnoreOrder(a[1..], b[..i] + b[i + 1..], p[1..], q[..i] + q[i + 1..], f);
      assert p == [p[0]] + p[1..] && q == q[..i] + [q[i]] + q[i + 1..];
    }
  }

  lemma NormalisedIgnoresOrder(a: seq<Raw>, b: seq<Raw>, unit: Option<string>, item: Item)
    requires ItemOk(item) && multiset(a) == multiset(b) && Normalises(a, unit, item) && Normalises(b, unit, item)
    ensures multiset(NormalisedValues(a, unit, item)) == multiset(NormalisedValues(b, unit, item))
  {
    var f := (v: Raw) => match NormaliseOne(v, unit, item) case None => 0.0 case Some(x) => x;
    ImagesIgnoreOrder(a, b, NormalisedValues(a, unit, item), NormalisedValues(b, unit, item), f);
  }

  /** Two items that differ in the order of their samples only. */
  predicate SameButForSampleOrder(a: Item, b: Item) {
    && multiset(a.supplierValues) == multiset(b.supplierValues) && multiset(a.internalValues) == multiset(b.internalValues)
    && multiset(a.rawSupplierValues) == multiset(b.rawSupplierValues)
    && multiset(a.rawInternalValues) == multiset(b.rawInternalValues)
    && b == a.(supplierValues := b.supplierValues, internalValues := b.internalValues,
               rawSupplierValues := b.rawSupplierValues, rawInternalValues := b.rawInternalValues)
  }

  lemma SourceIgnoresOrder(x: seq<Raw>, y: seq<Raw>, unit: Option<string>, a: Item, b: Item)
    requires ItemOk(a) && ItemOk(b) && multiset(x) == multiset(y) && SameButForSampleOrder(a, b)
    ensures Normalised(x, unit, a).None? <==> Normalised(y, unit, b).None?
    ensures Normalised(x, unit, a).Some? ==>
              multiset(Normalised(x, unit, a).value) == multiset(Normalised(y, unit, b).value)
  {
    SameMembers(x, y);
    assert forall v :: NormaliseOne(v, unit, a) == NormaliseOne(v, unit, b);
    if Normalises(x, unit, a) {
      assert Normalises(y, unit, b) && Normalises(y, unit, a);
      assert NormalisedValues(y, unit, a) == NormalisedValues(y, unit, b);
      NormalisedIgnoresOrder(x, y, unit, a);
    }
  }

  lemma EitherIgnoresOrder(x: seq<Raw>, y: seq<Raw>, v: seq<Raw>, w: seq<Raw>)
    requires multiset(x) == multiset(y) && multiset(v) == multiset(w)
    ensures multiset(Either(x, v)) == multiset(Either(y, w))
  {
    SameMembers(x, y);
  }

  lemma SourcesIgnoreOrder(a: Item, b: Item)
    requires ItemOk(a) && ItemOk(b) && SameButForSampleOrder(a, b)
    ensures Supplier(a).None? == Supplier(b).None? && Internal(a).None? == Internal(b).None?
    ensures Supplier(a).Some? ==> multiset(Supplier(a).value) == multiset(Supplier(b).value)
    ensures Internal(a).Some? ==> multiset(Internal(a).value) == multiset(Internal(b).value)
  {
    EitherIgnoresOrder(a.rawSupplierValues, b.rawSupplierValues, a.supplierValues, b.supplierValues);
    EitherIgnoresOrder(a.rawInternalValues, b.rawInternalValues, a.internalValues, b.internalValues);
    SourceIgnoresOrder(Either(a.rawSupplierValues, a.supplierValues), Either(b.rawSupplierValues, b.supplierValues),
                       a.supplierUnit, a, b);
    SourceIgnoresOrder(Either(a.rawInternalValues, a.internalValues), Either(b.rawInternalValues, b.internalValues),
                       a.internalUnit, a, b);
  }

  /** The order of an item's samples decides nothing. */
  lemma ItemIgnoresSampleOrder(a: Item, b: Item)
    requires ItemOk(a) && ItemOk(b) && SameButForSampleOrder(a, b)
    ensures Judge(a) == Judge(b)
  {
    hide Supplier, Internal, Aggregate, Valid;
    SourcesIgnoreOrder(a, b);
    if Supplier(a).Some? && Internal(a).Some? {
      var s, t, i, j := Supplier(a).value, Supplier(b).value, Internal(a).value, Internal(b).value;
      SameMembers(s, t);
      SameMembers(i, j);
      assert (s == [] <==> t == []) && (i == [] <==> j == []);
      if Ready(a) {
        AggregateIgnoresOrder(s, t, a.samplePolicy, a.rule, a.scale);
        AggregateIgnoresOrder(i, j, a.samplePolicy, a.rule, a.scale);
        assert HycSupplier(a) == HycSupplier(b) && HycInternal(a) == HycInternal(b);
      }
    }
  }

  lemma SourceIgnoresSupplierRule(values: seq<Raw>, unit: Option<string>, item: Item, other: Option<Rule>)
    requires ItemOk(item)
    ensures Normalised(values, unit, item.(supplierRule := other)) == Normalised(values, unit, item)
  {
    var changed := item.(supplierRule := other);
    assert forall v :: NormaliseOne(v, unit, item) == NormaliseOne(v, unit, changed);
    if Normalises(values, unit, item) {
      assert Normalises(values, unit, changed);
      assert NormalisedValues(values, unit, item) == NormalisedValues(values, unit, changed);
    }
  }

  /** One valid supplier rule is as good as another, or none: it never reaches the decision. */
  lemma SupplierRuleIsReferenceOnly(item: Item, other: Option<Rule>)
    requires ItemOk(item) && Supplier(item).Some?
    requires RuleFits(item.supplierRule, Supplier(item).value) && RuleFits(other, Supplier(item).value)
    ensures Judge(item.(supplierRule := other)) == Judge(item)
  {
    SourceIgnoresSupplierRule(Either(item.rawSupplierValues, item.supplierValues), item.supplierUnit, item, other);
    SourceIgnoresSupplierRule(Either(item.rawInternalValues, item.internalValues), item.internalUnit, item, other);
  }
}
