/** The report over many cases: summing counters and forming metrics equals aggregating case metrics. */
module Reporting {
  import opened EvaluationTypes
  import opened Scoring
  import opened CaseAcceptance
  import V = CaseValidation

  // ----- what the report model demands -------------------------------------------------

  function AddMetrics(a: V.Metric, b: V.Metric): V.Metric {
    V.Metric(a.numerator + b.numerator, a.denominator + b.denominator, a.excludedReference + b.excludedReference,
             a.excludedIgnored + b.excludedIgnored, a.errors + b.errors)
  }

  function SumOf(cases: seq<V.Metrics>, pick: V.Metrics -> V.Metric): V.Metric {
    if cases == [] then V.Ratio(0, 0)
    else AddMetrics(SumOf(cases[..|cases| - 1], pick), pick(cases[|cases| - 1]))
  }

  function Total(cases: seq<V.Metrics>, pick: V.Metrics -> nat): nat {
    if cases == [] then 0 else Total(cases[..|cases| - 1], pick) + pick(cases[|cases| - 1])
  }

  function AllEvidence(cases: seq<V.Metrics>): seq<Evidence> {
    if cases == [] then [] else AllEvidence(cases[..|cases| - 1]) + cases[|cases| - 1].evidence
  }

  /** The entry of a kind, or an empty one where a case lists none. */
  function EntryFor(byKind: seq<V.KindMetric>, kind: Kind): V.KindMetric {
    if byKind == [] then V.KindMetric(kind, V.Ratio(0, 0), V.Ratio(0, 0))
    else if byKind[0].kind == kind then byKind[0]
    else EntryFor(byKind[1..], kind)
  }

  predicate MatchesAggregate(cases: seq<V.Metrics>, m: V.Metrics) {
    && m.exact == SumOf(cases, (c: V.Metrics) => c.exact)
    && m.normalized == SumOf(cases, (c: V.Metrics) => c.normalized)
    && m.missingRequired == SumOf(cases, (c: V.Metrics) => c.missingRequired)
    && m.page == SumOf(cases, (c: V.Metrics) => c.page)
  }

  predicate RatiosAggregate(cases: seq<V.Metrics>, m: V.Metrics) {
    && m.documentClassification == SumOf(cases, (c: V.Metrics) => c.documentClassification)
    && m.rowPrecision == SumOf(cases, (c: V.Metrics) => c.rowPrecision)
    && m.rowRecall == SumOf(cases, (c: V.Metrics) => c.rowRecall)
    && m.missing.precision == SumOf(cases, (c: V.Metrics) => c.missing.precision)
    && m.missing.recall == SumOf(cases, (c: V.Metrics) => c.missing.recall)
  }

  predicate CountsAggregate(cases: seq<V.Metrics>, m: V.Metrics) {
    && m.missing.truePositive == Total(cases, (c: V.Metrics) => c.missing.truePositive)
    && m.missing.falsePositive == Total(cases, (c: V.Metrics) => c.missing.falsePositive)
    && m.missing.falseNegative == Total(cases, (c: V.Metrics) => c.missing.falseNegative)
    && m.missing.trueNegative == Total(cases, (c: V.Metrics) => c.missing.trueNegative)
    && m.excludedReference == Total(cases, (c: V.Metrics) => c.excludedReference)
    && m.excludedIgnored == Total(cases, (c: V.Metrics) => c.excludedIgnored)
    && m.duplicates == Total(cases, (c: V.Metrics) => c.duplicates)
    && m.unmapped == Total(cases, (c: V.Metrics) => c.unmapped)
    && m.logicConflicts == Total(cases, (c: V.Metrics) => c.logicConflicts)
    && m.lowConfidence == Total(cases, (c: V.Metrics) => c.lowConfidence)
    && m.pageMismatches == Total(cases, (c: V.Metrics) => c.pageMismatches)
    && m.evidence == AllEvidence(cases)
  }

  predicate KindsAggregate(cases: seq<V.Metrics>, m: V.Metrics) {
    && (forall i, j :: 0 <= i < j < |m.byKind| ==> m.byKind[i].kind != m.byKind[j].kind)
    && forall i :: 0 <= i < |m.byKind| ==>
         var kind := m.byKind[i].kind;
         && m.byKind[i].exact == SumOf(cases, (c: V.Metrics) => EntryFor(c.byKind, kind).exact)
         && m.byKind[i].normalized == SumOf(cases, (c: V.Metrics) => EntryFor(c.byKind, kind).normalized)
  }

  /** Everything the report model checks of the metrics. */
  predicate ReportAccepted(cases: seq<V.Metrics>, m: V.Metrics) {
    V.MetricsAccepted(m) && MatchesAggregate(cases, m) && RatiosAggregate(cases, m) && CountsAggregate(cases, m) && KindsAggregate(cases, m)
  }

  // ----- summing the counters of all cases ---------------------------------------------

  function TotalCounts(cases: seq<Progress>): Tally {
    if cases == [] then ZERO else TotalCounts(cases[..|cases| - 1]).Plus(cases[|cases| - 1].counts)
  }

  function TotalKind(cases: seq<Progress>, kind: Kind): Tally {
    if cases == [] then ZERO
    else TotalKind(cases[..|cases| - 1], kind).Plus(KindTally(cases[|cases| - 1].kinds, kind))
  }

  function CaseMetrics(cases: seq<Progress>): (ms: seq<V.Metrics>)
    ensures |ms| == |cases|
  {
    if cases == [] then [] else CaseMetrics(cases[..|cases| - 1]) + [MetricsOf(cases[|cases| - 1])]
  }

  function At<T>(m: map<Kind, T>, kind: Kind, none: T): T {
    if kind in m then m[kind] else none
  }

  /** Adds the entries of `own` to those of `sums`, kind by kind. */
  method AddKinds<T>(sums: map<Kind, T>, own: map<Kind, T>, none: T, plus: (T, T) -> T) returns (r: map<Kind, T>)
    ensures forall kind :: At(r, kind, none)
                        == if kind in own then plus(At(sums, kind, none), own[kind]) else At(sums, kind, none)
  {
    r := sums;
    var pending := own.Keys;
    while pending != {}
      invariant pending <= own.Keys
      invariant forall kind :: At(r, kind, none)
                            == if kind in own && kind !in pending then plus(At(sums, kind, none), own[kind])
                               else At(sums, kind, none)
      decreases pending
    {
      var kind :| kind in pending;
      r := r[kind := plus(At(r, kind, none), own[kind])];
      pending := pending - {kind};
    }
  }

  /** The per-kind counters of the cases scored so far. */
  ghost predicate KindsTotal(kinds: map<Kind, Tally>, cases: seq<Progress>) {
    forall kind :: At(kinds, kind, ZERO) == TotalKind(cases, kind)
  }

  lemma KindTotalGrows(cases: seq<Progress>, p: Progress, kind: Kind)
    ensures TotalKind(cases + [p], kind)
         == if kind in p.kinds then TotalKind(cases, kind).Plus(p.kinds[kind]) else TotalKind(cases, kind)
  {
    assert (cases + [p])[..|cases|] == cases;
    PlusZero(TotalKind(cases, kind));
  }

  lemma KindsTotalGrows(kinds: map<Kind, Tally>, cases: seq<Progress>, p: Progress, more: map<Kind, Tally>)
    requires KindsTotal(kinds, cases)
    requires forall kind :: At(more, kind, ZERO)
                         == if kind in p.kinds then At(kinds, kind, ZERO).Plus(p.kinds[kind]) else At(kinds, kind, ZERO)
    ensures KindsTotal(more, cases + [p])
  {
    forall kind
      ensures At(more, kind, ZERO) == TotalKind(cases + [p], kind)
    {
      KindTotalGrows(cases, p, kind);
    }
  }

  lemma CountsTotalGrows(cases: seq<Progress>, p: Progress)
    ensures TotalCounts(cases + [p]) == TotalCounts(cases).Plus(p.counts)
  {
    assert (cases + [p])[..|cases|] == cases;
  }

  /** Scores the cases in order and sums their counters. */
  method ScoreRuns(runs: seq<CaseRun>) returns (cases: seq<Progress>, total: Tally, kinds: map<Kind, Tally>)
    requires forall run :: run in runs ==> ValidRun(run)
    ensures |cases| == |runs| && forall i :: 0 <= i < |runs| ==> cases[i] == Fold(runs[i], ItemsOf(runs[i]))
    ensures total == TotalCounts(cases) && KindsTotal(kinds, cases)
  {
    hide Fold, ItemsOf;
    cases, total, kinds := [], ZERO, map[];
    for i := 0 to |runs|
      invariant |cases| == i && forall j :: 0 <= j < i ==> cases[j] == Fold(runs[j], ItemsOf(runs[j]))
      invariant total == TotalCounts(cases) && KindsTotal(kinds, cases)
    {
      assert runs[i] in runs;
      var p := ScoreCase(runs[i]);
      var more := AddKinds(kinds, p.kinds, ZERO, (a: Tally, b: Tally) => a.Plus(b));
      KindsTotalGrows(kinds, cases, p, more);
      CountsTotalGrows(cases, p);
      total, kinds, cases := total.Plus(p.counts), more, cases + [p];
    }
  }

  // ----- the report is accepted --------------------------------------------------------

  lemma MetricsGrow(cases: seq<Progress>)
    requires cases != []
    ensures var ms := CaseMetrics(cases);
            ms[..|ms| - 1] == CaseMetrics(cases[..|cases| - 1]) && ms[|ms| - 1] == MetricsOf(cases[|cases| - 1])
  {
  }

  lemma {:induction false} MatchesTotal(cases: seq<Progress>, kinds: map<Kind, Tally>)
    ensures MatchesAggregate(CaseMetrics(cases), V.CohortMetrics(TotalCounts(cases), kinds))
    decreases cases
  {
    if cases != [] {
      MetricsGrow(cases);
      MatchesTotal(cases[..|cases| - 1], kinds);
    }
  }

  lemma {:induction false} RatiosTotal(cases: seq<Progress>, kinds: map<Kind, Tally>)
    ensures RatiosAggregate(CaseMetrics(cases), V.CohortMetrics(TotalCounts(cases), kinds))
    decreases cases
  {
    if cases != [] {
      MetricsGrow(cases);
      RatiosTotal(cases[..|cases| - 1], kinds);
    }
  }

  lemma {:induction false} CountsTotal(cases: seq<Progress>, kinds: map<Kind, Tally>)
    ensures CountsAggregate(CaseMetrics(cases), V.CohortMetrics(TotalCounts(cases), kinds))
    decreases cases
  {
    if cases != [] {
      MetricsGrow(cases);
      CountsTotal(cases[..|cases| - 1], kinds);
    }
  }

  lemma {:induction false} EntryAt(byKind: seq<V.KindMetric>, kind: Kind, i: nat)
    requires i < |byKind| && byKind[i].kind == kind && forall j :: 0 <= j < i ==> byKind[j].kind != kind
    ensures EntryFor(byKind, kind) == byKind[i]
    decreases i
  {
    if i > 0 {
      EntryAt(byKind[1..], kind, i - 1);
    }
  }

  lemma EntryOfKind(kinds: map<Kind, Tally>, kind: Kind)
    ensures EntryFor(V.KindMetrics(kinds), kind) == V.KindMetricOf(kinds, kind)
  {
    var r := V.KindMetrics(kinds);
    assert forall i :: 0 <= i < |r| ==> r[i].kind == KIND_ORDER[i];
    var i := match kind case Header => 0 case Date => 1 case Lot => 2 case UnitKind => 3 case Text => 4 case Decimal => 5;
    assert KIND_ORDER[i] == kind;
    EntryAt(r, kind, i);
  }

  lemma {:induction false} KindTotals(cases: seq<Progress>, kind: Kind)
    ensures var k, ms := TotalKind(cases, kind), CaseMetrics(cases);
            && V.ExactMetric(k) == SumOf(ms, (c: V.Metrics) => EntryFor(c.byKind, kind).exact)
            && V.NormalizedMetric(k) == SumOf(ms, (c: V.Metrics) => EntryFor(c.byKind, kind).normalized)
    decreases cases
  {
    if cases != [] {
      hide EntryFor, CaseMetrics;
      MetricsGrow(cases);
      KindTotals(cases[..|cases| - 1], kind);
      EntryOfKind(cases[|cases| - 1].kinds, kind);
    }
  }

  ghost predicate AllScored(runs: seq<CaseRun>, cases: seq<Progress>) {
    |cases| == |runs| && forall i :: 0 <= i < |runs| ==> ValidRun(runs[i]) && cases[i] == Fold(runs[i], ItemsOf(runs[i]))
  }

  /** The counters of a scored case hold together. */
  ghost predicate CoherentCase(p: Progress) {
    && Coherent(p.counts) && p.counts.documentNumerator <= p.counts.documentDenominator
    && forall kind :: Coherent(KindTally(p.kinds, kind))
  }

  lemma ScoredIsCoherent(runs: seq<CaseRun>, cases: seq<Progress>)
    requires AllScored(runs, cases)
    ensures forall p :: p in cases ==> CoherentCase(p)
  {
    forall i | 0 <= i < |cases|
      ensures CoherentCase(cases[i])
    {
      RunIsCoherent(runs[i], cases[i]);
    }
  }

  lemma {:induction false} TotalIsCoherent(cases: seq<Progress>)
    requires forall p :: p in cases ==> CoherentCase(p)
    ensures Coherent(TotalCounts(cases))
    ensures TotalCounts(cases).documentNumerator <= TotalCounts(cases).documentDenominator
    decreases cases
  {
    if cases != [] {
      var before, last := cases[..|cases| - 1], cases[|cases| - 1];
      TotalIsCoherent(before);
      assert CoherentCase(last);
      CoherentPlus(TotalCounts(before), last.counts);
    }
  }

  lemma {:induction false} TotalKindIsCoherent(cases: seq<Progress>, kind: Kind)
    requires forall p :: p in cases ==> CoherentCase(p)
    ensures Coherent(TotalKind(cases, kind))
    decreases cases
  {
    if cases != [] {
      var before, last := cases[..|cases| - 1], cases[|cases| - 1];
      TotalKindIsCoherent(before, kind);
      assert CoherentCase(last) && Coherent(KindTally(last.kinds, kind));
      CoherentPlus(TotalKind(before, kind), KindTally(last.kinds, kind));
    }
  }

  lemma TotalKindAccepted(cases: seq<Progress>, kinds: map<Kind, Tally>, kind: Kind)
    requires KindsTotal(kinds, cases) && forall p :: p in cases ==> CoherentCase(p)
    ensures V.MetricAccepted(V.KindMetricOf(kinds, kind).exact) && V.MetricAccepted(V.KindMetricOf(kinds, kind).normalized)
  {
    TotalKindIsCoherent(cases, kind);
    assert KindTally(kinds, kind) == At(kinds, kind, ZERO);
    KindMetricsAccepted(kinds, kind);
  }

  lemma TotalMetricsAccepted(cases: seq<Progress>, kinds: map<Kind, Tally>)
    requires KindsTotal(kinds, cases) && forall p :: p in cases ==> CoherentCase(p)
    ensures V.MetricsAccepted(V.CohortMetrics(TotalCounts(cases), kinds))
  {
    TotalIsCoherent(cases);
    forall i | 0 <= i < |KIND_ORDER|
      ensures var k := V.KindMetricOf(kinds, KIND_ORDER[i]);
              V.MetricAccepted(k.exact) && V.MetricAccepted(k.normalized)
    {
      TotalKindAccepted(cases, kinds, KIND_ORDER[i]);
    }
    CoherentMetricsAccepted(TotalCounts(cases), kinds);
  }

  lemma KindEntryAggregates(cases: seq<Progress>, kinds: map<Kind, Tally>, kind: Kind)
    requires KindsTotal(kinds, cases)
    ensures var k, ms := V.KindMetricOf(kinds, kind), CaseMetrics(cases);
            && k.exact == SumOf(ms, (c: V.Metrics) => EntryFor(c.byKind, kind).exact)
            && k.normalized == SumOf(ms, (c: V.Metrics) => EntryFor(c.byKind, kind).normalized)
  {
    assert At(kinds, kind, ZERO) == TotalKind(cases, kind);
    KindTotals(cases, kind);
  }

  lemma KindsOfReportAggregate(cases: seq<Progress>, kinds: map<Kind, Tally>, m: V.Metrics)
    requires KindsTotal(kinds, cases) && m.byKind == V.KindMetrics(kinds)
    ensures KindsAggregate(CaseMetrics(cases), m)
  {
    hide EntryFor, SumOf, CaseMetrics;
    forall i | 0 <= i < |m.byKind|
      ensures var kind := m.byKind[i].kind;
              && m.byKind[i].exact == SumOf(CaseMetrics(cases), (c: V.Metrics) => EntryFor(c.byKind, kind).exact)
              && m.byKind[i].normalized == SumOf(CaseMetrics(cases), (c: V.Metrics) => EntryFor(c.byKind, kind).normalized)
    {
      KindEntryAggregates(cases, kinds, KIND_ORDER[i]);
    }
  }

  /**
   Summing counters and then forming metrics gives exactly the aggregate of the case metrics:
   the report's metrics are accepted for every sequence of scored runs, well formed or not.
   */
  lemma ReportIsAccepted(runs: seq<CaseRun>, cases: seq<Progress>, kinds: map<Kind, Tally>)
    requires AllScored(runs, cases) && KindsTotal(kinds, cases)
    ensures ReportAccepted(CaseMetrics(cases), V.CohortMetrics(TotalCounts(cases), kinds))
  {
    ScoredIsCoherent(runs, cases);
    TotalMetricsAccepted(cases, kinds);
    MatchesTotal(cases, kinds);
    RatiosTotal(cases, kinds);
    CountsTotal(cases, kinds);
    KindsOfReportAggregate(cases, kinds, V.CohortMetrics(TotalCounts(cases), kinds));
  }
}
