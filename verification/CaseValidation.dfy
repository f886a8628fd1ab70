/** What the artifact models demand of field outcomes, metrics and case outcomes. */
module CaseValidation {
  import opened Options
  import opened EvaluationTypes

  // ----- metrics -----------------------------------------------------------------------

  datatype Metric = Metric(numerator: nat, denominator: nat, excludedReference: nat, excludedIgnored: nat, errors: nat)

  datatype Detection = Detection(truePositive: nat, falsePositive: nat, falseNegative: nat, trueNegative: nat,
                                 precision: Metric, recall: Metric)

  datatype KindMetric = KindMetric(kind: Kind, exact: Metric, normalized: Metric)

  datatype Metrics = Metrics(
    documentClassification: Metric, exact: Metric, normalized: Metric, missingRequired: Metric, missing: Detection,
    rowPrecision: Metric, rowRecall: Metric, page: Metric, evidence: seq<Evidence>, byKind: seq<KindMetric>,
    excludedReference: nat, excludedIgnored: nat, duplicates: nat, unmapped: nat,
    logicConflicts: nat, lowConfidence: nat, pageMismatches: nat)

  function Ratio(numerator: nat, denominator: nat): Metric {
    Metric(numerator, denominator, 0, 0, 0)
  }

  function ExactMetric(t: Tally): Metric {
    Metric(t.exact, t.denominator, t.excludedReference, t.excludedIgnored, t.exactErrors)
  }

  function NormalizedMetric(t: Tally): Metric {
    Metric(t.normalized, t.denominator, t.excludedReference, t.excludedIgnored, t.normalizedErrors)
  }

  function KindMetricOf(kinds: map<Kind, Tally>, kind: Kind): KindMetric {
    var own := if kind in kinds then kinds[kind] else ZERO;
    KindMetric(kind, ExactMetric(own), NormalizedMetric(own))
  }

  /** One entry a kind, in the fixed order of kinds. */
  function KindMetrics(kinds: map<Kind, Tally>): (r: seq<KindMetric>)
    ensures |r| == |KIND_ORDER| && forall i :: 0 <= i < |r| ==> r[i] == KindMetricOf(kinds, KIND_ORDER[i])
  {
    seq(|KIND_ORDER|, i requires 0 <= i < |KIND_ORDER| => KindMetricOf(kinds, KIND_ORDER[i]))
  }

  /** The metrics a set of counters amounts to. */
  function CohortMetrics(t: Tally, kinds: map<Kind, Tally>): Metrics {
    Metrics(
      Ratio(t.documentNumerator, t.documentDenominator), ExactMetric(t), NormalizedMetric(t),
      Metric(t.requiredMissing, t.requiredDenominator, t.excludedReference, t.excludedIgnored, 0),
      Detection(t.truePositive, t.falsePositive, t.falseNegative, t.trueNegative,
                Ratio(t.truePositive, t.truePositive + t.falsePositive),
                Ratio(t.truePositive, t.truePositive + t.falseNegative)),
      Ratio(t.rowTruePositive, t.rowTruePositive + t.rowFalsePositive),
      Ratio(t.rowTruePositive, t.rowTruePositive + t.rowFalseNegative),
      Metric(t.pageNumerator, t.pageDenominator, t.excludedReference, t.excludedIgnored, t.duplicates),
      t.evidence,
      KindMetrics(kinds),
      t.excludedReference, t.excludedIgnored, t.duplicates, t.unmapped,
      t.logicConflicts, t.lowConfidence, t.pageMismatches)
  }

  predicate MetricAccepted(m: Metric) {
    m.numerator <= m.denominator
  }

  predicate EvidenceAccepted(e: Evidence) {
    && e.iou.None? == e.pageMismatch
    && (e.iou.Some? ==> 0.0 <= e.iou.value <= 1.0)
  }

  function MismatchCount(evidence: seq<Evidence>): nat {
    if evidence == [] then 0
    else MismatchCount(evidence[..|evidence| - 1]) + One(evidence[|evidence| - 1].pageMismatch)
  }

  predicate MetricsAccepted(m: Metrics) {
    && MetricAccepted(m.documentClassification) && MetricAccepted(m.exact) && MetricAccepted(m.normalized)
    && MetricAccepted(m.missingRequired) && MetricAccepted(m.missing.precision) && MetricAccepted(m.missing.recall)
    && MetricAccepted(m.rowPrecision) && MetricAccepted(m.rowRecall) && MetricAccepted(m.page)
    && (forall i :: 0 <= i < |m.byKind| ==> MetricAccepted(m.byKind[i].exact) && MetricAccepted(m.byKind[i].normalized))
    && m.missing.precision.numerator == m.missing.truePositive
    && m.missing.precision.denominator == m.missing.truePositive + m.missing.falsePositive
    && m.missing.recall.numerator == m.missing.truePositive
    && m.missing.recall.denominator == m.missing.truePositive + m.missing.falseNegative
    && (forall i :: 0 <= i < |m.evidence| ==> EvidenceAccepted(m.evidence[i]))
    && m.pageMismatches == MismatchCount(m.evidence)
    && m.page.denominator == |m.evidence|
    && m.page.numerator == |m.evidence| - MismatchCount(m.evidence)
  }

  // ----- field outcomes ----------------------------------------------------------------

  predicate NoEvidence(f: FieldOutcome) {
    f.exact.None? && f.normalized.None? && f.page.None? && f.iou.None?
  }

  predicate FieldAccepted(f: FieldOutcome) {
    && f.reviewRequired == (f.reasons != {}) && f.escalationRequired == (f.reasons != {})
    && f.outcome == (if f.expectedOrder.None? then UnmappedOutcome
                     else if f.excludedIgnored then ExcludedIgnored
                     else if f.reasons == {} && f.exact == Some(false) && f.normalized == Some(true) then NormalizedMatch
                     else OutcomeForReasons(f.reasons))
    && f.excludedReference == (HandwritingReferenceOnly in f.reasons)
    && !(f.excludedReference && f.excludedIgnored)
    && (if f.expectedOrder.None?
        then f.expectedRequired.None? && f.expectedMissing.None? && !f.excludedIgnored
             && f.candidateOrders != [] && Unmapped in f.reasons && NoEvidence(f)
        else f.expectedRequired.Some? && f.expectedMissing.Some?)
    && (if f.candidateOrders == [] then f.candidateMissing == Some(true) else f.candidateMissing.Some?)
    && (f.exact == Some(true) ==> f.normalized == Some(true))
    && (ValueMismatch in f.reasons ==> f.normalized == Some(false))
    && (if PageMismatch in f.reasons then f.page == Some(false) && f.iou.None? else f.page != Some(false))
    && (f.page == Some(true) ==> f.iou.Some?)
    && (if f.excludedReference || f.excludedIgnored || |f.candidateOrders| != 1 then NoEvidence(f)
        else f.expectedOrder.Some? ==> f.exact.Some? && f.normalized.Some? && f.page.Some?)
    && (f.outcome == Match ==>
          && f.expectedOrder.Some? && f.candidateOrders != []
          && f.exact == Some(true) && f.normalized == Some(true) && f.page == Some(true) && f.iou.Some?)
  }

  // ----- metrics re-derived from field outcomes ----------------------------------------

  function Count(fields: seq<FieldOutcome>, p: FieldOutcome -> bool): nat {
    if fields == [] then 0 else Count(fields[..|fields| - 1], p) + One(p(fields[|fields| - 1]))
  }

  function OfKind(fields: seq<FieldOutcome>, kind: Kind): seq<FieldOutcome> {
    if fields == [] then []
    else
      var before, last := OfKind(fields[..|fields| - 1], kind), fields[|fields| - 1];
      if last.kind == kind then before + [last] else before
  }

  predicate IsExpected(f: FieldOutcome) { f.expectedOrder.Some? }

  predicate IsEligible(f: FieldOutcome) { IsExpected(f) && !f.excludedReference && !f.excludedIgnored }

  predicate IsReference(f: FieldOutcome) { IsExpected(f) && f.excludedReference }

  predicate IsIgnored(f: FieldOutcome) { IsExpected(f) && f.excludedIgnored }

  predicate IsLeftover(f: FieldOutcome) { f.expectedOrder.None? }

  predicate IsExact(f: FieldOutcome) { IsEligible(f) && f.exact == Some(true) }

  predicate IsNormalized(f: FieldOutcome) { IsEligible(f) && f.normalized == Some(true) }

  predicate IsDuplicate(f: FieldOutcome) { DuplicateField in f.reasons }

  predicate IsUnapproved(f: FieldOutcome) { UnapprovedNormalization in f.reasons }

  predicate IsConflict(f: FieldOutcome) { LogicConflict in f.reasons }

  predicate IsUnsure(f: FieldOutcome) { LowConfidence in f.reasons }

  predicate IsPaged(f: FieldOutcome) { IsEligible(f) && f.page.Some? }

  predicate IsSamePage(f: FieldOutcome) { IsPaged(f) && f.page == Some(true) }

  predicate IsOtherPage(f: FieldOutcome) { IsPaged(f) && f.page == Some(false) }

  predicate IsRequired(f: FieldOutcome) { IsEligible(f) && f.expectedRequired == Some(true) }

  predicate IsMissing(f: FieldOutcome) { IsRequired(f) && MissingRequired in f.reasons }

  predicate IsTruePositive(f: FieldOutcome) {
    IsRequired(f) && f.expectedMissing == Some(true) && f.candidateMissing == Some(true)
  }

  predicate IsFalsePositive(f: FieldOutcome) {
    IsRequired(f) && f.expectedMissing == Some(false) && f.candidateMissing == Some(true)
  }

  predicate IsFalseNegative(f: FieldOutcome) {
    IsRequired(f) && f.expectedMissing == Some(true) && f.candidateMissing == Some(false)
  }

  predicate IsTrueNegative(f: FieldOutcome) {
    IsRequired(f) && f.expectedMissing == Some(false) && f.candidateMissing == Some(false)
  }

  predicate IsAnswered(f: FieldOutcome) { f.candidateOrders != [] && !f.excludedReference }

  function PageEvidence(caseId: string, fields: seq<FieldOutcome>): seq<Evidence> {
    if fields == [] then []
    else
      var last := fields[|fields| - 1];
      PageEvidence(caseId, fields[..|fields| - 1])
      + if IsPaged(last) then [Evidence(caseId, last.key, last.iou, last.page == Some(false))] else []
  }

  function RowsWhere(fields: seq<FieldOutcome>, p: FieldOutcome -> bool): set<Row> {
    set f | f in fields && p(f) :: f.key.identity.row
  }

  function DerivedExact(fields: seq<FieldOutcome>): Metric {
    Metric(Count(fields, IsExact), Count(fields, IsEligible), Count(fields, IsReference), Count(fields, IsIgnored),
           Count(fields, IsDuplicate))
  }

  function DerivedNormalized(fields: seq<FieldOutcome>): Metric {
    Metric(Count(fields, IsNormalized), Count(fields, IsEligible), Count(fields, IsReference), Count(fields, IsIgnored),
           Count(fields, IsDuplicate) + Count(fields, IsUnapproved))
  }

  /** The row metrics as the field outcomes show them. */
  predicate RowsBind(fields: seq<FieldOutcome>, m: Metrics) {
    var asked, answered := RowsWhere(fields, IsEligible), RowsWhere(fields, IsAnswered);
    m.rowPrecision == Ratio(|asked * answered|, |answered|) && m.rowRecall == Ratio(|asked * answered|, |asked|)
  }

  /** The counting metrics as the field outcomes show them. */
  predicate CountsBind(caseId: string, fields: seq<FieldOutcome>, m: Metrics) {
    var reference, ignored, duplicates := Count(fields, IsReference), Count(fields, IsIgnored), Count(fields, IsDuplicate);
    && m.exact == DerivedExact(fields)
    && m.normalized == DerivedNormalized(fields)
    && m.page == Metric(Count(fields, IsSamePage), Count(fields, IsPaged), reference, ignored, duplicates)
    && m.evidence == PageEvidence(caseId, fields)
    && m.excludedReference == reference && m.excludedIgnored == ignored && m.duplicates == duplicates
    && m.unmapped == Count(fields, IsLeftover)
    && m.logicConflicts == Count(fields, IsConflict)
    && m.lowConfidence == Count(fields, IsUnsure)
    && m.pageMismatches == Count(fields, IsOtherPage)
    && m.missingRequired == Metric(Count(fields, IsMissing), Count(fields, IsRequired), reference, ignored, 0)
    && m.missing.truePositive == Count(fields, IsTruePositive)
    && m.missing.falsePositive == Count(fields, IsFalsePositive)
    && m.missing.falseNegative == Count(fields, IsFalseNegative)
    && m.missing.trueNegative == Count(fields, IsTrueNegative)
  }

  predicate KindsBind(fields: seq<FieldOutcome>, m: Metrics) {
    && (forall i, j :: 0 <= i < j < |m.byKind| ==> m.byKind[i].kind != m.byKind[j].kind)
    && forall i :: 0 <= i < |m.byKind| ==>
         var own := OfKind(fields, m.byKind[i].kind);
         m.byKind[i].exact == DerivedExact(own) && m.byKind[i].normalized == DerivedNormalized(own)
  }

  /** Everything the case outcome model checks. */
  predicate CaseAccepted(caseId: string, fields: seq<FieldOutcome>, m: Metrics, reasons: set<Reason>, review: bool) {
    && (forall i :: 0 <= i < |fields| ==> FieldAccepted(fields[i]) && fields[i].reasons <= reasons)
    && review == (reasons != {} || exists i :: 0 <= i < |fields| && fields[i].reviewRequired)
    && MetricsAccepted(m)
    && CountsBind(caseId, fields, m)
    && RowsBind(fields, m)
    && KindsBind(fields, m)
  }
}
