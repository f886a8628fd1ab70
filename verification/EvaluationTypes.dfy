/** Golden fields, candidate values and the field outcomes the scorer emits. */
module EvaluationTypes {
  import opened Options
  import opened Geometry
  import PolygonSchema

  datatype Reason =
    | BindingMismatch | DocumentClassificationMismatch | DuplicateField | HandwritingReferenceOnly
    | LogicConflict | LowConfidence | PageMismatch | MissingArtifact | MissingRequired
    | UnapprovedNormalization | Unmapped | UpstreamFailure | ValueMismatch

  datatype OutcomeName =
    | DuplicateOutcome | ExcludedIgnored | HandwritingOutcome | LogicConflictOutcome | LowConfidenceOutcome
    | Match | Mismatch | MissingOutcome | NormalizedMatch | UnmappedOutcome

  datatype Kind = Header | Date | Lot | UnitKind | Text | Decimal

  const KIND_ORDER: seq<Kind> := [Header, Date, Lot, UnitKind, Text, Decimal]

  datatype Row = Row(document: string, section: string, row: string)

  datatype Identity = Identity(row: Row, sample: Option<string>)

  datatype Key = Key(identity: Identity, fieldKey: string)

  datatype Value = Value(kind: Kind, raw: Option<string>, normalized: Option<string>, unit: Option<string>)

  datatype PageGeometry = PageGeometry(page: nat, polygon: seq<Point>)

  type Binding = (string, string)

  datatype ExpectedField = ExpectedField(
    key: Key, required: bool, ignored: bool, value: Value, geometry: PageGeometry,
    review: set<Reason>, handwriting: bool, allowed: set<Binding>)

  datatype Candidate = Candidate(
    order: nat, key: Key, value: Value, geometry: PageGeometry,
    applied: set<Binding>, reasons: set<Reason>, handwriting: bool)

  /** The polygon passed the schema's own checks. */
  ghost predicate ValidGeometry(g: PageGeometry) {
    PolygonSchema.PassesSchema(g.polygon)
  }

  /** What the schema guarantees of a golden field. */
  ghost predicate ValidExpected(e: ExpectedField) {
    && ValidGeometry(e.geometry)
    && e.review <= {HandwritingReferenceOnly, LogicConflict, LowConfidence, MissingRequired, Unmapped}
    && (HandwritingReferenceOnly in e.review <==> e.handwriting)
    && (e.required ==> !e.ignored)
    && (e.value.raw.None? <==> e.value.normalized.None?)
    && (e.required && e.value.raw.None? ==> MissingRequired in e.review)
  }

  /** What the artifact model guarantees of a candidate value. */
  ghost predicate ValidCandidate(c: Candidate) {
    && ValidGeometry(c.geometry)
    && (HandwritingReferenceOnly in c.reasons <==> c.handwriting)
    && (MissingRequired in c.reasons <==> c.value.raw.None?)
    && (c.value.raw.None? <==> c.value.normalized.None?)
  }

  datatype FieldOutcome = FieldOutcome(
    key: Key, kind: Kind,
    expectedOrder: Option<nat>, expectedRequired: Option<bool>, expectedMissing: Option<bool>,
    candidateMissing: Option<bool>, candidateOrders: seq<nat>,
    exact: Option<bool>, normalized: Option<bool>, page: Option<bool>, iou: Option<real>,
    outcome: OutcomeName, reasons: set<Reason>, reviewRequired: bool, escalationRequired: bool,
    excludedReference: bool, excludedIgnored: bool)

  /** The overlap evidence of one matched field: a score, or the page mismatch that prevented one. */
  datatype Evidence = Evidence(caseId: string, key: Key, iou: Option<real>, pageMismatch: bool)

  function OutcomeForReasons(reasons: set<Reason>): OutcomeName {
    if HandwritingReferenceOnly in reasons then HandwritingOutcome
    else if DuplicateField in reasons then DuplicateOutcome
    else if MissingRequired in reasons then MissingOutcome
    else if Unmapped in reasons then UnmappedOutcome
    else if LogicConflict in reasons then LogicConflictOutcome
    else if LowConfidence in reasons then LowConfidenceOutcome
    else if reasons != {} then Mismatch
    else Match
  }

  function One(b: bool): nat {
    if b then 1 else 0
  }

  /** The scorer's counters. */
  datatype Tally = Tally(
    documentNumerator: nat, documentDenominator: nat,
    exact: nat, normalized: nat, denominator: nat,
    requiredMissing: nat, requiredDenominator: nat,
    excludedReference: nat, excludedIgnored: nat,
    duplicates: nat, unmapped: nat, logicConflicts: nat, lowConfidence: nat,
    exactErrors: nat, normalizedErrors: nat,
    truePositive: nat, falsePositive: nat, falseNegative: nat, trueNegative: nat,
    rowTruePositive: nat, rowFalsePositive: nat, rowFalseNegative: nat,
    pageNumerator: nat, pageDenominator: nat, pageMismatches: nat,
    evidence: seq<Evidence>)
  {
    function Plus(other: Tally): Tally {
      Tally(
        documentNumerator + other.documentNumerator, documentDenominator + other.documentDenominator,
        exact + other.exact, normalized + other.normalized, denominator + other.denominator,
        requiredMissing + other.requiredMissing, requiredDenominator + other.requiredDenominator,
        excludedReference + other.excludedReference, excludedIgnored + other.excludedIgnored,
        duplicates + other.duplicates, unmapped + other.unmapped,
        logicConflicts + other.logicConflicts, lowConfidence + other.lowConfidence,
        exactErrors + other.exactErrors, normalizedErrors + other.normalizedErrors,
        truePositive + other.truePositive, falsePositive + other.falsePositive,
        falseNegative + other.falseNegative, trueNegative + other.trueNegative,
        rowTruePositive + other.rowTruePositive, rowFalsePositive + other.rowFalsePositive,
        rowFalseNegative + other.rowFalseNegative,
        pageNumerator + other.pageNumerator, pageDenominator + other.pageDenominator,
        pageMismatches + other.pageMismatches,
        evidence + other.evidence)
    }
  }

  const ZERO := Tally(0, 0, 0, 0, 0, 0, 0, 0, 0, 0, 0, 0, 0, 0, 0, 0, 0, 0, 0, 0, 0, 0, 0, 0, 0, [])

  lemma PlusAssociates(a: Tally, b: Tally, c: Tally)
    ensures a.Plus(b).Plus(c) == a.Plus(b.Plus(c))
  {
  }

  lemma PlusZero(a: Tally)
    ensures a.Plus(ZERO) == a && ZERO.Plus(a) == a
  {
  }
}
