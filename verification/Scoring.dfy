/** The one-pass scorer of a single case. */
module Scoring {
  import opened Options
  import opened EvaluationTypes
  import PolygonIoU

  /** One line of the case outcome: a golden field with the candidates for its key, or a value no field asked for. */
  datatype Item =
    | Asked(order: nat, expected: ExpectedField, candidates: seq<Candidate>)
    | Unasked(candidate: Candidate)

  function CandidatesFor(values: seq<Candidate>, key: Key): seq<Candidate> {
    if values == [] then []
    else
      var before := CandidatesFor(values[..|values| - 1], key);
      var last := values[|values| - 1];
      if last.key == key then before + [last] else before
  }

  function Overlap(e: ExpectedField, c: Candidate): Option<real> {
    match PolygonIoU.IoU(e.geometry.polygon, c.geometry.polygon)
    case Ratio(value) => Some(value)
    case EmptyUnion => None
  }

  // ----- what one golden field amounts to ----------------------------------------------

  predicate Eligible(e: ExpectedField) {
    !e.ignored && !e.handwriting
  }

  predicate PredictedMissing(candidates: seq<Candidate>) {
    || candidates == []
    || (|candidates| == 1 && (candidates[0].value.raw.None? || MissingRequired in candidates[0].reasons))
  }

  predicate Approved(e: ExpectedField, c: Candidate) {
    c.applied <= e.allowed
  }

  predicate SameNormalized(e: ExpectedField, c: Candidate) {
    && c.value.kind == e.value.kind && c.value.normalized == e.value.normalized && c.value.unit == e.value.unit
    && MissingRequired !in e.review + c.reasons
  }

  predicate NormalizedMatches(e: ExpectedField, c: Candidate) {
    SameNormalized(e, c) && Approved(e, c) && UnapprovedNormalization !in c.reasons
  }

  predicate ExactMatches(e: ExpectedField, c: Candidate) {
    NormalizedMatches(e, c) && c.value.raw == e.value.raw
  }

  predicate SamePage(e: ExpectedField, c: Candidate) {
    c.geometry.page == e.geometry.page
  }

  function ReasonIf(b: bool, r: Reason): set<Reason> {
    if b then {r} else {}
  }

  function FieldReasons(e: ExpectedField, candidates: seq<Candidate>): set<Reason> {
    if e.ignored then e.review
    else if e.handwriting then e.review + {HandwritingReferenceOnly}
    else if |candidates| > 1 then e.review + {DuplicateField}
    else if candidates == [] then e.review + {if e.required then MissingRequired else ValueMismatch}
    else
      var c := candidates[0];
      e.review + c.reasons
      + ReasonIf(!Approved(e, c), UnapprovedNormalization)
      + ReasonIf(!SameNormalized(e, c) && MissingRequired !in e.review + c.reasons, ValueMismatch)
      + ReasonIf(!SamePage(e, c), PageMismatch)
  }

  predicate Lone(e: ExpectedField, candidates: seq<Candidate>) {
    Eligible(e) && |candidates| == 1
  }

  function OrdersOf(candidates: seq<Candidate>): seq<nat> {
    seq(|candidates|, i requires 0 <= i < |candidates| => candidates[i].order)
  }

  function OutcomeOf(item: Item): FieldOutcome {
    match item
    case Asked(order, e, cs) =>
      var reasons, lone := FieldReasons(e, cs), Lone(e, cs);
      var exact := if lone then Some(ExactMatches(e, cs[0])) else None;
      var normalized := if lone then Some(NormalizedMatches(e, cs[0])) else None;
      FieldOutcome(e.key, e.value.kind, Some(order), Some(e.required), Some(e.value.raw.None?),
                   Some(PredictedMissing(cs)), OrdersOf(cs), exact, normalized,
                   if lone then Some(SamePage(e, cs[0])) else None,
                   if lone && SamePage(e, cs[0]) then Overlap(e, cs[0]) else None,
                   if e.ignored then ExcludedIgnored
                   else if reasons == {} && exact == Some(false) && normalized == Some(true) then NormalizedMatch
                   else OutcomeForReasons(reasons),
                   reasons, reasons != {}, reasons != {}, e.handwriting, e.ignored)
    case Unasked(c) =>
      FieldOutcome(c.key, c.value.kind, None, None, None, Some(c.value.raw.None?), [c.order],
                   None, None, None, None, UnmappedOutcome, c.reasons + {Unmapped}, true, true, c.handwriting, false)
  }

  /** The counters a field moves before its candidate is compared: eligibility and missing values. */
  function EligibilityStep(e: ExpectedField, candidates: seq<Candidate>): Tally {
    var demanded := Eligible(e) && e.required;
    var expectedMissing, predictedMissing := e.value.raw.None?, PredictedMissing(candidates);
    ZERO.(denominator := One(Eligible(e)),
          requiredMissing := One(demanded && predictedMissing),
          requiredDenominator := One(demanded),
          excludedReference := One(!e.ignored && e.handwriting),
          excludedIgnored := One(e.ignored),
          truePositive := One(demanded && expectedMissing && predictedMissing),
          falsePositive := One(demanded && !expectedMissing && predictedMissing),
          falseNegative := One(demanded && expectedMissing && !predictedMissing),
          trueNegative := One(demanded && !expectedMissing && !predictedMissing))
  }

  /** The counters a field moves when its candidates are compared. */
  function ComparisonStep(caseId: string, e: ExpectedField, cs: seq<Candidate>, step: Tally): Tally {
    if !Eligible(e) || cs == [] then step
    else if |cs| > 1 then
      step.(duplicates := step.duplicates + 1, exactErrors := step.exactErrors + 1,
            normalizedErrors := step.normalizedErrors + 1)
    else
      var c := cs[0];
      step.(normalizedErrors := step.normalizedErrors + One(!Approved(e, c)),
            exact := step.exact + One(ExactMatches(e, c)),
            normalized := step.normalized + One(NormalizedMatches(e, c)),
            pageDenominator := step.pageDenominator + 1,
            pageNumerator := step.pageNumerator + One(SamePage(e, c)),
            pageMismatches := step.pageMismatches + One(!SamePage(e, c)),
            evidence := step.evidence + [EvidenceOf(caseId, e, c)])
  }

  /** What one item adds to the counters, overall and for its kind. */
  function DeltaOf(caseId: string, item: Item): Tally {
    match item
    case Unasked(_) => ZERO.(unmapped := 1)
    case Asked(_, e, cs) =>
      var reasons := FieldReasons(e, cs);
      ComparisonStep(caseId, e, cs, EligibilityStep(e, cs))
        .(logicConflicts := One(LogicConflict in reasons), lowConfidence := One(LowConfidence in reasons))
  }

  function EvidenceOf(caseId: string, e: ExpectedField, c: Candidate): Evidence {
    Evidence(caseId, e.key, if SamePage(e, c) then Overlap(e, c) else None, !SamePage(e, c))
  }

  // ----- the scorer's step for one golden field ----------------------------------------

  method CountEligibility(expected: ExpectedField, candidates: seq<Candidate>) returns (step: Tally)
    ensures step == EligibilityStep(expected, candidates)
  {
    step := ZERO;
    if expected.ignored {
      step := step.(excludedIgnored := 1);
    } else if expected.handwriting {
      step := step.(excludedReference := 1);
    } else {
      step := step.(denominator := 1);
      if expected.required {
        step := step.(requiredDenominator := 1);
        var expectedMissing, predictedMissing := expected.value.raw.None?, PredictedMissing(candidates);
        if expectedMissing && predictedMissing {
          step := step.(truePositive := 1);
        } else if !expectedMissing && predictedMissing {
          step := step.(falsePositive := 1);
        } else if expectedMissing && !predictedMissing {
          step := step.(falseNegative := 1);
        } else {
          step := step.(trueNegative := 1);
        }
        if predictedMissing {
          step := step.(requiredMissing := 1);
        }
      }
    }
  }

  /** Compares a field with its only candidate. */
  method CompareLone(caseId: string, expected: ExpectedField, candidate: Candidate, step0: Tally)
    returns (reasons: set<Reason>, step: Tally, exactMatch: bool, normalizedMatch: bool, samePage: bool, iou: Option<real>)
    requires UnapprovedNormalization !in expected.review && Eligible(expected)
    ensures reasons == FieldReasons(expected, [candidate])
    ensures exactMatch == ExactMatches(expected, candidate) && normalizedMatch == NormalizedMatches(expected, candidate)
    ensures samePage == SamePage(expected, candidate)
    ensures iou == if samePage then Overlap(expected, candidate) else None
    ensures step == ComparisonStep(caseId, expected, [candidate], step0)
  {
    step := step0;
    reasons := expected.review + candidate.reasons;
    if !(candidate.applied <= expected.allowed) {
      reasons := reasons + {UnapprovedNormalization};
      step := step.(normalizedErrors := step.normalizedErrors + 1);
    }
    var sameKind := candidate.value.kind == expected.value.kind;
    var sameUnit := candidate.value.unit == expected.value.unit;
    var rawExact := sameKind && candidate.value.raw == expected.value.raw && sameUnit;
    var normalizedEqual := sameKind && candidate.value.normalized == expected.value.normalized && sameUnit
                           && MissingRequired !in reasons;
    normalizedMatch := normalizedEqual && UnapprovedNormalization !in reasons;
    exactMatch := rawExact && normalizedMatch;
    if exactMatch {
      step := step.(exact := step.exact + 1);
    }
    if normalizedMatch {
      step := step.(normalized := step.normalized + 1);
    }
    if !normalizedEqual && MissingRequired !in reasons {
      reasons := reasons + {ValueMismatch};
    }
    samePage := candidate.geometry.page == expected.geometry.page;
    step := step.(pageDenominator := step.pageDenominator + 1);
    if samePage {
      step := step.(pageNumerator := step.pageNumerator + 1);
    } else {
      reasons := reasons + {PageMismatch};
      step := step.(pageMismatches := step.pageMismatches + 1);
    }
    iou := if samePage then Overlap(expected, candidate) else None;
    step := step.(evidence := step.evidence + [Evidence(caseId, expected.key, iou, !samePage)]);
  }

  method CompareCandidates(caseId: string, expected: ExpectedField, candidates: seq<Candidate>, step0: Tally)
    returns (reasons: set<Reason>, step: Tally, exactMatch: Option<bool>, normalizedMatch: Option<bool>,
             pageMatch: Option<bool>, iou: Option<real>)
    requires ValidExpected(expected)
    ensures reasons == FieldReasons(expected, candidates)
    ensures step == ComparisonStep(caseId, expected, candidates, step0)
    ensures var lone := Lone(expected, candidates);
            && exactMatch == (if lone then Some(ExactMatches(expected, candidates[0])) else None)
            && normalizedMatch == (if lone then Some(NormalizedMatches(expected, candidates[0])) else None)
            && pageMatch == (if lone then Some(SamePage(expected, candidates[0])) else None)
            && iou == (if lone && SamePage(expected, candidates[0]) then Overlap(expected, candidates[0]) else None)
  {
    reasons, step := expected.review, step0;
    exactMatch, normalizedMatch, pageMatch, iou := None, None, None, None;
    if expected.ignored {
    } else if expected.handwriting {
      reasons := reasons + {HandwritingReferenceOnly};
    } else if |candidates| > 1 {
      reasons := reasons + {DuplicateField};
      step := step.(duplicates := step.duplicates + 1, exactErrors := step.exactErrors + 1,
                    normalizedErrors := step.normalizedErrors + 1);
    } else if candidates == [] {
      reasons := reasons + {if expected.required then MissingRequired else ValueMismatch};
    } else {
      var exact, normalized, samePage;
      assert candidates == [candidates[0]];
      reasons, step, exact, normalized, samePage, iou := CompareLone(caseId, expected, candidates[0], step);
      exactMatch, normalizedMatch, pageMatch := Some(exact), Some(normalized), Some(samePage);
    }
  }

  /** Scores one golden field: the outcome it emits and the counters it moves. */
  method ScoreField(caseId: string, order: nat, expected: ExpectedField, candidates: seq<Candidate>)
    returns (field: FieldOutcome, step: Tally)
    requires ValidExpected(expected)
    ensures field == OutcomeOf(Asked(order, expected, candidates))
    ensures step == DeltaOf(caseId, Asked(order, expected, candidates))
  {
    step := CountEligibility(expected, candidates);
    var reasons, exactMatch, normalizedMatch, pageMatch, iou;
    reasons, step, exactMatch, normalizedMatch, pageMatch, iou := CompareCandidates(caseId, expected, candidates, step);
    if LogicConflict in reasons {
      step := step.(logicConflicts := 1);
    }
    if LowConfidence in reasons {
      step := step.(lowConfidence := 1);
    }
    var outcome := if expected.ignored then ExcludedIgnored
                   else if reasons == {} && exactMatch == Some(false) && normalizedMatch == Some(true) then NormalizedMatch
                   else OutcomeForReasons(reasons);
    field := FieldOutcome(expected.key, expected.value.kind, Some(order), Some(expected.required),
                          Some(expected.value.raw.None?), Some(PredictedMissing(candidates)), OrdersOf(candidates),
                          exactMatch, normalizedMatch, pageMatch, iou, outcome,
                          reasons, reasons != {}, reasons != {}, expected.handwriting, expected.ignored);
  }

  // ----- a whole case ------------------------------------------------------------------

  datatype CaseRun = CaseRun(
    caseId: string, expected: seq<ExpectedField>, values: seq<Candidate>,
    runReasons: set<Reason>, bindingsMatch: bool, sameDocumentKind: bool)

  ghost predicate ValidRun(run: CaseRun) {
    && (forall e :: e in run.expected ==> ValidExpected(e))
    && (forall c :: c in run.values ==> ValidCandidate(c))
    && (forall c :: c in run.values ==> c.reasons <= run.runReasons)
  }

  predicate BindingFailed(run: CaseRun) {
    !run.bindingsMatch || BindingMismatch in run.runReasons
  }

  function ExpectedKeys(run: CaseRun): set<Key> {
    set e | e in run.expected :: e.key
  }

  function AskedItems(run: CaseRun): (items: seq<Item>)
    ensures |items| == |run.expected|
  {
    seq(|run.expected|, i requires 0 <= i < |run.expected| => AskedAt(run, i))
  }

  function AskedAt(run: CaseRun, i: nat): Item
    requires i < |run.expected|
  {
    var e := run.expected[i];
    Asked(i + 1, e, if BindingFailed(run) then [] else CandidatesFor(run.values, e.key))
  }

  function UnaskedItems(values: seq<Candidate>, keys: set<Key>): seq<Item> {
    if values == [] then []
    else
      var before := UnaskedItems(values[..|values| - 1], keys);
      var last := values[|values| - 1];
      if last.key in keys then before else before + [Unasked(last)]
  }

  function ItemsOf(run: CaseRun): seq<Item> {
    AskedItems(run) + UnaskedItems(run.values, ExpectedKeys(run))
  }

  function Outcomes(items: seq<Item>): (fields: seq<FieldOutcome>)
    ensures |fields| == |items|
  {
    if items == [] then [] else Outcomes(items[..|items| - 1]) + [OutcomeOf(items[|items| - 1])]
  }

  lemma {:induction false} OutcomeAt(items: seq<Item>, i: nat)
    requires i < |items|
    ensures Outcomes(items)[i] == OutcomeOf(items[i])
    decreases items
  {
    if i < |items| - 1 {
      OutcomeAt(items[..|items| - 1], i);
    }
  }

  function Sum(caseId: string, items: seq<Item>): Tally {
    if items == [] then ZERO
    else Sum(caseId, items[..|items| - 1]).Plus(DeltaOf(caseId, items[|items| - 1]))
  }

  function KindOf(item: Item): Kind {
    if item.Asked? then item.expected.value.kind else item.candidate.value.kind
  }

  function OfKind(items: seq<Item>, kind: Kind): seq<Item> {
    if items == [] then []
    else
      var before, last := OfKind(items[..|items| - 1], kind), items[|items| - 1];
      if KindOf(last) == kind then before + [last] else before
  }

  function ExpectedRows(expected: seq<ExpectedField>): set<Row> {
    set e | e in expected && Eligible(e) :: e.key.identity.row
  }

  function PredictedRows(run: CaseRun): set<Row> {
    if BindingFailed(run) then {} else set c | c in run.values && !c.handwriting :: c.key.identity.row
  }

  /** The counters that do not come from single fields: document kind and rows. */
  function BaseTally(run: CaseRun): Tally {
    var asked, predicted := ExpectedRows(run.expected), PredictedRows(run);
    ZERO.(documentNumerator := One(run.sameDocumentKind), documentDenominator := 1,
          rowTruePositive := |asked * predicted|, rowFalsePositive := |predicted - asked|,
          rowFalseNegative := |asked - predicted|)
  }

  function CaseReasons(run: CaseRun, items: seq<Item>): set<Reason> {
    run.runReasons
    + ReasonIf(!run.bindingsMatch, BindingMismatch)
    + ReasonIf(!run.sameDocumentKind, DocumentClassificationMismatch)
    + ItemReasons(items)
  }

  function ItemReasons(items: seq<Item>): set<Reason> {
    if items == [] then {} else ItemReasons(items[..|items| - 1]) + OutcomeOf(items[|items| - 1]).reasons
  }

  /** The counters of a kind; a kind nobody touched has none. */
  function KindTally(kinds: map<Kind, Tally>, kind: Kind): Tally {
    if kind in kinds then kinds[kind] else ZERO
  }

  ghost predicate KindsSum(kinds: map<Kind, Tally>, caseId: string, items: seq<Item>) {
    forall kind :: KindTally(kinds, kind) == Sum(caseId, OfKind(items, kind))
  }

  function PredictionsFor(predictions: map<Key, seq<Candidate>>, key: Key): seq<Candidate> {
    if key in predictions then predictions[key] else []
  }

  /** Groups the run's values by key, in source order; nothing when the bindings failed. */
  method GroupPredictions(run: CaseRun) returns (predictions: map<Key, seq<Candidate>>)
    ensures forall key :: PredictionsFor(predictions, key)
                       == if BindingFailed(run) then [] else CandidatesFor(run.values, key)
  {
    predictions := map[];
    if !BindingFailed(run) {
      for i := 0 to |run.values|
        invariant forall key :: PredictionsFor(predictions, key) == CandidatesFor(run.values[..i], key)
      {
        var c := run.values[i];
        assert run.values[..i + 1][..i] == run.values[..i];
        predictions := predictions[c.key := PredictionsFor(predictions, c.key) + [c]];
      }
      assert run.values[..|run.values|] == run.values;
    }
  }

  lemma KindsSumStep(kinds: map<Kind, Tally>, caseId: string, items: seq<Item>, item: Item)
    requires KindsSum(kinds, caseId, items)
    ensures KindsSum(kinds[KindOf(item) := KindTally(kinds, KindOf(item)).Plus(DeltaOf(caseId, item))], caseId, items + [item])
  {
    hide DeltaOf, KindOf;
    var more := kinds[KindOf(item) := KindTally(kinds, KindOf(item)).Plus(DeltaOf(caseId, item))];
    assert (items + [item])[..|items|] == items;
    forall kind
      ensures KindTally(more, kind) == Sum(caseId, OfKind(items + [item], kind))
    {
      var before := OfKind(items, kind);
      if kind == KindOf(item) {
        assert (before + [item])[..|before|] == before;
      }
    }
  }

  /** Everything a pass accumulates. */
  datatype Progress = Progress(fields: seq<FieldOutcome>, counts: Tally, kinds: map<Kind, Tally>, reasons: set<Reason>)

  function Advance(p: Progress, kind: Kind, field: FieldOutcome, step: Tally): Progress {
    Progress(p.fields + [field], p.counts.Plus(step), p.kinds[kind := KindTally(p.kinds, kind).Plus(step)],
             p.reasons + field.reasons)
  }

  function Fold(run: CaseRun, items: seq<Item>): Progress {
    if items == [] then Progress([], BaseTally(run), map[], CaseReasons(run, []))
    else
      var last := items[|items| - 1];
      Advance(Fold(run, items[..|items| - 1]), KindOf(last), OutcomeOf(last), DeltaOf(run.caseId, last))
  }

  lemma FoldStep(run: CaseRun, items: seq<Item>, item: Item)
    ensures Fold(run, items + [item])
         == Advance(Fold(run, items), KindOf(item), OutcomeOf(item), DeltaOf(run.caseId, item))
  {
    hide OutcomeOf, DeltaOf, Advance;
    assert (items + [item])[..|items|] == items;
  }

  lemma {:induction false} FoldCounts(run: CaseRun, items: seq<Item>)
    ensures Fold(run, items).counts == BaseTally(run).Plus(Sum(run.caseId, items))
    decreases items
  {
    if items == [] {
      PlusZero(BaseTally(run));
    } else {
      var before, item := items[..|items| - 1], items[|items| - 1];
      FoldCounts(run, before);
      PlusAssociates(BaseTally(run), Sum(run.caseId, before), DeltaOf(run.caseId, item));
    }
  }

  lemma {:induction false} FoldKinds(run: CaseRun, items: seq<Item>)
    ensures KindsSum(Fold(run, items).kinds, run.caseId, items)
    decreases items
  {
    hide KindsSum, OutcomeOf, DeltaOf, KindOf, BaseTally, CaseReasons;
    if items == [] {
      NoKindsSum(run.caseId);
    } else {
      var before, item := items[..|items| - 1], items[|items| - 1];
      assert items == before + [item];
      FoldKinds(run, before);
      KindsSumStep(Fold(run, before).kinds, run.caseId, before, item);
    }
  }

  lemma NoKindsSum(caseId: string)
    ensures KindsSum(map[], caseId, [])
  {
  }

  lemma {:induction false} FoldFields(run: CaseRun, items: seq<Item>)
    ensures Fold(run, items).fields == Outcomes(items) && Fold(run, items).reasons == CaseReasons(run, items)
    decreases items
  {
    hide OutcomeOf, DeltaOf, KindTally, BaseTally;
    if items != [] {
      var before, item := items[..|items| - 1], items[|items| - 1];
      FoldFields(run, before);
    }
  }

  /** A pass accumulates the outcomes, the sums over all items and over each kind, and all reasons. */
  lemma FoldSums(run: CaseRun, items: seq<Item>)
    ensures var p := Fold(run, items);
            && p.fields == Outcomes(items)
            && p.counts == BaseTally(run).Plus(Sum(run.caseId, items))
            && KindsSum(p.kinds, run.caseId, items)
            && p.reasons == CaseReasons(run, items)
  {
    FoldCounts(run, items);
    FoldKinds(run, items);
    FoldFields(run, items);
  }

  /** The pass over the golden fields. */
  method ScoreAsked(run: CaseRun, reasons: set<Reason>) returns (p: Progress)
    requires ValidRun(run) && reasons == CaseReasons(run, [])
    ensures p == Fold(run, AskedItems(run))
  {
    hide OutcomeOf, DeltaOf, BaseTally, CaseReasons;
    p := Progress([], BaseTally(run), map[], reasons);
    var predictions := GroupPredictions(run);
    for i := 0 to |run.expected|
      invariant p == Fold(run, AskedItems(run)[..i])
    {
      var expected := run.expected[i];
      var field, step := ScoreField(run.caseId, i + 1, expected, PredictionsFor(predictions, expected.key));
      FoldStep(run, AskedItems(run)[..i], AskedAt(run, i));
      assert AskedItems(run)[..i + 1] == AskedItems(run)[..i] + [AskedAt(run, i)];
      p := Advance(p, expected.value.kind, field, step);
    }
    assert AskedItems(run)[..|run.expected|] == AskedItems(run);
  }

  method ScoreLeftover(caseId: string, c: Candidate) returns (field: FieldOutcome, step: Tally)
    ensures field == OutcomeOf(Unasked(c)) && step == DeltaOf(caseId, Unasked(c))
  {
    step := ZERO.(unmapped := 1);
    field := FieldOutcome(c.key, c.value.kind, None, None, None, Some(c.value.raw.None?), [c.order],
                          None, None, None, None, UnmappedOutcome,
                          c.reasons + {Unmapped}, true, true, c.handwriting, false);
  }

  /** The items scored after the first `i` values have been looked at. */
  ghost function ItemsUpTo(run: CaseRun, i: nat): seq<Item>
    requires i <= |run.values|
  {
    AskedItems(run) + UnaskedItems(run.values[..i], ExpectedKeys(run))
  }

  lemma FoldSkipsOrTakes(run: CaseRun, i: nat)
    requires i < |run.values|
    ensures var c, p := run.values[i], Fold(run, ItemsUpTo(run, i));
            Fold(run, ItemsUpTo(run, i + 1))
            == if c.key in ExpectedKeys(run) then p
               else Advance(p, c.value.kind, OutcomeOf(Unasked(c)), DeltaOf(run.caseId, Unasked(c)))
  {
    var c, items := run.values[i], ItemsUpTo(run, i);
    assert run.values[..i + 1][..i] == run.values[..i];
    if c.key in ExpectedKeys(run) {
      assert ItemsUpTo(run, i + 1) == items;
    } else {
      assert ItemsUpTo(run, i + 1) == items + [Unasked(c)];
      FoldStep(run, items, Unasked(c));
    }
  }

  /** The pass over the values no golden field asked for. */
  method ScoreUnasked(run: CaseRun, p0: Progress) returns (p: Progress)
    requires p0 == Fold(run, ItemsUpTo(run, 0))
    ensures p == Fold(run, ItemsUpTo(run, |run.values|))
  {
    p := p0;
    var keys := ExpectedKeys(run);
    for i := 0 to |run.values|
      invariant p == Fold(run, ItemsUpTo(run, i))
    {
      var c := run.values[i];
      FoldSkipsOrTakes(run, i);
      if c.key !in keys {
        var field, step := ScoreLeftover(run.caseId, c);
        p := Advance(p, c.value.kind, field, step);
      }
    }
  }

  /** The scorer: one pass over the golden fields, one over the values nobody asked for. */
  method ScoreCase(run: CaseRun) returns (p: Progress)
    requires ValidRun(run)
    ensures p == Fold(run, ItemsOf(run))
  {
    var reasons := run.runReasons;
    if !run.bindingsMatch {
      reasons := reasons + {BindingMismatch};
    }
    if !run.sameDocumentKind {
      reasons := reasons + {DocumentClassificationMismatch};
    }
    hide OutcomeOf, DeltaOf;
    p := ScoreAsked(run, reasons);
    assert ItemsUpTo(run, 0) == AskedItems(run);
    p := ScoreUnasked(run, p);
    assert run.values[..|run.values|] == run.values;
  }
}
