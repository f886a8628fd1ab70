/** When the one-pass counters agree with the metrics re-derived from the emitted fields. */
module CaseAcceptance {
  import opened Options
  import opened EvaluationTypes
  import opened Scoring
  import V = CaseValidation
  import SimplePolygons

  // ----- the condition -----------------------------------------------------------------

  predicate LoneOk(e: ExpectedField, c: Candidate) {
    && !c.handwriting
    && DuplicateField !in c.reasons
    && (UnapprovedNormalization in c.reasons ==> !Approved(e, c))
    && (ValueMismatch in c.reasons ==> !NormalizedMatches(e, c))
    && (PageMismatch in c.reasons ==> !SamePage(e, c))
  }

  predicate EligibleOk(e: ExpectedField, cs: seq<Candidate>) {
    && (cs == [] ==> e.required)
    && (|cs| == 1 ==> LoneOk(e, cs[0]))
    && (e.required && MissingRequired in e.review ==> PredictedMissing(cs))
  }

  const OWN_REASONS: set<Reason> := {ValueMismatch, PageMismatch, DuplicateField, UnapprovedNormalization, LogicConflict, LowConfidence}

  /** A caller can check this of each golden field and each leftover value before scoring. */
  predicate ItemOk(item: Item) {
    match item
    case Unasked(c) => c.reasons !! OWN_REASONS
    case Asked(_, e, cs) => !(e.ignored && e.handwriting) && (Eligible(e) ==> EligibleOk(e, cs))
  }

  ghost predicate ValidItem(item: Item) {
    match item
    case Unasked(c) => ValidCandidate(c)
    case Asked(_, e, cs) => ValidExpected(e) && forall c :: c in cs ==> ValidCandidate(c)
  }

  // ----- one item ----------------------------------------------------------------------

  /** What one emitted field contributes to the re-derived metrics. */
  function Derived(caseId: string, f: FieldOutcome): Tally {
    ZERO.(exact := One(V.IsExact(f)), normalized := One(V.IsNormalized(f)), denominator := One(V.IsEligible(f)),
          requiredMissing := One(V.IsMissing(f)), requiredDenominator := One(V.IsRequired(f)),
          excludedReference := One(V.IsReference(f)), excludedIgnored := One(V.IsIgnored(f)),
          duplicates := One(V.IsDuplicate(f)), unmapped := One(V.IsLeftover(f)),
          logicConflicts := One(V.IsConflict(f)), lowConfidence := One(V.IsUnsure(f)),
          exactErrors := One(V.IsDuplicate(f)),
          normalizedErrors := One(V.IsDuplicate(f)) + One(V.IsUnapproved(f)),
          truePositive := One(V.IsTruePositive(f)), falsePositive := One(V.IsFalsePositive(f)),
          falseNegative := One(V.IsFalseNegative(f)), trueNegative := One(V.IsTrueNegative(f)),
          pageNumerator := One(V.IsSamePage(f)), pageDenominator := One(V.IsPaged(f)),
          pageMismatches := One(V.IsOtherPage(f)),
          evidence := if V.IsPaged(f) then [Evidence(caseId, f.key, f.iou, f.page == Some(false))] else [])
  }

  /** `d` re-derives at least what `t` counted, and differs at most in counts of declared reasons. */
  predicate Covers(d: Tally, t: Tally) {
    && t.requiredMissing <= d.requiredMissing && t.duplicates <= d.duplicates
    && t.logicConflicts <= d.logicConflicts && t.lowConfidence <= d.lowConfidence
    && t.exactErrors <= d.exactErrors && t.normalizedErrors <= d.normalizedErrors
    && d == t.(requiredMissing := d.requiredMissing, duplicates := d.duplicates, logicConflicts := d.logicConflicts,
               lowConfidence := d.lowConfidence, exactErrors := d.exactErrors, normalizedErrors := d.normalizedErrors)
  }

  lemma OverlapExists(e: ExpectedField, c: Candidate)
    requires ValidGeometry(e.geometry) && ValidGeometry(c.geometry)
    ensures Overlap(e, c).Some? && 0.0 <= Overlap(e, c).value <= 1.0
  {
    SimplePolygons.SchemaPolygonsScore(e.geometry.polygon, c.geometry.polygon);
  }

  lemma UnaskedAccepted(caseId: string, c: Candidate)
    requires ValidCandidate(c)
    ensures var f := OutcomeOf(Unasked(c));
            && Covers(Derived(caseId, f), DeltaOf(caseId, Unasked(c)))
            && (ItemOk(Unasked(c)) <==> V.FieldAccepted(f) && Derived(caseId, f) == DeltaOf(caseId, Unasked(c)))
  {
  }

  lemma ExcludedAccepted(caseId: string, order: nat, e: ExpectedField, cs: seq<Candidate>)
    requires ValidExpected(e) && !Eligible(e)
    ensures var item := Asked(order, e, cs);
            var f := OutcomeOf(item);
            && (ItemOk(item) <==> V.FieldAccepted(f))
            && (V.FieldAccepted(f) ==> Derived(caseId, f) == DeltaOf(caseId, item))
  {
  }

  lemma UnmatchedAccepted(caseId: string, order: nat, e: ExpectedField, cs: seq<Candidate>)
    requires ValidExpected(e) && Eligible(e) && |cs| != 1
    ensures var item := Asked(order, e, cs);
            var f := OutcomeOf(item);
            && Covers(Derived(caseId, f), DeltaOf(caseId, item))
            && (ItemOk(item) <==> V.FieldAccepted(f) && Derived(caseId, f) == DeltaOf(caseId, item))
  {
  }

  lemma LoneField(order: nat, e: ExpectedField, c: Candidate)
    requires ValidExpected(e) && ValidCandidate(c) && Eligible(e)
    ensures V.FieldAccepted(OutcomeOf(Asked(order, e, [c])))
       <==> (&& !c.handwriting
             && (ValueMismatch in c.reasons ==> !NormalizedMatches(e, c))
             && (PageMismatch in c.reasons ==> !SamePage(e, c)))
  {
    OverlapExists(e, c);
    var f := OutcomeOf(Asked(order, e, [c]));
    assert f.candidateOrders == [c.order];
    assert f.exact == Some(ExactMatches(e, c)) && f.normalized == Some(NormalizedMatches(e, c));
    assert f.page == Some(SamePage(e, c)) && f.iou == if SamePage(e, c) then Overlap(e, c) else None;
    var reasons := f.reasons;
    assert HandwritingReferenceOnly in reasons <==> c.handwriting;
    assert ValueMismatch in reasons <==>
      ValueMismatch in c.reasons || (!SameNormalized(e, c) && MissingRequired !in e.review + c.reasons);
    assert PageMismatch in reasons <==> PageMismatch in c.reasons || !SamePage(e, c);
    if reasons == {} {
      assert UnapprovedNormalization !in reasons && ValueMismatch !in reasons;
    }
    LoneFieldFromReasons(f);
  }

  /** With complete evidence, acceptance comes down to three reasons. */
  lemma LoneFieldFromReasons(f: FieldOutcome)
    requires f.expectedOrder.Some? && f.expectedRequired.Some? && f.expectedMissing.Some? && f.candidateMissing.Some?
    requires |f.candidateOrders| == 1 && f.exact.Some? && f.normalized.Some? && f.page.Some?
    requires f.reviewRequired == (f.reasons != {}) && f.escalationRequired == (f.reasons != {})
    requires !f.excludedIgnored && !f.excludedReference
    requires f.iou.Some? == f.page.value && (f.exact.value ==> f.normalized.value)
    requires !f.page.value ==> PageMismatch in f.reasons
    requires f.reasons == {} ==> f.normalized.value
    requires f.outcome == if f.reasons == {} && !f.exact.value && f.normalized.value then NormalizedMatch
                          else OutcomeForReasons(f.reasons)
    ensures V.FieldAccepted(f)
       <==> (&& HandwritingReferenceOnly !in f.reasons
             && (ValueMismatch in f.reasons ==> !f.normalized.value)
             && (PageMismatch in f.reasons ==> !f.page.value))
  {
    assert f.outcome == Match ==> f.reasons == {};
  }

  /** The counters of a field with one candidate, with the reasons that were counted left open. */
  function LoneTally(caseId: string, e: ExpectedField, c: Candidate, reasons: set<Reason>,
                     missing: bool, duplicate: bool, unapproved: bool): Tally {
    var predictedMissing, expectedMissing := PredictedMissing([c]), e.value.raw.None?;
    ZERO.(exact := One(ExactMatches(e, c)), normalized := One(NormalizedMatches(e, c)), denominator := 1,
          requiredMissing := One(e.required && missing), requiredDenominator := One(e.required),
          duplicates := One(duplicate),
          logicConflicts := One(LogicConflict in reasons), lowConfidence := One(LowConfidence in reasons),
          exactErrors := One(duplicate), normalizedErrors := One(duplicate) + One(unapproved),
          truePositive := One(e.required && expectedMissing && predictedMissing),
          falsePositive := One(e.required && !expectedMissing && predictedMissing),
          falseNegative := One(e.required && expectedMissing && !predictedMissing),
          trueNegative := One(e.required && !expectedMissing && !predictedMissing),
          pageNumerator := One(SamePage(e, c)), pageDenominator := 1, pageMismatches := One(!SamePage(e, c)),
          evidence := [EvidenceOf(caseId, e, c)])
  }

  lemma LoneDelta(caseId: string, order: nat, e: ExpectedField, c: Candidate)
    requires Eligible(e)
    ensures DeltaOf(caseId, Asked(order, e, [c]))
         == LoneTally(caseId, e, c, FieldReasons(e, [c]), PredictedMissing([c]), false, !Approved(e, c))
  {
  }

  lemma LoneDerived(caseId: string, order: nat, e: ExpectedField, c: Candidate)
    requires Eligible(e)
    ensures var reasons := FieldReasons(e, [c]);
            Derived(caseId, OutcomeOf(Asked(order, e, [c])))
            == LoneTally(caseId, e, c, reasons, MissingRequired in reasons, DuplicateField in reasons,
                         UnapprovedNormalization in reasons)
  {
    var f := OutcomeOf(Asked(order, e, [c]));
    assert f.exact == Some(ExactMatches(e, c)) && f.normalized == Some(NormalizedMatches(e, c));
    assert f.page == Some(SamePage(e, c)) && f.iou == if SamePage(e, c) then Overlap(e, c) else None;
    assert V.IsEligible(f) && V.IsPaged(f);
  }

  lemma LoneCounts(caseId: string, order: nat, e: ExpectedField, c: Candidate)
    requires ValidExpected(e) && ValidCandidate(c) && Eligible(e)
    ensures var item := Asked(order, e, [c]);
            var d, t := Derived(caseId, OutcomeOf(item)), DeltaOf(caseId, item);
            && Covers(d, t)
            && (d == t <==> (&& DuplicateField !in c.reasons
                             && (UnapprovedNormalization in c.reasons ==> !Approved(e, c))
                             && (e.required && MissingRequired in e.review ==> PredictedMissing([c]))))
  {
    LoneDelta(caseId, order, e, c);
    LoneDerived(caseId, order, e, c);
    var reasons := FieldReasons(e, [c]);
    assert DuplicateField in reasons <==> DuplicateField in c.reasons;
    assert UnapprovedNormalization in reasons <==> UnapprovedNormalization in c.reasons || !Approved(e, c);
    assert MissingRequired in reasons <==> MissingRequired in e.review || PredictedMissing([c]);
  }

  lemma LoneAccepted(caseId: string, order: nat, e: ExpectedField, c: Candidate)
    requires ValidExpected(e) && ValidCandidate(c) && Eligible(e)
    ensures var item := Asked(order, e, [c]);
            var f := OutcomeOf(item);
            && Covers(Derived(caseId, f), DeltaOf(caseId, item))
            && (ItemOk(item) <==> V.FieldAccepted(f) && Derived(caseId, f) == DeltaOf(caseId, item))
  {
    LoneField(order, e, c);
    LoneCounts(caseId, order, e, c);
  }

  // ----- all items ---------------------------------------------------------------------

  lemma ItemAccepted(caseId: string, item: Item)
    requires ValidItem(item)
    ensures var f := OutcomeOf(item);
            && (V.FieldAccepted(f) ==> Covers(Derived(caseId, f), DeltaOf(caseId, item)))
            && (ItemOk(item) <==> V.FieldAccepted(f) && Derived(caseId, f) == DeltaOf(caseId, item))
  {
    match item
    case Unasked(c) => UnaskedAccepted(caseId, c);
    case Asked(order, e, cs) =>
      if !Eligible(e) {
        ExcludedAccepted(caseId, order, e, cs);
      } else if |cs| == 1 {
        assert cs == [cs[0]];
        LoneAccepted(caseId, order, e, cs[0]);
      } else {
        UnmatchedAccepted(caseId, order, e, cs);
      }
  }

  function DerivedSum(caseId: string, fields: seq<FieldOutcome>): Tally {
    if fields == [] then ZERO
    else DerivedSum(caseId, fields[..|fields| - 1]).Plus(Derived(caseId, fields[|fields| - 1]))
  }

  lemma CoversPlus(a: Tally, b: Tally, c: Tally, d: Tally)
    requires Covers(a, b) && Covers(c, d)
    ensures Covers(a.Plus(c), b.Plus(d))
    ensures a.Plus(c) == b.Plus(d) <==> a == b && c == d
  {
  }

  ghost predicate AllOk(items: seq<Item>) {
    forall i :: 0 <= i < |items| ==> ItemOk(items[i])
  }

  ghost predicate AllAccepted(items: seq<Item>) {
    forall i :: 0 <= i < |items| ==> ValidItem(items[i]) && V.FieldAccepted(OutcomeOf(items[i]))
  }

  lemma AllOkSnoc(items: seq<Item>)
    requires items != []
    ensures AllOk(items) <==> AllOk(items[..|items| - 1]) && ItemOk(items[|items| - 1])
  {
    var before := items[..|items| - 1];
    assert forall i :: 0 <= i < |before| ==> before[i] == items[i];
  }

  lemma AllAcceptedSnoc(items: seq<Item>)
    requires items != [] && AllAccepted(items)
    ensures AllAccepted(items[..|items| - 1])
    ensures ValidItem(items[|items| - 1]) && V.FieldAccepted(OutcomeOf(items[|items| - 1]))
  {
  }

  lemma SumsUnfold(caseId: string, items: seq<Item>)
    requires items != []
    ensures var before, last := items[..|items| - 1], items[|items| - 1];
            && Sum(caseId, items) == Sum(caseId, before).Plus(DeltaOf(caseId, last))
            && DerivedSum(caseId, Outcomes(items))
               == DerivedSum(caseId, Outcomes(before)).Plus(Derived(caseId, OutcomeOf(last)))
  {
    var before, last, fields := items[..|items| - 1], items[|items| - 1], Outcomes(items);
    assert fields[..|fields| - 1] == Outcomes(before) && fields[|fields| - 1] == OutcomeOf(last);
  }

  /** The re-derived sum covers the counted sum, and equals it only when every item agrees. */
  lemma {:induction false} SumsCover(caseId: string, items: seq<Item>)
    requires AllAccepted(items)
    ensures Covers(DerivedSum(caseId, Outcomes(items)), Sum(caseId, items))
    ensures DerivedSum(caseId, Outcomes(items)) == Sum(caseId, items) <==> AllOk(items)
    decreases items
  {
    if items != [] {
      var before, last := items[..|items| - 1], items[|items| - 1];
      AllAcceptedSnoc(items);
      AllOkSnoc(items);
      SumsCover(caseId, before);
      ItemAccepted(caseId, last);
      SumsUnfold(caseId, items);
      CoversPlus(DerivedSum(caseId, Outcomes(before)), Sum(caseId, before),
                 Derived(caseId, OutcomeOf(last)), DeltaOf(caseId, last));
    }
  }

  /** The counting form and the summing form of the re-derived metrics agree. */
  lemma {:induction false} CountsAreDerived(caseId: string, fields: seq<FieldOutcome>)
    ensures var d := DerivedSum(caseId, fields);
      && d.exact == V.Count(fields, V.IsExact) && d.normalized == V.Count(fields, V.IsNormalized)
      && d.denominator == V.Count(fields, V.IsEligible)
      && d.excludedReference == V.Count(fields, V.IsReference) && d.excludedIgnored == V.Count(fields, V.IsIgnored)
      && d.duplicates == d.exactErrors == V.Count(fields, V.IsDuplicate)
      && d.normalizedErrors == V.Count(fields, V.IsDuplicate) + V.Count(fields, V.IsUnapproved)
      && d.unmapped == V.Count(fields, V.IsLeftover)
      && d.logicConflicts == V.Count(fields, V.IsConflict) && d.lowConfidence == V.Count(fields, V.IsUnsure)
      && d.evidence == V.PageEvidence(caseId, fields)
    decreases fields
  {
    if fields != [] {
      CountsAreDerived(caseId, fields[..|fields| - 1]);
    }
  }

  lemma {:induction false} RestIsDerived(caseId: string, fields: seq<FieldOutcome>)
    ensures var d := DerivedSum(caseId, fields);
      && d.pageNumerator == V.Count(fields, V.IsSamePage) && d.pageDenominator == V.Count(fields, V.IsPaged)
      && d.pageMismatches == V.Count(fields, V.IsOtherPage)
      && d.requiredMissing == V.Count(fields, V.IsMissing) && d.requiredDenominator == V.Count(fields, V.IsRequired)
      && d.truePositive == V.Count(fields, V.IsTruePositive) && d.falsePositive == V.Count(fields, V.IsFalsePositive)
      && d.falseNegative == V.Count(fields, V.IsFalseNegative) && d.trueNegative == V.Count(fields, V.IsTrueNegative)
    decreases fields
  {
    if fields != [] {
      RestIsDerived(caseId, fields[..|fields| - 1]);
    }
  }

  lemma {:induction false} KindsCommute(items: seq<Item>, kind: Kind)
    ensures V.OfKind(Outcomes(items), kind) == Outcomes(OfKind(items, kind))
    decreases items
  {
    if items != [] {
      var before, last, fields := items[..|items| - 1], items[|items| - 1], Outcomes(items);
      KindsCommute(before, kind);
      assert fields[..|fields| - 1] == Outcomes(before);
      var own := OfKind(before, kind);
      assert (own + [last])[..|own|] == own;
    }
  }

  lemma {:induction false} OfKindIsPart(items: seq<Item>, kind: Kind)
    ensures forall item :: item in OfKind(items, kind) ==> item in items
    decreases items
  {
    if items != [] {
      OfKindIsPart(items[..|items| - 1], kind);
    }
  }

  // ----- rows --------------------------------------------------------------------------

  /** The rows the emitted fields answer: asked fields with a candidate, and leftover values. */
  function AnsweredRows(run: CaseRun): set<Row> {
    (set i | 0 <= i < |run.expected| && !run.expected[i].handwriting && AskedAt(run, i).candidates != [] ::
       run.expected[i].key.identity.row)
    + (set c | c in run.values && c.key !in ExpectedKeys(run) && !c.handwriting :: c.key.identity.row)
  }

  /** The rows predicted and the rows answered are as many, and as many of them were asked for. */
  predicate RowsAgree(run: CaseRun) {
    var asked, predicted, answered := ExpectedRows(run.expected), PredictedRows(run), AnsweredRows(run);
    |predicted| == |answered| && |asked * predicted| == |asked * answered|
  }

  lemma {:induction false} UnaskedMembers(values: seq<Candidate>, keys: set<Key>)
    ensures forall item :: item in UnaskedItems(values, keys)
              <==> item.Unasked? && item.candidate in values && item.candidate.key !in keys
    decreases values
  {
    if values != [] {
      var before := values[..|values| - 1];
      UnaskedMembers(before, keys);
      assert values == before + [values[|values| - 1]];
    }
  }

  lemma OutcomeMembers(items: seq<Item>, f: FieldOutcome)
    ensures f in Outcomes(items) <==> exists i :: 0 <= i < |items| && f == OutcomeOf(items[i])
  {
    forall i | 0 <= i < |items|
      ensures Outcomes(items)[i] == OutcomeOf(items[i])
    {
      OutcomeAt(items, i);
    }
  }

  lemma OutcomeIn(items: seq<Item>, item: Item)
    requires item in items
    ensures OutcomeOf(item) in Outcomes(items)
  {
    OutcomeMembers(items, OutcomeOf(item));
  }

  lemma AskedOutcome(run: CaseRun, i: nat)
    requires i < |run.expected|
    ensures OutcomeOf(AskedAt(run, i)) in Outcomes(ItemsOf(run))
  {
    assert AskedItems(run)[i] == AskedAt(run, i);
    assert ItemsOf(run)[i] == AskedAt(run, i);
    OutcomeIn(ItemsOf(run), AskedAt(run, i));
  }

  lemma LeftoverOutcome(run: CaseRun, c: Candidate)
    requires c in run.values && c.key !in ExpectedKeys(run)
    ensures OutcomeOf(Unasked(c)) in Outcomes(ItemsOf(run))
  {
    UnaskedMembers(run.values, ExpectedKeys(run));
    OutcomeIn(ItemsOf(run), Unasked(c));
  }

  /** Every emitted field comes from a golden field or from a leftover value. */
  lemma OutcomeSource(run: CaseRun, f: FieldOutcome) returns (i: int, c: Option<Candidate>)
    requires f in Outcomes(ItemsOf(run))
    ensures match c
            case None => 0 <= i < |run.expected| && f == OutcomeOf(AskedAt(run, i))
            case Some(c) => c in run.values && c.key !in ExpectedKeys(run) && f == OutcomeOf(Unasked(c))
  {
    var items := ItemsOf(run);
    OutcomeMembers(items, f);
    i :| 0 <= i < |items| && f == OutcomeOf(items[i]);
    if i < |run.expected| {
      c := None;
    } else {
      UnaskedMembers(run.values, ExpectedKeys(run));
      assert items[i] in UnaskedItems(run.values, ExpectedKeys(run));
      c := Some(items[i].candidate);
    }
  }

  lemma EligibleRows(run: CaseRun)
    ensures V.RowsWhere(Outcomes(ItemsOf(run)), V.IsEligible) == ExpectedRows(run.expected)
  {
    var fields := Outcomes(ItemsOf(run));
    forall row | row in V.RowsWhere(fields, V.IsEligible)
      ensures row in ExpectedRows(run.expected)
    {
      var f :| f in fields && V.IsEligible(f) && f.key.identity.row == row;
      var i, c := OutcomeSource(run, f);
      assert run.expected[i] in run.expected;
    }
    forall row | row in ExpectedRows(run.expected)
      ensures row in V.RowsWhere(fields, V.IsEligible)
    {
      var e :| e in run.expected && Eligible(e) && e.key.identity.row == row;
      var i :| 0 <= i < |run.expected| && run.expected[i] == e;
      AskedOutcome(run, i);
      assert V.IsEligible(OutcomeOf(AskedAt(run, i)));
    }
  }

  lemma AnsweredRowsAgree(run: CaseRun)
    ensures V.RowsWhere(Outcomes(ItemsOf(run)), V.IsAnswered) == AnsweredRows(run)
  {
    var fields := Outcomes(ItemsOf(run));
    forall row | row in V.RowsWhere(fields, V.IsAnswered)
      ensures row in AnsweredRows(run)
    {
      var f :| f in fields && V.IsAnswered(f) && f.key.identity.row == row;
      var i, c := OutcomeSource(run, f);
      if c.None? {
        assert !run.expected[i].handwriting && AskedAt(run, i).candidates != [];
      }
    }
    forall row | row in AnsweredRows(run)
      ensures row in V.RowsWhere(fields, V.IsAnswered)
    {
      if i :| 0 <= i < |run.expected| && !run.expected[i].handwriting && AskedAt(run, i).candidates != []
              && run.expected[i].key.identity.row == row {
        AskedOutcome(run, i);
        assert V.IsAnswered(OutcomeOf(AskedAt(run, i)));
      } else {
        var c :| c in run.values && c.key !in ExpectedKeys(run) && !c.handwriting && c.key.identity.row == row;
        LeftoverOutcome(run, c);
        assert V.IsAnswered(OutcomeOf(Unasked(c)));
      }
    }
  }

  lemma SetSplits<T>(a: set<T>, b: set<T>)
    ensures |a * b| + |a - b| == |a|
  {
    assert a == a * b + (a - b);
  }

  lemma RowsBindIff(run: CaseRun, m: V.Metrics)
    requires var asked, predicted := ExpectedRows(run.expected), PredictedRows(run);
             && m.rowPrecision == V.Ratio(|asked * predicted|, |asked * predicted| + |predicted - asked|)
             && m.rowRecall == V.Ratio(|asked * predicted|, |asked * predicted| + |asked - predicted|)
    ensures V.RowsBind(Outcomes(ItemsOf(run)), m) <==> RowsAgree(run)
  {
    var asked, predicted, answered := ExpectedRows(run.expected), PredictedRows(run), AnsweredRows(run);
    SetSplits(asked, predicted);
    SetSplits(predicted, asked);
    assert predicted * asked == asked * predicted;
    assert V.RowsWhere(Outcomes(ItemsOf(run)), V.IsEligible) == asked by { EligibleRows(run); }
    assert V.RowsWhere(Outcomes(ItemsOf(run)), V.IsAnswered) == answered by { AnsweredRowsAgree(run); }
  }

  /**
   Two conditions settle the rows: a matched candidate carries its field's handwriting flag, and
   a run whose bindings failed has no leftover values.
   */
  lemma MarkedRowsAgree(run: CaseRun)
    requires forall i, c :: 0 <= i < |run.expected| && c in AskedAt(run, i).candidates
               ==> c.handwriting == run.expected[i].handwriting
    requires BindingFailed(run) ==> forall c :: c in run.values ==> c.key in ExpectedKeys(run)
    ensures PredictedRows(run) == AnsweredRows(run) && RowsAgree(run)
  {
    forall row | row in PredictedRows(run)
      ensures row in AnsweredRows(run)
    {
      var c :| c in run.values && !c.handwriting && c.key.identity.row == row;
      if c.key in ExpectedKeys(run) {
        var e :| e in run.expected && e.key == c.key;
        var i :| 0 <= i < |run.expected| && run.expected[i] == e;
        CandidatesMembers(run.values, e.key);
        assert c in AskedAt(run, i).candidates;
      }
    }
    forall row | row in AnsweredRows(run)
      ensures row in PredictedRows(run)
    {
      if i :| 0 <= i < |run.expected| && !run.expected[i].handwriting && AskedAt(run, i).candidates != []
              && run.expected[i].key.identity.row == row {
        var c := AskedAt(run, i).candidates[0];
        CandidatesMembers(run.values, run.expected[i].key);
        assert c in AskedAt(run, i).candidates;
      }
    }
  }

  // ----- metrics hold together ---------------------------------------------------------

  lemma {:induction false} MismatchesJoin(a: seq<Evidence>, b: seq<Evidence>)
    ensures V.MismatchCount(a + b) == V.MismatchCount(a) + V.MismatchCount(b)
    decreases b
  {
    if b == [] {
      assert a + b == a;
    } else {
      assert (a + b)[..|a + b| - 1] == a + b[..|b| - 1];
      MismatchesJoin(a, b[..|b| - 1]);
    }
  }

  predicate Coherent(t: Tally) {
    && t.exact <= t.denominator && t.normalized <= t.denominator && t.requiredMissing <= t.requiredDenominator
    && t.pageDenominator == |t.evidence| && t.pageMismatches == V.MismatchCount(t.evidence)
    && t.pageNumerator + t.pageMismatches == |t.evidence|
    && forall i :: 0 <= i < |t.evidence| ==> V.EvidenceAccepted(t.evidence[i])
  }

  lemma CoherentPlus(a: Tally, b: Tally)
    requires Coherent(a) && Coherent(b)
    ensures Coherent(a.Plus(b))
  {
    MismatchesJoin(a.evidence, b.evidence);
  }

  lemma EligibilityIsCoherent(e: ExpectedField, cs: seq<Candidate>)
    ensures var t := EligibilityStep(e, cs);
      Coherent(t) && t.evidence == [] && t.exact == t.normalized == t.pageNumerator == t.pageMismatches == 0
      && t.pageDenominator == 0 && t.denominator == One(Eligible(e))
  {
    hide PredictedMissing;
  }

  lemma ComparisonIsCoherent(caseId: string, e: ExpectedField, cs: seq<Candidate>, t: Tally)
    requires Coherent(t) && t.evidence == [] && t.exact == t.normalized == t.pageNumerator == t.pageMismatches == 0
    requires t.pageDenominator == 0 && t.denominator == One(Eligible(e))
    requires Lone(e, cs) ==> V.EvidenceAccepted(EvidenceOf(caseId, e, cs[0]))
    ensures Coherent(ComparisonStep(caseId, e, cs, t))
  {
    hide Overlap, ExactMatches, NormalizedMatches, Approved, V.EvidenceAccepted;
    if Lone(e, cs) {
      assert V.MismatchCount([]) == 0;
      assert V.MismatchCount([EvidenceOf(caseId, e, cs[0])]) == One(!SamePage(e, cs[0]));
    }
  }

  lemma SignalsKeepCoherent(t: Tally, conflicts: nat, unsure: nat)
    requires Coherent(t)
    ensures Coherent(t.(logicConflicts := conflicts, lowConfidence := unsure))
  {
  }

  lemma DeltaIsCoherent(caseId: string, item: Item)
    requires ValidItem(item)
    ensures Coherent(DeltaOf(caseId, item))
  {
    hide Overlap, FieldReasons, EligibilityStep, ComparisonStep;
    match item
    case Unasked(_) =>
    case Asked(_, e, cs) =>
      if Lone(e, cs) {
        assert cs[0] in cs;
        OverlapExists(e, cs[0]);
      }
      EligibilityIsCoherent(e, cs);
      ComparisonIsCoherent(caseId, e, cs, EligibilityStep(e, cs));
      SignalsKeepCoherent(ComparisonStep(caseId, e, cs, EligibilityStep(e, cs)), One(LogicConflict in FieldReasons(e, cs)),
                          One(LowConfidence in FieldReasons(e, cs)));
  }

  lemma {:induction false} SumIsCoherent(caseId: string, items: seq<Item>)
    requires forall item :: item in items ==> ValidItem(item)
    ensures Coherent(Sum(caseId, items))
    decreases items
  {
    if items != [] {
      var before, last := items[..|items| - 1], items[|items| - 1];
      SumIsCoherent(caseId, before);
      DeltaIsCoherent(caseId, last);
      CoherentPlus(Sum(caseId, before), DeltaOf(caseId, last));
    }
  }

  // ----- the main result ---------------------------------------------------------------

  /** Exactly what a run must meet for its case outcome to be accepted. */
  predicate WellFormed(run: CaseRun) {
    (forall item :: item in ItemsOf(run) ==> ItemOk(item)) && RowsAgree(run)
  }

  function MetricsOf(p: Progress): V.Metrics {
    V.CohortMetrics(p.counts, p.kinds)
  }

  predicate OutcomeAccepted(run: CaseRun, p: Progress) {
    V.CaseAccepted(run.caseId, p.fields, MetricsOf(p), p.reasons, p.reasons != {})
  }

  lemma {:induction false} CandidatesMembers(values: seq<Candidate>, key: Key)
    ensures forall c :: c in CandidatesFor(values, key) <==> c in values && c.key == key
    decreases values
  {
    if values != [] {
      CandidatesMembers(values[..|values| - 1], key);
      assert values == values[..|values| - 1] + [values[|values| - 1]];
    }
  }

  lemma ItemsAreValid(run: CaseRun)
    requires ValidRun(run)
    ensures forall item :: item in ItemsOf(run) ==> ValidItem(item)
  {
    UnaskedMembers(run.values, ExpectedKeys(run));
    forall item | item in ItemsOf(run)
      ensures ValidItem(item)
    {
      if item in AskedItems(run) {
        var i :| 0 <= i < |run.expected| && AskedItems(run)[i] == item;
        CandidatesMembers(run.values, run.expected[i].key);
      } else {
        assert item in UnaskedItems(run.values, ExpectedKeys(run));
      }
    }
  }

  /** Same field counters, so the same re-derivable metrics. */
  predicate SameFieldCounts(a: Tally, b: Tally) {
    a.(documentNumerator := 0, documentDenominator := 0, rowTruePositive := 0, rowFalsePositive := 0, rowFalseNegative := 0)
    == b.(documentNumerator := 0, documentDenominator := 0, rowTruePositive := 0, rowFalsePositive := 0, rowFalseNegative := 0)
  }

  lemma CountsBindIff(caseId: string, fields: seq<FieldOutcome>, t: Tally, counts: Tally, kinds: map<Kind, Tally>)
    requires Covers(DerivedSum(caseId, fields), t) && SameFieldCounts(counts, t)
    ensures V.CountsBind(caseId, fields, V.CohortMetrics(counts, kinds)) <==> DerivedSum(caseId, fields) == t
  {
    CountsAreDerived(caseId, fields);
    RestIsDerived(caseId, fields);
  }

  lemma AllOkMeansAllAccepted(items: seq<Item>)
    requires AllOk(items) && forall item :: item in items ==> ValidItem(item)
    ensures AllAccepted(items)
  {
    forall i | 0 <= i < |items|
      ensures ValidItem(items[i]) && V.FieldAccepted(OutcomeOf(items[i]))
    {
      assert items[i] in items;
      ItemAccepted("", items[i]);
    }
  }

  lemma OneKindBinds(caseId: string, items: seq<Item>, kind: Kind)
    requires AllOk(items) && forall item :: item in items ==> ValidItem(item)
    ensures var own, t := V.OfKind(Outcomes(items), kind), Sum(caseId, OfKind(items, kind));
            V.ExactMetric(t) == V.DerivedExact(own) && V.NormalizedMetric(t) == V.DerivedNormalized(own)
  {
    var own := OfKind(items, kind);
    KindsCommute(items, kind);
    OfKindIsPart(items, kind);
    assert AllOk(own) by {
      forall i | 0 <= i < |own| ensures ItemOk(own[i]) {
        assert own[i] in items;
      }
    }
    AllOkMeansAllAccepted(own);
    SumsCover(caseId, own);
    CountsAreDerived(caseId, Outcomes(own));
  }

  lemma KindMetricsBind(caseId: string, items: seq<Item>, kinds: map<Kind, Tally>, counts: Tally)
    requires KindsSum(kinds, caseId, items)
    requires AllOk(items) && forall item :: item in items ==> ValidItem(item)
    ensures V.KindsBind(Outcomes(items), V.CohortMetrics(counts, kinds))
  {
    var m := V.CohortMetrics(counts, kinds);
    forall i | 0 <= i < |m.byKind|
      ensures m.byKind[i].exact == V.DerivedExact(V.OfKind(Outcomes(items), m.byKind[i].kind))
      ensures m.byKind[i].normalized == V.DerivedNormalized(V.OfKind(Outcomes(items), m.byKind[i].kind))
    {
      var kind := KIND_ORDER[i];
      assert m.byKind[i].kind == kind;
      assert KindTally(kinds, kind) == Sum(caseId, OfKind(items, kind));
      OneKindBinds(caseId, items, kind);
    }
  }

  lemma KindsAreCoherent(caseId: string, items: seq<Item>, kinds: map<Kind, Tally>, kind: Kind)
    requires KindsSum(kinds, caseId, items) && forall item :: item in items ==> ValidItem(item)
    ensures Coherent(KindTally(kinds, kind))
  {
    OfKindIsPart(items, kind);
    SumIsCoherent(caseId, OfKind(items, kind));
  }

  lemma FieldCountsOfRun(run: CaseRun, t: Tally)
    requires t.documentNumerator == t.documentDenominator == 0
    requires t.rowTruePositive == t.rowFalsePositive == t.rowFalseNegative == 0
    ensures SameFieldCounts(BaseTally(run).Plus(t), t)
    ensures BaseTally(run).Plus(t).documentNumerator <= BaseTally(run).Plus(t).documentDenominator
  {
  }

  lemma {:induction false} SumHasNoRows(caseId: string, items: seq<Item>)
    ensures var t := Sum(caseId, items);
            && t.documentNumerator == t.documentDenominator == 0
            && t.rowTruePositive == t.rowFalsePositive == t.rowFalseNegative == 0
    decreases items
  {
    if items != [] {
      SumHasNoRows(caseId, items[..|items| - 1]);
    }
  }

  lemma KindMetricsAccepted(kinds: map<Kind, Tally>, kind: Kind)
    requires Coherent(KindTally(kinds, kind))
    ensures V.MetricAccepted(V.KindMetricOf(kinds, kind).exact) && V.MetricAccepted(V.KindMetricOf(kinds, kind).normalized)
  {
  }

  lemma CoherentMetricsAccepted(t: Tally, kinds: map<Kind, Tally>)
    requires Coherent(t) && t.documentNumerator <= t.documentDenominator
    requires forall i :: 0 <= i < |KIND_ORDER| ==>
               var k := V.KindMetricOf(kinds, KIND_ORDER[i]); V.MetricAccepted(k.exact) && V.MetricAccepted(k.normalized)
    ensures V.MetricsAccepted(V.CohortMetrics(t, kinds))
  {
    var m := V.CohortMetrics(t, kinds);
    assert m.byKind == V.KindMetrics(kinds);
    assert m.evidence == t.evidence && m.pageMismatches == t.pageMismatches;
    assert m.page.numerator == t.pageNumerator && m.page.denominator == t.pageDenominator;
  }

  lemma BaseKeepsCoherent(run: CaseRun, t: Tally)
    requires Coherent(t) && t.documentNumerator == t.documentDenominator == 0
    ensures var counts := BaseTally(run).Plus(t);
            Coherent(counts) && counts.documentNumerator <= counts.documentDenominator
  {
    hide ExpectedRows, PredictedRows;
    CoherentPlus(BaseTally(run), t);
  }

  lemma RunIsCoherent(run: CaseRun, p: Progress)
    requires ValidRun(run) && p == Fold(run, ItemsOf(run))
    ensures Coherent(p.counts) && p.counts.documentNumerator <= p.counts.documentDenominator
    ensures forall kind :: Coherent(KindTally(p.kinds, kind))
  {
    hide Fold, ItemsOf, Sum, ValidItem, ValidRun, KindTally, KindsSum, Coherent, BaseTally, Outcomes, CaseReasons;
    var items := ItemsOf(run);
    FoldSums(run, items);
    ItemsAreValid(run);
    SumIsCoherent(run.caseId, items);
    SumHasNoRows(run.caseId, items);
    BaseKeepsCoherent(run, Sum(run.caseId, items));
    forall kind
      ensures Coherent(KindTally(p.kinds, kind))
    {
      KindsAreCoherent(run.caseId, items, p.kinds, kind);
    }
  }

  lemma RunMetricsAccepted(run: CaseRun, p: Progress)
    requires ValidRun(run) && p == Fold(run, ItemsOf(run))
    ensures V.MetricsAccepted(MetricsOf(p))
  {
    RunIsCoherent(run, p);
    forall i | 0 <= i < |KIND_ORDER|
      ensures var k := V.KindMetricOf(p.kinds, KIND_ORDER[i]);
              V.MetricAccepted(k.exact) && V.MetricAccepted(k.normalized)
    {
      assert Coherent(KindTally(p.kinds, KIND_ORDER[i]));
      KindMetricsAccepted(p.kinds, KIND_ORDER[i]);
    }
    CoherentMetricsAccepted(p.counts, p.kinds);
  }

  lemma {:induction false} ItemReasonsCover(items: seq<Item>)
    ensures forall i :: 0 <= i < |items| ==> OutcomeOf(items[i]).reasons <= ItemReasons(items)
    decreases items
  {
    hide OutcomeOf;
    if items != [] {
      ItemReasonsCover(items[..|items| - 1]);
    }
  }

  lemma RunRowsBind(run: CaseRun, p: Progress)
    requires p == Fold(run, ItemsOf(run))
    ensures V.RowsBind(p.fields, MetricsOf(p)) <==> RowsAgree(run)
  {
    hide Fold, Outcomes, ItemsOf, Sum;
    FoldSums(run, ItemsOf(run));
    SumHasNoRows(run.caseId, ItemsOf(run));
    RowsBindIff(run, MetricsOf(p));
  }

  lemma RunCountsBind(run: CaseRun, p: Progress)
    requires p == Fold(run, ItemsOf(run)) && AllAccepted(ItemsOf(run))
    ensures V.CountsBind(run.caseId, p.fields, MetricsOf(p)) <==> AllOk(ItemsOf(run))
  {
    var items := ItemsOf(run);
    FoldSums(run, items);
    SumHasNoRows(run.caseId, items);
    FieldCountsOfRun(run, Sum(run.caseId, items));
    SumsCover(run.caseId, items);
    CountsBindIff(run.caseId, p.fields, Sum(run.caseId, items), p.counts, p.kinds);
  }

  predicate FieldsAccepted(fields: seq<FieldOutcome>, reasons: set<Reason>) {
    forall i :: 0 <= i < |fields| ==> V.FieldAccepted(fields[i]) && fields[i].reasons <= reasons
  }

  lemma ReviewHasReasons(item: Item)
    ensures OutcomeOf(item).reviewRequired ==> OutcomeOf(item).reasons != {}
  {
    hide Overlap, FieldReasons, ExactMatches, NormalizedMatches, PredictedMissing;
  }

  lemma RunFieldsAccepted(run: CaseRun, p: Progress)
    requires ValidRun(run) && p == Fold(run, ItemsOf(run))
    ensures FieldsAccepted(p.fields, p.reasons) <==> AllAccepted(ItemsOf(run))
    ensures (exists i :: 0 <= i < |p.fields| && p.fields[i].reviewRequired) ==> p.reasons != {}
  {
    hide Fold, Outcomes, ItemsOf, Sum, OutcomeOf, V.FieldAccepted, ValidRun, ValidItem, BaseTally, KindsSum;
    var items := ItemsOf(run);
    FoldSums(run, items);
    ItemsAreValid(run);
    ItemReasonsCover(items);
    forall i | 0 <= i < |items|
      ensures p.fields[i] == OutcomeOf(items[i]) && OutcomeOf(items[i]).reasons <= p.reasons && ValidItem(items[i])
      ensures OutcomeOf(items[i]).reviewRequired ==> OutcomeOf(items[i]).reasons != {}
    {
      OutcomeAt(items, i);
      ReviewHasReasons(items[i]);
      assert items[i] in items;
    }
    if AllAccepted(items) {
      forall i | 0 <= i < |p.fields|
        ensures V.FieldAccepted(p.fields[i])
      {
        assert V.FieldAccepted(OutcomeOf(items[i]));
      }
    }
    if FieldsAccepted(p.fields, p.reasons) {
      forall i | 0 <= i < |items|
        ensures V.FieldAccepted(OutcomeOf(items[i]))
      {
        assert V.FieldAccepted(p.fields[i]);
      }
    }
  }

  lemma AcceptanceParts(run: CaseRun, p: Progress)
    requires ValidRun(run) && p == Fold(run, ItemsOf(run))
    ensures OutcomeAccepted(run, p)
       <==> (&& FieldsAccepted(p.fields, p.reasons)
             && V.CountsBind(run.caseId, p.fields, MetricsOf(p))
             && V.RowsBind(p.fields, MetricsOf(p))
             && V.KindsBind(p.fields, MetricsOf(p)))
  {
    RunMetricsAccepted(run, p);
    RunFieldsAccepted(run, p);
  }

  lemma RunKindsBind(run: CaseRun, p: Progress)
    requires ValidRun(run) && p == Fold(run, ItemsOf(run)) && AllOk(ItemsOf(run))
    ensures V.KindsBind(p.fields, MetricsOf(p))
  {
    FoldSums(run, ItemsOf(run));
    ItemsAreValid(run);
    KindMetricsBind(run.caseId, ItemsOf(run), p.kinds, p.counts);
  }

  lemma AllOkIsEachOk(items: seq<Item>)
    ensures AllOk(items) <==> forall item :: item in items ==> ItemOk(item)
  {
    if forall item :: item in items ==> ItemOk(item) {
      forall i | 0 <= i < |items| ensures ItemOk(items[i]) {
        assert items[i] in items;
      }
    }
  }

  /**
   The one-pass scorer's case outcome passes every check of the case outcome model exactly when
   the run is well formed.
   */
  lemma AcceptedIffWellFormed(run: CaseRun, p: Progress)
    requires ValidRun(run) && p == Fold(run, ItemsOf(run))
    ensures OutcomeAccepted(run, p) <==> WellFormed(run)
  {
    AllOkIsEachOk(ItemsOf(run));
    AcceptanceParts(run, p);
    RunRowsBind(run, p);
    RunFieldsAccepted(run, p);
    if OutcomeAccepted(run, p) {
      RunCountsBind(run, p);
    }
    if WellFormed(run) {
      ItemsAreValid(run);
      AllOkMeansAllAccepted(ItemsOf(run));
      RunCountsBind(run, p);
      RunKindsBind(run, p);
    }
  }
}
