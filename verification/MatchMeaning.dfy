/** What the scorer's verdict on a golden field says about the case's golden fields and the run's values. */
module MatchMeaning {
  import opened Options
  import opened EvaluationTypes
  import opened Scoring
  import ConvexRings
  import PolygonIoU
  import PolygonSchema
  import OverlapUnion
  import SimplePolygons

  // ----- the candidates of a key -------------------------------------------------------

  /** Value `j` is the run's only one for the key. */
  ghost predicate OnlyAt(values: seq<Candidate>, key: Key, j: nat) {
    j < |values| && values[j].key == key && forall i: nat | i < |values| && values[i].key == key :: i == j
  }

  ghost predicate NoneFor(values: seq<Candidate>, key: Key) {
    forall c | c in values :: c.key != key
  }

  ghost predicate SeveralFor(values: seq<Candidate>, key: Key) {
    exists i: nat, j: nat :: i < j < |values| && values[i].key == key && values[j].key == key
  }

  lemma {:induction false} NoneIff(values: seq<Candidate>, key: Key)
    ensures NoneFor(values, key) <==> CandidatesFor(values, key) == []
    decreases values
  {
    if values != [] {
      var n := |values| - 1;
      NoneIff(values[..n], key);
      assert values == values[..n] + [values[n]];
    }
  }

  lemma {:induction false} OnlyGives(values: seq<Candidate>, key: Key, j: nat)
    requires OnlyAt(values, key, j)
    ensures CandidatesFor(values, key) == [values[j]]
    decreases values
  {
    var n := |values| - 1;
    var before := values[..n];
    if j == n {
      assert forall i: nat | i < n :: before[i] == values[i] && before[i].key != key;
      NoneIff(before, key);
    } else {
      assert values[n].key != key;
      assert forall i: nat | i < n :: before[i] == values[i];
      OnlyGives(before, key, j);
    }
  }

  lemma {:induction false} OneIsOnly(values: seq<Candidate>, key: Key) returns (j: nat)
    requires |CandidatesFor(values, key)| == 1
    ensures OnlyAt(values, key, j)
    decreases values
  {
    var n := |values| - 1;
    var before := values[..n];
    if values[n].key == key {
      NoneIff(before, key);
      j := n;
      assert forall i: nat | i < n :: before[i] in before && values[i] == before[i];
    } else {
      j := OneIsOnly(before, key);
      assert forall i: nat | i < n :: before[i] == values[i];
    }
  }

  lemma {:induction false} SeveralAre(values: seq<Candidate>, key: Key) returns (i: nat, j: nat)
    requires |CandidatesFor(values, key)| > 1
    ensures i < j < |values| && values[i].key == key && values[j].key == key
    decreases values
  {
    var n := |values| - 1;
    var before := values[..n];
    if values[n].key == key {
      NoneIff(before, key);
      var c :| c in before && c.key == key;
      i :| 0 <= i < n && before[i] == c;
      j := n;
    } else {
      i, j := SeveralAre(before, key);
    }
  }

  /** No value, the only value, or more than one. */
  lemma CandidatesAre(values: seq<Candidate>, key: Key)
    ensures NoneFor(values, key) <==> CandidatesFor(values, key) == []
    ensures forall j: nat | OnlyAt(values, key, j) :: CandidatesFor(values, key) == [values[j]]
    ensures |CandidatesFor(values, key)| == 1 ==> exists j: nat :: OnlyAt(values, key, j)
    ensures SeveralFor(values, key) <==> |CandidatesFor(values, key)| > 1
  {
    hide CandidatesFor;
    NoneIff(values, key);
    forall j: nat | OnlyAt(values, key, j) ensures CandidatesFor(values, key) == [values[j]] {
      OnlyGives(values, key, j);
    }
    if |CandidatesFor(values, key)| == 1 {
      var j := OneIsOnly(values, key);
    } else if |CandidatesFor(values, key)| > 1 {
      var i, j := SeveralAre(values, key);
    }
    if SeveralFor(values, key) {
      var i: nat, j: nat :| i < j < |values| && values[i].key == key && values[j].key == key;
      assert values[i] in values;
    }
  }

  /** The places of the values of a key, in order. */
  ghost predicate PlacesOf(values: seq<Candidate>, key: Key, places: seq<nat>) {
    && (forall i, j :: 0 <= i < j < |places| ==> places[i] < places[j])
    && forall j: nat :: j in places <==> j < |values| && values[j].key == key
  }

  lemma PlacesDropLast(values: seq<Candidate>, key: Key, places: seq<nat>)
    requires values != [] && PlacesOf(values, key, places)
    ensures var n := |values| - 1;
      if values[n].key == key then places != [] && places[|places| - 1] == n && PlacesOf(values[..n], key, places[..|places| - 1])
      else PlacesOf(values[..n], key, places)
  {
    var n, m := |values| - 1, |places|;
    if values[n].key == key {
      assert n in places;
      var k :| 0 <= k < m && places[k] == n;
      assert places[m - 1] in places;
      assert k == m - 1;
      var rest := places[..m - 1];
      forall j: nat ensures j in rest <==> j < n && values[..n][j].key == key {
        assert j in places <==> j in rest || j == places[m - 1];
        if j in rest {
          var i :| 0 <= i < m - 1 && rest[i] == j;
          assert places[i] < places[m - 1];
        }
      }
    } else {
      forall j: nat ensures j in places <==> j < n && values[..n][j].key == key {
        assert j in places <==> j < |values| && values[j].key == key;
      }
    }
  }

  lemma HasPlace(places: seq<nat>)
    ensures places == [] || exists j: nat :: j in places
  {
    if places != [] {
      assert places[0] in places;
    }
  }

  /** The candidates of a key come in the order of the run's values. */
  lemma {:induction false} CandidatesInOrder(values: seq<Candidate>, key: Key, places: seq<nat>)
    requires PlacesOf(values, key, places)
    ensures var cs := CandidatesFor(values, key);
      |cs| == |places| && forall i :: 0 <= i < |places| ==> places[i] < |values| && cs[i] == values[places[i]]
    decreases values
  {
    forall i | 0 <= i < |places| ensures places[i] < |values| {
      assert places[i] in places;
    }
    if values == [] {
      HasPlace(places);
    } else {
      var n := |values| - 1;
      PlacesDropLast(values, key, places);
      CandidatesInOrder(values[..n], key, if values[n].key == key then places[..|places| - 1] else places);
    }
  }

  // ----- one golden field --------------------------------------------------------------

  /** Golden field `k` is compared with value `j`: it counts, the bindings hold, and no other value has its key. */
  ghost predicate Compared(run: CaseRun, k: nat, j: nat)
    requires k < |run.expected|
  {
    var e := run.expected[k];
    && !e.ignored && !e.handwriting
    && run.bindingsMatch && BindingMismatch !in run.runReasons
    && OnlyAt(run.values, e.key, j)
  }

  /** The outcome the scorer emits for golden field `k`. */
  function FieldAt(run: CaseRun, k: nat): FieldOutcome
    requires k < |run.expected|
  {
    FieldsMatchItems(run);
    Fold(run, ItemsOf(run)).fields[k]
  }

  lemma FieldsMatchItems(run: CaseRun)
    ensures |Fold(run, ItemsOf(run)).fields| == |ItemsOf(run)| >= |run.expected|
    ensures forall k: nat | k < |ItemsOf(run)| :: Fold(run, ItemsOf(run)).fields[k] == OutcomeOf(ItemsOf(run)[k])
  {
    hide OutcomeOf, Fold;
    FoldFields(run, ItemsOf(run));
    forall k: nat | k < |ItemsOf(run)| ensures Fold(run, ItemsOf(run)).fields[k] == OutcomeOf(ItemsOf(run)[k]) {
      OutcomeAt(ItemsOf(run), k);
    }
  }

  lemma FieldIsOutcome(run: CaseRun, k: nat)
    requires k < |run.expected|
    ensures FieldAt(run, k) == OutcomeOf(AskedAt(run, k))
  {
    hide OutcomeOf, Fold;
    FieldsMatchItems(run);
  }

  lemma ComparedOutcome(run: CaseRun, k: nat, j: nat)
    requires k < |run.expected| && Compared(run, k, j)
    ensures FieldAt(run, k) == OutcomeOf(Asked(k + 1, run.expected[k], [run.values[j]]))
  {
    hide OutcomeOf, FieldAt, CandidatesFor;
    FieldIsOutcome(run, k);
    CandidatesAre(run.values, run.expected[k].key);
  }

  lemma AskedIsLone(order: nat, e: ExpectedField, cs: seq<Candidate>)
    ensures var f := OutcomeOf(Asked(order, e, cs));
      && (f.normalized.Some? <==> !e.ignored && !e.handwriting && |cs| == 1)
      && (f.exact.Some? <==> f.normalized.Some?) && (f.page.Some? <==> f.normalized.Some?)
      && (f.iou.Some? ==> f.page == Some(true))
  {
  }

  /** A field is compared with the run's only value for it, or not at all. */
  lemma ComparedIff(run: CaseRun, k: nat)
    requires k < |run.expected|
    ensures var f := FieldAt(run, k);
      && (f.normalized.Some? <==> exists j: nat :: Compared(run, k, j))
      && (f.exact.Some? <==> f.normalized.Some?) && (f.page.Some? <==> f.normalized.Some?)
      && (f.iou.Some? ==> f.page == Some(true))
  {
    hide OutcomeOf, FieldAt, CandidatesFor;
    var e, item := run.expected[k], AskedAt(run, k);
    FieldIsOutcome(run, k);
    CandidatesAre(run.values, e.key);
    AskedIsLone(item.order, e, item.candidates);
    if FieldAt(run, k).normalized.Some? {
      var j: nat :| OnlyAt(run.values, e.key, j);
      assert Compared(run, k, j);
    }
  }

  lemma LoneVerdict(order: nat, e: ExpectedField, c: Candidate)
    requires !e.ignored && !e.handwriting && UnapprovedNormalization !in e.review && ValueMismatch !in e.review
    ensures var f := OutcomeOf(Asked(order, e, [c]));
      var equal := c.value.kind == e.value.kind && c.value.normalized == e.value.normalized && c.value.unit == e.value.unit;
      var missing := MissingRequired in e.review || MissingRequired in c.reasons;
      && (f.normalized == Some(true) <==>
            equal && !missing && c.applied <= e.allowed && UnapprovedNormalization !in c.reasons)
      && (f.exact == Some(true) <==> f.normalized == Some(true) && c.value.raw == e.value.raw)
      && (ValueMismatch in f.reasons <==> ValueMismatch in c.reasons || (!equal && !missing))
      && (UnapprovedNormalization in f.reasons <==>
            UnapprovedNormalization in c.reasons || !(c.applied <= e.allowed))
      && (MissingRequired in f.reasons <==> missing)
  {
    hide Overlap, OutcomeForReasons, OrdersOf;
  }

  /**
   The verdict on a compared field: normalized exactly when kind, normalized text and unit agree, the normalizations
   applied are allowed, and neither side declares a missing value nor the value an unapproved normalization; exact when
   the raw texts agree as well.
   */
  lemma VerdictIff(run: CaseRun, k: nat, j: nat)
    requires ValidRun(run) && k < |run.expected| && Compared(run, k, j)
    ensures var e, c, f := run.expected[k], run.values[j], FieldAt(run, k);
      var equal := c.value.kind == e.value.kind && c.value.normalized == e.value.normalized && c.value.unit == e.value.unit;
      var missing := MissingRequired in e.review || MissingRequired in c.reasons;
      && (f.normalized == Some(true) <==>
            equal && !missing && c.applied <= e.allowed && UnapprovedNormalization !in c.reasons)
      && (f.exact == Some(true) <==> f.normalized == Some(true) && c.value.raw == e.value.raw)
      && (ValueMismatch in f.reasons <==> ValueMismatch in c.reasons || (!equal && !missing))
      && (UnapprovedNormalization in f.reasons <==>
            UnapprovedNormalization in c.reasons || !(c.applied <= e.allowed))
      && (MissingRequired in f.reasons <==> missing)
  {
    hide OutcomeOf, FieldAt, ValidGeometry;
    assert ValidExpected(run.expected[k]);
    ComparedOutcome(run, k, j);
    LoneVerdict(k + 1, run.expected[k], run.values[j]);
  }

  lemma LonePlace(order: nat, e: ExpectedField, c: Candidate)
    requires !e.ignored && !e.handwriting && PageMismatch !in e.review
    ensures var f := OutcomeOf(Asked(order, e, [c]));
      && f.page == Some(c.geometry.page == e.geometry.page)
      && (PageMismatch in f.reasons <==> PageMismatch in c.reasons || c.geometry.page != e.geometry.page)
      && f.iou == if c.geometry.page == e.geometry.page then Overlap(e, c) else None
  {
    hide Overlap, OutcomeForReasons, OrdersOf;
  }

  /** The place of a compared field: the same page, or a page mismatch and no overlap; on one page, overlap over union. */
  lemma PlaceIff(run: CaseRun, k: nat, j: nat)
    requires ValidRun(run) && k < |run.expected| && Compared(run, k, j)
    ensures var e, c, f := run.expected[k].geometry, run.values[j].geometry, FieldAt(run, k);
      && f.page == Some(c.page == e.page)
      && (PageMismatch in f.reasons <==> PageMismatch in run.values[j].reasons || c.page != e.page)
      && (f.iou.Some? <==> c.page == e.page)
      && (f.iou.Some? ==> f.iou.value * OverlapUnion.UnionArea(e.polygon, c.polygon)
                          == ConvexRings.Area(PolygonIoU.Intersection(e.polygon, c.polygon)))
  {
    hide OutcomeOf, FieldAt, Overlap, ConvexRings.Area, PolygonIoU.Intersection, OverlapUnion.UnionArea;
    var e, c := run.expected[k], run.values[j];
    ComparedOutcome(run, k, j);
    assert ValidExpected(e) && c in run.values && ValidCandidate(c);
    LonePlace(k + 1, e, c);
    OverlapIsScore(e, c);
  }

  lemma OverlapIsScore(e: ExpectedField, c: Candidate)
    requires ValidGeometry(e.geometry) && ValidGeometry(c.geometry)
    ensures var a, b := e.geometry.polygon, c.geometry.polygon;
      Overlap(e, c).Some? && Overlap(e, c).value * OverlapUnion.UnionArea(a, b) == ConvexRings.Area(PolygonIoU.Intersection(a, b))
  {
    hide ConvexRings.Area, PolygonIoU.Intersection, OverlapUnion.UnionArea, PolygonIoU.IoU, SimplePolygons.Within,
      PolygonSchema.PassesSchema;
    SimplePolygons.SchemaPolygonsScore(e.geometry.polygon, c.geometry.polygon);
  }

  lemma AskedReasons(order: nat, e: ExpectedField, cs: seq<Candidate>)
    requires !e.ignored && !e.handwriting && DuplicateField !in e.review
    ensures var f := OutcomeOf(Asked(order, e, cs));
      && (|cs| > 1 ==> f.reasons == e.review + {DuplicateField})
      && (cs == [] ==> f.reasons == e.review + {if e.required then MissingRequired else ValueMismatch})
  {
    hide Overlap, OutcomeForReasons, OrdersOf;
  }

  /** A field that is not compared says why: the bindings failed, no value has its key, or several have. */
  lemma UncomparedReasons(run: CaseRun, k: nat)
    requires ValidRun(run) && k < |run.expected| && !run.expected[k].ignored && !run.expected[k].handwriting
    ensures var e, f := run.expected[k], FieldAt(run, k);
      var bound := run.bindingsMatch && BindingMismatch !in run.runReasons;
      && (f.normalized.None? <==> !bound || NoneFor(run.values, e.key) || SeveralFor(run.values, e.key))
      && (bound && SeveralFor(run.values, e.key) ==> f.reasons == e.review + {DuplicateField})
      && (!bound || NoneFor(run.values, e.key) ==>
            f.reasons == e.review + {if e.required then MissingRequired else ValueMismatch})
  {
    hide OutcomeOf, FieldAt, CandidatesFor, ValidGeometry;
    var e, item := run.expected[k], AskedAt(run, k);
    assert ValidExpected(e);
    FieldIsOutcome(run, k);
    CandidatesAre(run.values, e.key);
    AskedIsLone(item.order, e, item.candidates);
    AskedReasons(item.order, e, item.candidates);
  }

  /** A field lists the orders of all values of its key, in the order of the run's values. */
  lemma OrdersAreListed(run: CaseRun, k: nat, places: seq<nat>)
    requires k < |run.expected| && PlacesOf(run.values, run.expected[k].key, places)
    ensures var bound := run.bindingsMatch && BindingMismatch !in run.runReasons;
      var orders := FieldAt(run, k).candidateOrders;
      && |orders| == (if bound then |places| else 0)
      && (bound ==> forall i :: 0 <= i < |places| ==> places[i] < |run.values| && orders[i] == run.values[places[i]].order)
  {
    hide OutcomeOf, FieldAt, CandidatesFor, PlacesOf;
    var e, item := run.expected[k], AskedAt(run, k);
    FieldIsOutcome(run, k);
    CandidatesInOrder(run.values, e.key, places);
    AskedOrders(item.order, e, item.candidates);
  }

  lemma AskedOrders(order: nat, e: ExpectedField, cs: seq<Candidate>)
    ensures var orders := OutcomeOf(Asked(order, e, cs)).candidateOrders;
      |orders| == |cs| && forall i :: 0 <= i < |cs| ==> orders[i] == cs[i].order
  {
    hide Overlap, OutcomeForReasons, FieldReasons;
  }

  /** A field counts as predicted missing when nothing, or one value that is itself missing, is there for it. */
  lemma MissingIff(run: CaseRun, k: nat)
    requires k < |run.expected|
    ensures var e, f := run.expected[k], FieldAt(run, k);
      var bound := run.bindingsMatch && BindingMismatch !in run.runReasons;
      && f.expectedMissing == Some(e.value.raw.None?) && f.candidateMissing.Some?
      && (f.candidateMissing.value <==>
            || !bound || NoneFor(run.values, e.key)
            || exists j: nat :: OnlyAt(run.values, e.key, j)
                 && (run.values[j].value.raw.None? || MissingRequired in run.values[j].reasons))
  {
    hide OutcomeOf, FieldAt, CandidatesFor, PredictedMissing;
    var e, item := run.expected[k], AskedAt(run, k);
    FieldIsOutcome(run, k);
    CandidatesAre(run.values, e.key);
    AskedMissing(item.order, e, item.candidates);
    if |item.candidates| == 1 {
      var j: nat :| OnlyAt(run.values, e.key, j);
    }
  }

  lemma AskedMissing(order: nat, e: ExpectedField, cs: seq<Candidate>)
    ensures var f := OutcomeOf(Asked(order, e, cs));
      && f.expectedMissing == Some(e.value.raw.None?)
      && f.candidateMissing == Some(
           cs == [] || (|cs| == 1 && (cs[0].value.raw.None? || MissingRequired in cs[0].reasons)))
  {
    hide Overlap, OutcomeForReasons, OrdersOf;
  }

  /** The field agrees with the run's only value for it in all but the raw text, and neither has anything to review. */
  ghost predicate Agrees(run: CaseRun, k: nat, j: nat)
    requires k < |run.expected|
  {
    var e := run.expected[k];
    && Compared(run, k, j)
    && var c := run.values[j];
       && c.value.kind == e.value.kind && c.value.normalized == e.value.normalized && c.value.unit == e.value.unit
       && c.applied <= e.allowed && c.geometry.page == e.geometry.page && e.review == {} && c.reasons == {}
  }

  predicate IsMatch(f: FieldOutcome) {
    f.outcome.Match? || f.outcome.NormalizedMatch?
  }

  lemma LoneMatch(order: nat, e: ExpectedField, c: Candidate)
    requires !e.ignored && !e.handwriting
    ensures var f := OutcomeOf(Asked(order, e, [c]));
      && (IsMatch(f) <==>
            c.value.kind == e.value.kind && c.value.normalized == e.value.normalized && c.value.unit == e.value.unit
            && c.applied <= e.allowed && c.geometry.page == e.geometry.page && e.review == {} && c.reasons == {})
      && (IsMatch(f) ==> (f.outcome.Match? <==> c.value.raw == e.value.raw))
  {
    hide Overlap, OrdersOf;
  }

  lemma UnmatchedAsked(order: nat, e: ExpectedField, cs: seq<Candidate>)
    requires HandwritingReferenceOnly in e.review <==> e.handwriting
    requires e.ignored || e.handwriting || |cs| != 1
    ensures !IsMatch(OutcomeOf(Asked(order, e, cs)))
  {
    hide Overlap, OrdersOf;
  }

  /** The scorer calls a field matched exactly when it agrees with the run's only value for it. */
  lemma MatchedIff(run: CaseRun, k: nat)
    requires ValidRun(run) && k < |run.expected|
    ensures IsMatch(FieldAt(run, k)) <==> exists j: nat :: Agrees(run, k, j)
    ensures forall j: nat | Agrees(run, k, j) ::
              FieldAt(run, k).outcome == if run.values[j].value.raw == run.expected[k].value.raw then Match else NormalizedMatch
  {
    hide OutcomeOf, FieldAt, CandidatesFor, ValidGeometry;
    var e, item := run.expected[k], AskedAt(run, k);
    assert ValidExpected(e);
    FieldIsOutcome(run, k);
    CandidatesAre(run.values, e.key);
    if e.ignored || e.handwriting || |item.candidates| != 1 {
      UnmatchedAsked(item.order, e, item.candidates);
    } else {
      var j: nat :| OnlyAt(run.values, e.key, j);
      assert Compared(run, k, j);
      LoneMatch(item.order, e, run.values[j]);
      assert IsMatch(FieldAt(run, k)) ==> Agrees(run, k, j);
    }
  }

  /** The outcome each reason asks for, the weightier first. */
  const WEIGHTS: seq<(Reason, OutcomeName)> := [
    (HandwritingReferenceOnly, HandwritingOutcome), (DuplicateField, DuplicateOutcome), (MissingRequired, MissingOutcome),
    (Unmapped, UnmappedOutcome), (LogicConflict, LogicConflictOutcome), (LowConfidence, LowConfidenceOutcome)]

  /** A field for review is named after its weightiest reason, or a mismatch if it has none with a name. */
  lemma NamedAfterWeightiest(run: CaseRun, k: nat, w: nat)
    requires k < |run.expected| && !run.expected[k].ignored && FieldAt(run, k).reasons != {}
    requires w <= |WEIGHTS| && forall i | 0 <= i < w :: WEIGHTS[i].0 !in FieldAt(run, k).reasons
    requires w < |WEIGHTS| ==> WEIGHTS[w].0 in FieldAt(run, k).reasons
    ensures FieldAt(run, k).outcome == if w < |WEIGHTS| then WEIGHTS[w].1 else Mismatch
  {
    hide OutcomeOf, FieldAt;
    FieldIsOutcome(run, k);
    var item := AskedAt(run, k);
    var reasons := FieldAt(run, k).reasons;
    ReviewedIsNamed(item.order, item.expected, item.candidates);
    FirstNamed(reasons, w);
  }

  lemma FirstNamed(reasons: set<Reason>, w: nat)
    requires w <= |WEIGHTS| && (forall i | 0 <= i < w :: WEIGHTS[i].0 !in reasons) && reasons != {}
    requires w < |WEIGHTS| ==> WEIGHTS[w].0 in reasons
    ensures OutcomeForReasons(reasons) == if w < |WEIGHTS| then WEIGHTS[w].1 else Mismatch
  {
    assert w > 0 ==> WEIGHTS[0].0 !in reasons;
    assert w > 1 ==> WEIGHTS[1].0 !in reasons;
    assert w > 2 ==> WEIGHTS[2].0 !in reasons;
    assert w > 3 ==> WEIGHTS[3].0 !in reasons;
    assert w > 4 ==> WEIGHTS[4].0 !in reasons;
    assert w > 5 ==> WEIGHTS[5].0 !in reasons;
  }

  lemma ReviewedIsNamed(order: nat, e: ExpectedField, cs: seq<Candidate>)
    requires !e.ignored
    ensures var f := OutcomeOf(Asked(order, e, cs)); f.reasons != {} ==> f.outcome == OutcomeForReasons(f.reasons)
  {
  }

  // ----- the rest of the case ----------------------------------------------------------

  lemma {:induction false} LeftoverMembers(values: seq<Candidate>, keys: set<Key>, item: Item)
    ensures item in UnaskedItems(values, keys) <==> item.Unasked? && item.candidate in values && item.candidate.key !in keys
    decreases values
  {
    if values != [] {
      var n := |values| - 1;
      LeftoverMembers(values[..n], keys, item);
      assert values == values[..n] + [values[n]];
    }
  }

  lemma {:induction false} ReasonsOfItems(items: seq<Item>, r: Reason)
    ensures r in ItemReasons(items) <==> exists i: nat :: i < |items| && r in OutcomeOf(items[i]).reasons
    decreases items
  {
    hide OutcomeOf;
    if items != [] {
      var n := |items| - 1;
      ReasonsOfItems(items[..n], r);
      if i: nat :| i < n && r in OutcomeOf(items[i]).reasons {
        assert items[..n][i] == items[i];
      }
    }
  }

  /** The reasons of the case: those of the run, a failed binding or document kind, and those of the emitted fields. */
  lemma CaseReasonsIff(run: CaseRun, r: Reason)
    ensures var p := Fold(run, ItemsOf(run));
      r in p.reasons <==>
        || r in run.runReasons || (r == BindingMismatch && !run.bindingsMatch)
        || (r == DocumentClassificationMismatch && !run.sameDocumentKind)
        || exists k: nat :: k < |p.fields| && r in p.fields[k].reasons
  {
    hide OutcomeOf, Fold;
    FoldFields(run, ItemsOf(run));
    FieldsMatchItems(run);
    ReasonsOfItems(ItemsOf(run), r);
  }

  /** The value is emitted as unmapped: under its own key and order, for review, with that reason and its own. */
  predicate IsUnmapped(f: FieldOutcome, c: Candidate) {
    && f.key == c.key && f.kind == c.value.kind && f.expectedOrder.None? && f.candidateOrders == [c.order]
    && f.outcome.UnmappedOutcome? && f.reasons == c.reasons + {Unmapped} && f.reviewRequired && f.escalationRequired
  }

  ghost predicate IsLeftover(run: CaseRun, f: FieldOutcome) {
    exists c :: Leftover(run, c) && IsUnmapped(f, c)
  }

  lemma UnaskedIsUnmapped(c: Candidate)
    ensures IsUnmapped(OutcomeOf(Unasked(c)), c)
  {
  }

  /** A value of the run that no golden field asks for. */
  ghost predicate Leftover(run: CaseRun, c: Candidate) {
    c in run.values && forall e | e in run.expected :: e.key != c.key
  }

  lemma LeftoverAt(run: CaseRun, k: nat) returns (c: Candidate)
    requires |run.expected| <= k < |ItemsOf(run)|
    ensures |Fold(run, ItemsOf(run)).fields| == |ItemsOf(run)|
    ensures Leftover(run, c) && IsUnmapped(Fold(run, ItemsOf(run)).fields[k], c)
  {
    hide OutcomeOf, Fold, IsUnmapped;
    var left := UnaskedItems(run.values, ExpectedKeys(run));
    FieldsMatchItems(run);
    var item := left[k - |run.expected|];
    assert item in left && ItemsOf(run)[k] == item;
    LeftoverMembers(run.values, ExpectedKeys(run), item);
    c := item.candidate;
    UnaskedIsUnmapped(c);
  }

  lemma LeftoverPlace(run: CaseRun, c: Candidate) returns (k: nat)
    requires Leftover(run, c)
    ensures |Fold(run, ItemsOf(run)).fields| == |ItemsOf(run)|
    ensures |run.expected| <= k < |ItemsOf(run)| && IsUnmapped(Fold(run, ItemsOf(run)).fields[k], c)
  {
    hide OutcomeOf, Fold, IsUnmapped;
    var left := UnaskedItems(run.values, ExpectedKeys(run));
    FieldsMatchItems(run);
    LeftoverMembers(run.values, ExpectedKeys(run), Unasked(c));
    var i :| 0 <= i < |left| && left[i] == Unasked(c);
    k := |run.expected| + i;
    assert ItemsOf(run)[k] == left[i];
    UnaskedIsUnmapped(c);
  }

  /** After the golden fields come the values whose key no golden field has, and nothing else. */
  lemma UnmappedIff(run: CaseRun, fields: seq<FieldOutcome>)
    requires fields == Fold(run, ItemsOf(run)).fields
    ensures |fields| >= |run.expected|
    ensures forall k: nat | |run.expected| <= k < |fields| :: IsLeftover(run, fields[k])
    ensures forall c | Leftover(run, c) :: exists k: nat | |run.expected| <= k < |fields| :: IsUnmapped(fields[k], c)
  {
    hide OutcomeOf, Fold, IsUnmapped, Leftover;
    FieldsMatchItems(run);
    forall k: nat | |run.expected| <= k < |fields|
      ensures IsLeftover(run, fields[k])
    {
      var c := LeftoverAt(run, k);
    }
    forall c | Leftover(run, c)
      ensures exists k: nat | |run.expected| <= k < |fields| :: IsUnmapped(fields[k], c)
    {
      var k := LeftoverPlace(run, c);
    }
  }
}
