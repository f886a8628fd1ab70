/** Whose numbers an item is judged on: what the approval repository reads from the tables, and what it does not. */
module PersistedReading {
  import opened Options
  import opened Rules
  import opened Finalization
  import opened FinalApproval
  import J = Judgment
  import Specs = SpecSelection

  // ----- the result an item is judged on -----------------------------------------------

  /** A live internal result of the case for the item. */
  predicate InternalRow(db: Db, inspection: CaseId, id: nat, r: ResultId) {
    && r in db.internalResults
    && var row := db.internalResults[r]; row.inspection == inspection && !row.deleted && row.specItem == id
  }

  /** A live supplier result of the case mapped to the item's test. */
  predicate SupplierRow(db: Db, inspection: CaseId, item: SpecItem, r: ResultId) {
    && r in db.supplierResults
    && var row := db.supplierResults[r]; row.inspection == inspection && !row.deleted && row.testItem == Some(item.testItem)
  }

  ghost predicate LowestInternal(db: Db, inspection: CaseId, id: nat, r: ResultId) {
    InternalRow(db, inspection, id, r) && forall other: nat | InternalRow(db, inspection, id, other) :: r <= other
  }

  ghost predicate LowestSupplier(db: Db, inspection: CaseId, item: SpecItem, r: ResultId) {
    SupplierRow(db, inspection, item, r) && forall other: nat | SupplierRow(db, inspection, item, other) :: r <= other
  }

  ghost predicate Ascends(ids: seq<nat>) {
    forall i, j :: 0 <= i < j < |ids| ==> ids[i] < ids[j]
  }

  lemma ConsAscends(m: nat, rest: seq<nat>)
    requires Ascends(rest) && forall x :: x in rest ==> m < x
    ensures Ascends([m] + rest)
  {
    var ids := [m] + rest;
    forall i, j | 0 <= i < j < |ids| ensures ids[i] < ids[j] {
      assert ids[j] == rest[j - 1] && rest[j - 1] in rest;
    }
  }

  lemma {:induction false} AscendingAscends(s: set<nat>)
    ensures Ascends(Ascending(s))
    decreases s
  {
    hide Ascends, Least;
    if s == {} {
      NothingAscends();
    } else {
      var m := Least(s);
      AscendingAscends(s - {m});
      ConsAscends(m, Ascending(s - {m}));
    }
  }

  lemma NothingAscends()
    ensures Ascends([])
  {
  }

  lemma FirstOfMembers(x: seq<nat>, y: seq<nat>)
    requires Ascends(x) && x != [] && y != [] && y[0] in x
    ensures x[0] <= y[0]
  {
    var k :| 0 <= k < |x| && x[k] == y[0];
  }

  lemma TailMembers(x: seq<nat>, n: nat)
    requires Ascends(x) && x != []
    ensures n in x[1..] <==> n in x && n != x[0]
  {
    assert x == [x[0]] + x[1..];
    if n in x[1..] {
      var k :| 0 <= k < |x[1..]| && x[1..][k] == n;
      assert x[k + 1] == n;
    }
  }

  lemma HasMember(y: seq<nat>)
    ensures y == [] || exists n: nat :: n in y
  {
    if y != [] {
      assert y[0] in y;
    }
  }

  /** Ascending lists with the same members are the same. */
  lemma {:induction false} SameAscending(x: seq<nat>, y: seq<nat>)
    requires Ascends(x) && Ascends(y) && forall n :: n in x <==> n in y
    ensures x == y
    decreases |x|
  {
    if x == [] {
      HasMember(y);
    } else {
      assert x[0] in y;
      FirstOfMembers(x, y);
      FirstOfMembers(y, x);
      forall n ensures n in x[1..] <==> n in y[1..] {
        TailMembers(x, n);
        TailMembers(y, n);
      }
      SameAscending(x[1..], y[1..]);
      assert x == [x[0]] + x[1..] && y == [y[0]] + y[1..];
    }
  }

  lemma AscendingIsUnique(s: set<nat>, ids: seq<nat>)
    requires Ascends(ids) && forall x :: x in ids <==> x in s
    ensures ids == Ascending(s)
  {
    hide Ascends, Ascending;
    AscendingAscends(s);
    assert forall x :: x in Ascending(s) <==> x in s;
    SameAscending(ids, Ascending(s));
  }

  lemma FirstIs(s: set<nat>, m: nat)
    requires IsLeast(s, m)
    ensures First(s) == Some(m)
  {
    assert IsLeast(s, Least(s));
  }

  lemma InternalIsLowest(db: Db, inspection: CaseId, id: nat)
    ensures forall r: nat | LowestInternal(db, inspection, id, r) :: InternalFor(EvidenceOf(db, inspection), id) == Some(r)
    ensures (forall r: nat :: !InternalRow(db, inspection, id, r)) ==> InternalFor(EvidenceOf(db, inspection), id) == None
    ensures var found := InternalFor(EvidenceOf(db, inspection), id); found.Some? ==> LowestInternal(db, inspection, id, found.value)
  {
    hide First, Least;
    var e := EvidenceOf(db, inspection);
    var s := set r | r in e.internals && !e.internals[r].deleted && e.internals[r].specItem == id;
    assert forall r: nat :: r in s <==> InternalRow(db, inspection, id, r);
    forall r: nat | LowestInternal(db, inspection, id, r) ensures First(s) == Some(r) {
      FirstIs(s, r);
    }
    NoneIsFirst(s);
  }

  lemma NoneIsFirst(s: set<nat>)
    ensures s == {} ==> First(s) == None
    ensures First(s).Some? ==> IsLeast(s, First(s).value)
  {
  }

  lemma SupplierIsLowest(db: Db, inspection: CaseId, item: SpecItem)
    ensures forall r: nat | LowestSupplier(db, inspection, item, r) :: SupplierFor(EvidenceOf(db, inspection), item) == Some(r)
    ensures (forall r: nat :: !SupplierRow(db, inspection, item, r)) ==> SupplierFor(EvidenceOf(db, inspection), item) == None
    ensures var found := SupplierFor(EvidenceOf(db, inspection), item); found.Some? ==> LowestSupplier(db, inspection, item, found.value)
  {
    hide First, Least;
    var e := EvidenceOf(db, inspection);
    var s := set r | r in e.suppliers && !e.suppliers[r].deleted && e.suppliers[r].testItem == Some(item.testItem);
    assert forall r: nat :: r in s <==> SupplierRow(db, inspection, item, r);
    forall r: nat | LowestSupplier(db, inspection, item, r) ensures First(s) == Some(r) {
      FirstIs(s, r);
    }
    NoneIsFirst(s);
  }

  // ----- the numbers of a result -------------------------------------------------------

  /** The samples of the internal result that have a number, in order. */
  ghost predicate InternalSamples(db: Db, r: ResultId, ids: seq<nat>) {
    Ascends(ids) && forall s: nat :: s in ids <==> s in db.samples && db.samples[s].internal == Some(r) && db.samples[s].value.Some?
  }

  ghost predicate SupplierSamples(db: Db, r: ResultId, ids: seq<nat>) {
    Ascends(ids) && forall s: nat :: s in ids <==> s in db.samples && db.samples[s].supplier == Some(r) && db.samples[s].value.Some?
  }

  /** The samples' numbers one by one, or, without samples, the result's own number if it has one. */
  predicate Reads(db: Db, ids: seq<nat>, own: Option<J.Raw>, values: seq<J.Raw>)
    requires forall s: nat :: s in ids ==> s in db.samples && db.samples[s].value.Some?
  {
    if ids == [] then values == (if own.Some? then [own.value] else [])
    else |values| == |ids| && forall k :: 0 <= k < |ids| ==> values[k] == db.samples[ids[k]].value.value
  }

  lemma {:induction false} NumbersAt(samples: map<SampleId, Sample>, ids: seq<nat>)
    requires forall i :: i in ids ==> i in samples && samples[i].value.Some?
    ensures var values := Numbers(samples, ids);
      |values| == |ids| && forall k :: 0 <= k < |ids| ==> values[k] == samples[ids[k]].value.value
  {
    if ids != [] {
      NumbersAt(samples, ids[1..]);
    }
  }

  lemma InternalNumbersRead(db: Db, inspection: CaseId, r: ResultId, ids: seq<nat>)
    requires r in db.internalResults && db.internalResults[r].inspection == inspection && InternalSamples(db, r, ids)
    ensures Reads(db, ids, db.internalResults[r].value, InternalNumbers(EvidenceOf(db, inspection), r))
  {
    hide Ascending, Numbers;
    var e := EvidenceOf(db, inspection);
    var s := set x | x in e.samples && e.samples[x].internal == Some(r) && e.samples[x].value.Some?;
    forall x ensures x in s <==> x in ids {
      assert x in ids ==> SampleOf(db, inspection, db.samples[x]);
    }
    AscendingIsUnique(s, ids);
    assert s == {} <==> ids == [] by {
      if ids != [] {
        assert ids[0] in s;
      }
    }
    NumbersAt(e.samples, ids);
  }

  lemma SupplierNumbersRead(db: Db, inspection: CaseId, r: ResultId, ids: seq<nat>)
    requires r in db.supplierResults && db.supplierResults[r].inspection == inspection && SupplierSamples(db, r, ids)
    ensures Reads(db, ids, db.supplierResults[r].value, SupplierNumbers(EvidenceOf(db, inspection), r))
  {
    hide Ascending, Numbers;
    var e := EvidenceOf(db, inspection);
    var s := set x | x in e.samples && e.samples[x].supplier == Some(r) && e.samples[x].value.Some?;
    forall x ensures x in s <==> x in ids {
      assert x in ids ==> SampleOf(db, inspection, db.samples[x]);
    }
    AscendingIsUnique(s, ids);
    assert s == {} <==> ids == [] by {
      if ids != [] {
        assert ids[0] in s;
      }
    }
    NumbersAt(e.samples, ids);
  }

  // ----- the item as it is judged ------------------------------------------------------

  /** What the judgment of an item is given. */
  function JudgedItem(db: Db, inspection: CaseId, id: nat): (input: J.Item)
    requires id in db.catalog.items
    ensures J.ItemOk(input)
  {
    InputFor(EvidenceOf(db, inspection), id)
  }

  /** The internal numbers are those of the item's first live internal result in the case, and of no other. */
  lemma InternalValuesAre(db: Db, inspection: CaseId, id: nat, r: ResultId, ids: seq<nat>)
    requires id in db.catalog.items && LowestInternal(db, inspection, id, r) && InternalSamples(db, r, ids)
    ensures var input := JudgedItem(db, inspection, id);
      input.rawInternalValues == [] && Reads(db, ids, db.internalResults[r].value, input.internalValues)
  {
    hide SupplierFor, SupplierNumbers, InternalFor, InternalNumbers, EvidenceOf, InternalSamples;
    InternalIsLowest(db, inspection, id);
    InternalNumbersRead(db, inspection, r, ids);
  }

  lemma NoInternalValues(db: Db, inspection: CaseId, id: nat)
    requires id in db.catalog.items && forall r: nat :: !InternalRow(db, inspection, id, r)
    ensures var input := JudgedItem(db, inspection, id); input.rawInternalValues == [] && input.internalValues == []
  {
    hide SupplierFor, SupplierNumbers, InternalFor, InternalNumbers, EvidenceOf;
    InternalIsLowest(db, inspection, id);
  }

  /** The supplier numbers and the mapping are those of the first live supplier result mapped to the item's test. */
  lemma SupplierValuesAre(db: Db, inspection: CaseId, id: nat, r: ResultId, ids: seq<nat>)
    requires id in db.catalog.items && LowestSupplier(db, inspection, db.catalog.items[id], r) && SupplierSamples(db, r, ids)
    ensures var input, row := JudgedItem(db, inspection, id), db.supplierResults[r];
      && input.rawSupplierValues == [] && Reads(db, ids, row.value, input.supplierValues)
      && input.mappingStatus == row.mapping
      && (input.mapped <==> row.mapping != J.Unmapped || db.catalog.items[id].sourcePolicy == J.InternalOnly)
  {
    hide InternalFor, InternalNumbers, SupplierFor, SupplierNumbers, SupplierSamples;
    SupplierIsLowest(db, inspection, db.catalog.items[id]);
    SupplierNumbersRead(db, inspection, r, ids);
  }

  lemma NoSupplierValues(db: Db, inspection: CaseId, id: nat)
    requires id in db.catalog.items && forall r: nat :: !SupplierRow(db, inspection, db.catalog.items[id], r)
    ensures var input := JudgedItem(db, inspection, id);
      && input.rawSupplierValues == [] && input.supplierValues == []
      && input.mappingStatus == (if db.catalog.items[id].sourcePolicy == J.InternalOnly then J.AliasMatched else J.Unmapped)
      && (input.mapped <==> db.catalog.items[id].sourcePolicy == J.InternalOnly)
  {
    hide InternalFor, InternalNumbers, SupplierFor, SupplierNumbers;
    SupplierIsLowest(db, inspection, db.catalog.items[id]);
  }

  lemma {:induction false} LowestExists(s: set<nat>)
    ensures s == {} || exists m :: IsLeast(s, m)
  {
    if y :| y in s {
      LeastExists(s, y);
    }
  }

  /** Something is read wherever there is something: the first live result and the list of its samples exist. */
  lemma InternalIsReadIff(db: Db, inspection: CaseId, id: nat)
    ensures (exists r: nat :: InternalRow(db, inspection, id, r)) <==>
            exists r: nat, ids :: LowestInternal(db, inspection, id, r) && InternalSamples(db, r, ids)
  {
    var rows := set r | r in db.internalResults && InternalRow(db, inspection, id, r);
    LowestExists(rows);
    if other: nat :| InternalRow(db, inspection, id, other) {
      assert other in rows && forall x: nat | InternalRow(db, inspection, id, x) :: x in rows;
      var r: nat :| IsLeast(rows, r);
      assert LowestInternal(db, inspection, id, r);
      var samples := set s | s in db.samples && db.samples[s].internal == Some(r) && db.samples[s].value.Some?;
      AscendingAscends(samples);
      assert InternalSamples(db, r, Ascending(samples));
    }
  }

  lemma SupplierIsReadIff(db: Db, inspection: CaseId, item: SpecItem)
    ensures (exists r: nat :: SupplierRow(db, inspection, item, r)) <==>
            exists r: nat, ids :: LowestSupplier(db, inspection, item, r) && SupplierSamples(db, r, ids)
  {
    var rows := set r | r in db.supplierResults && SupplierRow(db, inspection, item, r);
    LowestExists(rows);
    if other: nat :| SupplierRow(db, inspection, item, other) {
      assert other in rows && forall x: nat | SupplierRow(db, inspection, item, x) :: x in rows;
      var r: nat :| IsLeast(rows, r);
      assert LowestSupplier(db, inspection, item, r);
      var samples := set s | s in db.samples && db.samples[s].supplier == Some(r) && db.samples[s].value.Some?;
      AscendingAscends(samples);
      assert SupplierSamples(db, r, Ascending(samples));
    }
  }

  predicate NeedsInternal(policy: J.SourcePolicy) {
    policy == J.InternalOnly || policy == J.BothAllMustPass || policy == J.SupplierReferenceInternalFinal
  }

  /** Without a live internal result an item is on hold if its source policy needs one. */
  lemma MissingInternalHolds(db: Db, inspection: CaseId, id: nat)
    requires id in db.catalog.items && NeedsInternal(db.catalog.items[id].sourcePolicy)
    requires forall r: nat :: !InternalRow(db, inspection, id, r)
    ensures J.Judge(JudgedItem(db, inspection, id)) == OnHold
  {
    hide J.Judge, MappingFor, SupplierFor, SupplierNumbers, InternalFor, InternalNumbers;
    NoInternalValues(db, inspection, id);
    NoInternalNumbers(JudgedItem(db, inspection, id));
  }

  lemma NoInternalNumbers(item: J.Item)
    requires J.ItemOk(item) && item.internalRequired && item.rawInternalValues == [] && item.internalValues == []
    ensures J.Judge(item) == OnHold
  {
    hide J.Supplier, J.RuleFits;
    assert J.Either(item.rawInternalValues, item.internalValues) == [];
    assert J.Internal(item) == Some([]);
  }

  // ----- what does not count -----------------------------------------------------------

  /** The two databases hold the same of what bears on the item: its row, its live results and their samples. */
  ghost predicate AgreeOn(a: Db, b: Db, inspection: CaseId, id: nat) {
    && id in a.catalog.items && id in b.catalog.items && a.catalog.items[id] == b.catalog.items[id]
    && var item := a.catalog.items[id];
    && (forall r: nat :: InternalRow(a, inspection, id, r) <==> InternalRow(b, inspection, id, r))
    && (forall r: nat :: SupplierRow(a, inspection, item, r) <==> SupplierRow(b, inspection, item, r))
    && (forall r: nat | InternalRow(a, inspection, id, r) :: SameInternal(a, b, r))
    && (forall r: nat | SupplierRow(a, inspection, item, r) :: SameSupplier(a, b, r))
  }

  /** One number, and the same samples. */
  ghost predicate SameInternal(a: Db, b: Db, r: ResultId) {
    && r in a.internalResults && r in b.internalResults && a.internalResults[r].value == b.internalResults[r].value
    && forall s: nat :: SampleAt(a, s, None, Some(r)) == SampleAt(b, s, None, Some(r))
  }

  ghost predicate SameSupplier(a: Db, b: Db, r: ResultId) {
    && r in a.supplierResults && r in b.supplierResults && a.supplierResults[r].value == b.supplierResults[r].value
    && a.supplierResults[r].mapping == b.supplierResults[r].mapping
    && forall s: nat :: SampleAt(a, s, Some(r), None) == SampleAt(b, s, Some(r), None)
  }

  /** The number of a sample, if it measures that supplier or that internal result. */
  function SampleAt(db: Db, s: SampleId, supplier: Option<ResultId>, internal: Option<ResultId>): Option<J.Raw> {
    if s in db.samples && ((supplier.Some? && db.samples[s].supplier == supplier)
                           || (internal.Some? && db.samples[s].internal == internal)) then db.samples[s].value else None
  }

  lemma SameReading(a: Db, b: Db, ids: seq<nat>, own: Option<J.Raw>, x: seq<J.Raw>, y: seq<J.Raw>)
    requires forall s: nat :: s in ids ==> s in a.samples && a.samples[s].value.Some?
    requires forall s: nat :: s in ids ==> s in b.samples && b.samples[s].value == a.samples[s].value
    requires Reads(a, ids, own, x) && Reads(b, ids, own, y)
    ensures x == y
  {
  }

  lemma SameInternalNumbers(a: Db, b: Db, inspection: CaseId, id: nat, r: ResultId)
    requires InternalRow(a, inspection, id, r) && InternalRow(b, inspection, id, r) && SameInternal(a, b, r)
    ensures InternalNumbers(EvidenceOf(a, inspection), r) == InternalNumbers(EvidenceOf(b, inspection), r)
  {
    hide InternalNumbers, Reads, Ascending;
    var s := set x | x in a.samples && a.samples[x].internal == Some(r) && a.samples[x].value.Some?;
    var ids := Ascending(s);
    AscendingAscends(s);
    forall x ensures x in ids <==> x in b.samples && b.samples[x].internal == Some(r) && b.samples[x].value.Some? {
      assert SampleAt(a, x, None, Some(r)) == SampleAt(b, x, None, Some(r));
    }
    forall x | x in ids ensures x in b.samples && b.samples[x].value == a.samples[x].value {
      assert SampleAt(a, x, None, Some(r)) == SampleAt(b, x, None, Some(r));
    }
    InternalNumbersRead(a, inspection, r, ids);
    InternalNumbersRead(b, inspection, r, ids);
    SameReading(a, b, ids, a.internalResults[r].value, InternalNumbers(EvidenceOf(a, inspection), r),
                InternalNumbers(EvidenceOf(b, inspection), r));
  }

  lemma SameSupplierNumbers(a: Db, b: Db, inspection: CaseId, item: SpecItem, r: ResultId)
    requires SupplierRow(a, inspection, item, r) && SupplierRow(b, inspection, item, r) && SameSupplier(a, b, r)
    ensures SupplierNumbers(EvidenceOf(a, inspection), r) == SupplierNumbers(EvidenceOf(b, inspection), r)
  {
    hide SupplierNumbers, Reads, Ascending;
    var s := set x | x in a.samples && a.samples[x].supplier == Some(r) && a.samples[x].value.Some?;
    var ids := Ascending(s);
    AscendingAscends(s);
    forall x ensures x in ids <==> x in b.samples && b.samples[x].supplier == Some(r) && b.samples[x].value.Some? {
      assert SampleAt(a, x, Some(r), None) == SampleAt(b, x, Some(r), None);
    }
    forall x | x in ids ensures x in b.samples && b.samples[x].value == a.samples[x].value {
      assert SampleAt(a, x, Some(r), None) == SampleAt(b, x, Some(r), None);
    }
    SupplierNumbersRead(a, inspection, r, ids);
    SupplierNumbersRead(b, inspection, r, ids);
    SameReading(a, b, ids, a.supplierResults[r].value, SupplierNumbers(EvidenceOf(a, inspection), r),
                SupplierNumbers(EvidenceOf(b, inspection), r));
  }

  lemma SameInternalResult(a: Db, b: Db, inspection: CaseId, id: nat)
    requires AgreeOn(a, b, inspection, id)
    ensures InternalFor(EvidenceOf(a, inspection), id) == InternalFor(EvidenceOf(b, inspection), id)
    ensures InternalsOf(EvidenceOf(a, inspection), id) == InternalsOf(EvidenceOf(b, inspection), id)
  {
    hide InternalNumbers, InternalFor;
    var e := EvidenceOf(a, inspection);
    InternalIsLowest(a, inspection, id);
    InternalIsLowest(b, inspection, id);
    if InternalFor(e, id).Some? {
      assert LowestInternal(b, inspection, id, InternalFor(e, id).value);
      SameInternalNumbers(a, b, inspection, id, InternalFor(e, id).value);
    }
  }

  lemma SameSupplierResult(a: Db, b: Db, inspection: CaseId, id: nat)
    requires AgreeOn(a, b, inspection, id)
    ensures var item := a.catalog.items[id];
      var e, f := EvidenceOf(a, inspection), EvidenceOf(b, inspection);
      && SupplierFor(e, item) == SupplierFor(f, item) && SuppliersOf(e, id) == SuppliersOf(f, id)
      && MappingFor(e, item) == MappingFor(f, item)
  {
    hide SupplierNumbers, SupplierFor;
    var item := a.catalog.items[id];
    var e := EvidenceOf(a, inspection);
    SupplierIsLowest(a, inspection, item);
    SupplierIsLowest(b, inspection, item);
    if SupplierFor(e, item).Some? {
      assert LowestSupplier(b, inspection, item, SupplierFor(e, item).value);
      SameSupplierNumbers(a, b, inspection, item, SupplierFor(e, item).value);
    }
  }

  /** Nothing else bears on the item: other cases, other items' results, deleted results and their samples do not. */
  lemma OthersDoNotCount(a: Db, b: Db, inspection: CaseId, id: nat)
    requires AgreeOn(a, b, inspection, id)
    ensures JudgedItem(a, inspection, id) == JudgedItem(b, inspection, id)
  {
    hide SupplierNumbers, InternalNumbers, SupplierFor, InternalFor, MappingFor, AgreeOn;
    SameInternalResult(a, b, inspection, id);
    SameSupplierResult(a, b, inspection, id);
    ItemsOfEvidence(a, b, inspection, id);
  }

  lemma ItemsOfEvidence(a: Db, b: Db, inspection: CaseId, id: nat)
    requires AgreeOn(a, b, inspection, id)
    ensures EvidenceOf(a, inspection).items == a.catalog.items && EvidenceOf(b, inspection).items == b.catalog.items
    ensures id in a.catalog.items && id in b.catalog.items && a.catalog.items[id] == b.catalog.items[id]
  {
  }

  // ----- the case ----------------------------------------------------------------------

  /** A live item of the case's specification. */
  predicate ItemOf(db: Db, inspection: CaseId, id: nat) {
    && inspection in db.cases && id in db.catalog.items
    && db.catalog.items[id].spec == db.cases[inspection].spec && !db.catalog.items[id].deleted
  }

  /** The case has a candidate decision exactly when it has items, and every item's rule is valid. */
  lemma CandidateIff(db: Db, inspection: CaseId)
    ensures Candidate(db, inspection).Some? <==>
      (exists id :: ItemOf(db, inspection, id)) && forall id | ItemOf(db, inspection, id) :: Valid(db.catalog.items[id].rule)
    ensures Candidate(db, inspection).Some? ==>
      (Candidate(db, inspection) == Some(Accepted) <==>
         forall id | ItemOf(db, inspection, id) :: J.Judge(JudgedItem(db, inspection, id)) == Accepted)
    ensures Candidate(db, inspection).Some? ==>
      (Candidate(db, inspection) == Some(OnHold) <==>
         exists id | ItemOf(db, inspection, id) :: J.Judge(JudgedItem(db, inspection, id)) == OnHold)
  {
    hide J.Judge, Ascending, InputFor, J.EvaluateCase, Valid;
    if inspection in db.cases {
      var e, spec := EvidenceOf(db, inspection), db.cases[inspection].spec;
      var ids := LiveItems(e, spec);
      assert forall id :: id in ids <==> ItemOf(db, inspection, id);
      if PersistedInputs(e, spec).Some? {
        var order := Ascending(ids);
        var inputs := Inputs(e, order);
        JudgedTogether(db, inspection, order, inputs);
      }
    }
  }

  lemma JudgedTogether(db: Db, inspection: CaseId, order: seq<nat>, inputs: seq<J.Item>)
    requires order != [] && |inputs| == |order| && forall id :: id in order <==> ItemOf(db, inspection, id)
    requires forall k :: 0 <= k < |order| ==> order[k] in db.catalog.items && inputs[k] == JudgedItem(db, inspection, order[k])
    ensures J.ItemsOk(inputs)
    ensures J.EvaluateCase(inputs) == Accepted <==>
              forall id | ItemOf(db, inspection, id) :: J.Judge(JudgedItem(db, inspection, id)) == Accepted
    ensures J.EvaluateCase(inputs) == OnHold <==>
              exists id | ItemOf(db, inspection, id) :: J.Judge(JudgedItem(db, inspection, id)) == OnHold
  {
    hide J.Judge, JudgedItem, J.EvaluateCase, ItemOf, J.Ready, J.SomeSourceAccepted;
    J.CaseAcceptedIff(inputs);
    J.CaseFailsClosed(inputs);
    forall k | 0 <= k < |order| ensures ItemOf(db, inspection, order[k]) {
      assert order[k] in order;
    }
  }

  /** The item is judged accepted, with everything in place and non-empty accepted samples of its own. */
  predicate SoundlyAccepted(db: Db, inspection: CaseId, id: nat)
    requires id in db.catalog.items
  {
    var item := JudgedItem(db, inspection, id);
    J.Judge(item) == Accepted && J.Ready(item) && J.SomeSourceAccepted(item)
  }

  lemma AcceptedIsSound(db: Db, inspection: CaseId, id: nat)
    requires id in db.catalog.items && J.Judge(JudgedItem(db, inspection, id)) == Accepted
    ensures SoundlyAccepted(db, inspection, id)
  {
    hide J.Judge, J.Ready, J.SomeSourceAccepted, JudgedItem;
    J.AcceptedHasSamples(JudgedItem(db, inspection, id));
  }

  /** A case finalized as accepted has items, and every one of them is judged accepted on its own samples. */
  lemma AcceptedCaseIsJudged(db: Db, q: Request)
    requires PlanOf(db, q).Ready? && q.decision == AcceptedState
    ensures exists id :: ItemOf(db, q.inspection, id)
    ensures forall id | ItemOf(db, q.inspection, id) :: SoundlyAccepted(db, q.inspection, id)
  {
    hide PlanFor, Candidate, J.Judge, SoundlyAccepted, JudgedItem, Check;
    PlanFacts(db, q, Candidate(db, q.inspection));
    RefusedUnlessAccepted(db, q, Candidate(db, q.inspection));
    CandidateIff(db, q.inspection);
    forall id | ItemOf(db, q.inspection, id) ensures SoundlyAccepted(db, q.inspection, id) {
      AcceptedIsSound(db, q.inspection, id);
    }
  }
}
