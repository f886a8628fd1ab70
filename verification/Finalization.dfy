/** Inspection cases and their evidence: guarded statements, transactions, and the deferred finalization check. */
module Finalization {
  import opened Options
  import opened RowChanges
  import opened Rules
  import opened Whitespace
  import D = DatabaseJson
  import J = Judgment
  import Json = JsonText
  import Specs = SpecSelection

  type CaseId = nat
  type ResultId = nat
  type SampleId = nat
  type ActorId = nat

  datatype State = Draft | DocumentPending | MatchReview | SupplierReview | InternalTestPending | ReadyForReview
                 | LeadReview | Returned | AcceptedState | RejectedState | Retest | SpecialAccepted | OnHoldState
                 | Closed | Cancelled

  /** The state's name in stored rows. */
  function StateText(s: State): string {
    match s
    case Draft => "DRAFT"
    case DocumentPending => "DOCUMENT_PENDING"
    case MatchReview => "MATCH_REVIEW"
    case SupplierReview => "SUPPLIER_REVIEW"
    case InternalTestPending => "INTERNAL_TEST_PENDING"
    case ReadyForReview => "READY_FOR_REVIEW"
    case LeadReview => "LEAD_REVIEW"
    case Returned => "RETURNED"
    case AcceptedState => "ACCEPTED"
    case RejectedState => "REJECTED"
    case Retest => "RETEST"
    case SpecialAccepted => "SPECIAL_ACCEPTED"
    case OnHoldState => "ON_HOLD"
    case Closed => "CLOSED"
    case Cancelled => "CANCELLED"
  }

  predicate IsCandidateDecision(s: State) {
    s == AcceptedState || s == RejectedState || s == OnHoldState
  }

  predicate IsFinalDecision(s: State) {
    IsCandidateDecision(s) || s == Retest || s == SpecialAccepted
  }

  datatype Case = Case(allocation: nat, spec: nat, status: State, candidate: Option<State>, final: Option<State>,
                       submittedBy: Option<ActorId>, version: nat, deleted: bool)

  /** Numbers are kept as they are read back: a value whose text is not plain is no canonical decimal. */
  datatype SupplierResult = SupplierResult(inspection: CaseId, testItem: Option<nat>, value: Option<J.Raw>,
                                           mapping: J.MappingStatus, deleted: bool)
  datatype InternalResult = InternalResult(inspection: CaseId, specItem: nat, value: Option<J.Raw>, deleted: bool)
  datatype Sample = Sample(supplier: Option<ResultId>, internal: Option<ResultId>, index: nat, value: Option<J.Raw>)

  datatype Approval = Approval(inspection: CaseId, actor: ActorId)
  datatype Audit = Audit(inspection: CaseId, action: string, reason: Option<string>)
  datatype Event = Event(topic: string, inspection: CaseId)

  datatype Allocation = Allocation(receipt: nat, lot: nat, model: Option<nat>, deleted: bool)
  datatype Receipt = Receipt(date: Specs.Date, deleted: bool)
  datatype Lot = Lot(material: nat, supplier: nat, canonical: bool, merged: bool)
  datatype Model = Model(material: nat, deleted: bool)

  datatype SpecItem = SpecItem(spec: nat, testItem: nat, rule: Rule, sourcePolicy: J.SourcePolicy,
                               missingPolicy: J.MissingPolicy, samplePolicy: J.SamplePolicy, precision: nat, deleted: bool)

  datatype Catalog = Catalog(allocations: map<nat, Allocation>, receipts: map<nat, Receipt>, lots: map<nat, Lot>,
                             models: map<nat, Model>, specs: seq<Specs.Spec>, items: map<nat, SpecItem>)

  datatype Db = Db(cases: map<CaseId, Case>, supplierResults: map<ResultId, SupplierResult>,
                   internalResults: map<ResultId, InternalResult>, samples: map<SampleId, Sample>,
                   snapshots: map<CaseId, D.Row>, approvals: set<Approval>, audits: set<Audit>, events: set<Event>,
                   catalog: Catalog, setup: D.Setup)

  /** Snapshots, approvals, audits and events can only be added; every other statement on them is refused. */
  datatype Statement =
    | OnCase(inspection: CaseId, caseChange: Change<Case>)
    | OnSupplierResult(supplierResult: ResultId, supplierChange: Change<SupplierResult>)
    | OnInternalResult(internalResult: ResultId, internalChange: Change<InternalResult>)
    | OnSample(sample: SampleId, sampleChange: Change<Sample>)
    | AddSnapshot(snapshotOf: CaseId, snapshot: D.Row)
    | AddApproval(approval: Approval)
    | AddAudit(audit: Audit)
    | AddEvent(event: Event)
    | SetCatalog(catalog: Catalog)

  // ----- statements --------------------------------------------------------------------

  predicate IsFinal(db: Db, inspection: Option<CaseId>) {
    inspection.Some? && inspection.value in db.cases && db.cases[inspection.value].final.Some?
  }

  function SupplierCase(db: Db, result: Option<ResultId>): Option<CaseId> {
    if result.Some? && result.value in db.supplierResults then Some(db.supplierResults[result.value].inspection) else None
  }

  function InternalCase(db: Db, result: Option<ResultId>): Option<CaseId> {
    if result.Some? && result.value in db.internalResults then Some(db.internalResults[result.value].inspection) else None
  }

  /** The case of a sample: that of its internal result, else that of its supplier result. */
  function SampleCase(db: Db, sample: Sample): Option<CaseId> {
    if InternalCase(db, sample.internal).Some? then InternalCase(db, sample.internal) else SupplierCase(db, sample.supplier)
  }

  predicate CaseRowOk(row: Case) {
    && (row.candidate.Some? ==> IsCandidateDecision(row.candidate.value))
    && (row.final.Some? ==> IsFinalDecision(row.final.value))
  }

  predicate CaseAllowed(db: Db, id: CaseId, change: Change<Case>) {
    && Applies(db.cases, id, change) && (!change.Delete? ==> CaseRowOk(change.row))
    && (change.Insert? ==> change.row.final.None?)
    && (!change.Insert? ==> db.cases[id].final.None?)
    && (change.Update? ==> change.row.version == db.cases[id].version + 1)
  }

  predicate SupplierAllowed(db: Db, id: ResultId, change: Change<SupplierResult>) {
    && Applies(db.supplierResults, id, change)
    && (!change.Insert? ==> !IsFinal(db, Some(db.supplierResults[id].inspection)))
    && (!change.Delete? ==> !IsFinal(db, Some(change.row.inspection)))
  }

  predicate InternalAllowed(db: Db, id: ResultId, change: Change<InternalResult>) {
    && Applies(db.internalResults, id, change)
    && (!change.Insert? ==> !IsFinal(db, Some(db.internalResults[id].inspection)))
    && (!change.Delete? ==> !IsFinal(db, Some(change.row.inspection)))
  }

  /** A sample belongs to exactly one result. */
  predicate SampleRowOk(row: Sample) {
    row.supplier.Some? != row.internal.Some?
  }

  predicate SampleGuardPasses(db: Db, id: SampleId, change: Change<Sample>)
    requires Applies(db.samples, id, change)
  {
    && (!change.Insert? ==> !IsFinal(db, SampleCase(db, db.samples[id])))
    && (!change.Delete? ==> !IsFinal(db, SampleCase(db, change.row)))
  }

  predicate SampleAllowed(db: Db, id: SampleId, change: Change<Sample>) {
    Applies(db.samples, id, change) && SampleGuardPasses(db, id, change) && (!change.Delete? ==> SampleRowOk(change.row))
  }

  predicate Allowed(db: Db, s: Statement) {
    match s
    case OnCase(id, change) => CaseAllowed(db, id, change)
    case OnSupplierResult(id, change) => SupplierAllowed(db, id, change)
    case OnInternalResult(id, change) => InternalAllowed(db, id, change)
    case OnSample(id, change) => SampleAllowed(db, id, change)
    case AddSnapshot(id, snapshot) => id !in db.snapshots && D.RowAccepted(db.setup, snapshot)
    case _ => true
  }

  /** Deleting a case that is not finalized is skipped: the guard lets no row through. */
  function Written(db: Db, s: Statement): Db {
    match s
    case OnCase(id, change) => if change.Delete? then db else db.(cases := Apply(db.cases, id, change))
    case OnSupplierResult(id, change) => db.(supplierResults := Apply(db.supplierResults, id, change))
    case OnInternalResult(id, change) => db.(internalResults := Apply(db.internalResults, id, change))
    case OnSample(id, change) => db.(samples := Apply(db.samples, id, change))
    case AddSnapshot(id, snapshot) => db.(snapshots := db.snapshots[id := snapshot])
    case AddApproval(approval) => db.(approvals := db.approvals + {approval})
    case AddAudit(audit) => db.(audits := db.audits + {audit})
    case AddEvent(event) => db.(events := db.events + {event})
    case SetCatalog(catalog) => db.(catalog := catalog)
  }

  // ----- the deferred check ------------------------------------------------------------

  /** A case that got its final decision: its row before and after. */
  datatype Finalized = Finalized(inspection: CaseId, before: Case, after: Case)

  function Finalizes(db: Db, s: Statement): seq<Finalized> {
    if s.OnCase? && s.caseChange.Update? && s.caseChange.row.final.Some? && s.inspection in db.cases then
      [Finalized(s.inspection, db.cases[s.inspection], s.caseChange.row)]
    else []
  }

  predicate HasReason(db: Db, id: CaseId) {
    exists a :: a in db.audits && a.inspection == id && a.action == "FINALIZE" && a.reason.Some? && !OnlySpaces(a.reason.value)
  }

  predicate ApprovedByAnother(db: Db, id: CaseId, submitter: ActorId) {
    exists a :: a in db.approvals && a.inspection == id && a.actor != submitter
  }

  /** The case's snapshot records this candidate decision, and its hash is that of its own canonical text. */
  predicate SnapshotHolds(db: Db, id: CaseId, candidate: State) {
    && id in db.snapshots && D.OverallOf(db.snapshots[id].payload) == Some(Json.Str(StateText(candidate)))
    && D.HashMatches(db.setup, db.snapshots[id])
  }

  function NeedOf(lot: Lot, model: Option<nat>, when: Specs.Date): Specs.Need {
    Specs.Need(lot.material, Some(lot.supplier), model, when)
  }

  /** The bound specification is the preferred active one for the case's lot, and the lot is canonical. */
  predicate SpecClause(c: Catalog, row: Case) {
    && row.allocation in c.allocations
    && var a := c.allocations[row.allocation];
    && a.receipt in c.receipts && a.lot in c.lots && c.lots[a.lot].canonical && !c.lots[a.lot].merged
    && Specs.TriggerAccepts(c.specs, NeedOf(c.lots[a.lot], a.model, c.receipts[a.receipt].date), row.spec)
  }

  predicate FinalizationHolds(db: Db, f: Finalized) {
    && f.before.final.None? && f.before.status == LeadReview && f.after.final == Some(f.after.status)
    && f.after.candidate.Some? && f.after.submittedBy.Some?
    && SnapshotHolds(db, f.inspection, f.after.candidate.value)
    && ApprovedByAnother(db, f.inspection, f.after.submittedBy.value)
    && !(f.after.candidate != Some(AcceptedState) && f.after.final == Some(AcceptedState))
    && (f.after.final != f.after.candidate ==> HasReason(db, f.inspection))
    && SpecClause(db.catalog, f.after)
    && (exists a :: a in db.audits && a.inspection == f.inspection && a.action == "FINALIZE")
    && Event("inspection.finalized", f.inspection) in db.events
  }

  /** The statements of a transaction, one after the other; none when one is refused. */
  function Attempt(db: Db, statements: seq<Statement>): Option<(Db, seq<Finalized>)> {
    if statements == [] then Some((db, []))
    else
      var n := |statements| - 1;
      match Attempt(db, statements[..n])
      case None => None
      case Some((mid, finalized)) =>
        if Allowed(mid, statements[n]) then Some((Written(mid, statements[n]), finalized + Finalizes(mid, statements[n])))
        else None
  }

  /** A transaction commits when no statement is refused and every finalization passes the deferred check. */
  function Commit(db: Db, statements: seq<Statement>): Option<Db> {
    match Attempt(db, statements)
    case None => None
    case Some((after, finalized)) =>
      if forall f :: f in finalized ==> FinalizationHolds(after, f) then Some(after) else None
  }

  function Transact(db: Db, statements: seq<Statement>): Db {
    match Commit(db, statements) case None => db case Some(after) => after
  }

  function RunAll(db: Db, transactions: seq<seq<Statement>>): Db {
    if transactions == [] then db
    else Transact(RunAll(db, transactions[..|transactions| - 1]), transactions[|transactions| - 1])
  }

  function Empty(setup: D.Setup): Db {
    Db(map[], map[], map[], map[], map[], {}, {}, {}, Catalog(map[], map[], map[], map[], [], map[]), setup)
  }

  class CaseTables {
    var db: Db

    constructor (setup: D.Setup)
      ensures db == Empty(setup)
    {
      db := Empty(setup);
    }

    /** Refuses to touch evidence of a finalized case, by the case before and the case after. */
    method EvidenceGuard(before: Option<CaseId>, after: Option<CaseId>) returns (raised: bool)
      ensures raised == (IsFinal(db, before) || IsFinal(db, after))
    {
      var caseIds: set<CaseId> := {};
      if before.Some? {
        caseIds := caseIds + {before.value};
      }
      if after.Some? {
        caseIds := caseIds + {after.value};
      }
      return exists id :: id in caseIds && id in db.cases && db.cases[id].final.Some?;
    }

    method GuardSample(id: SampleId, change: Change<Sample>) returns (raised: bool)
      requires Applies(db.samples, id, change)
      ensures raised == !SampleGuardPasses(db, id, change)
    {
      var before, after: Option<CaseId> := None, None;
      if !change.Insert? {
        before := SampleCase(db, db.samples[id]);
      }
      if !change.Delete? {
        after := SampleCase(db, change.row);
      }
      raised := EvidenceGuard(before, after);
    }

    /** Runs a transaction; a refused statement or a failed deferred check rolls everything back. */
    method Execute(statements: seq<Statement>) returns (committed: bool)
      modifies this
      ensures db == Transact(old(db), statements) && committed == Commit(old(db), statements).Some?
    {
      var start := db;
      var finalized: seq<Finalized> := [];
      for i := 0 to |statements|
        invariant Attempt(start, statements[..i]) == Some((db, finalized))
      {
        assert statements[..i + 1][..i] == statements[..i];
        if !Allowed(db, statements[i]) {
          RefusedForGood(start, statements, i + 1);
          db := start;
          return false;
        }
        finalized := finalized + Finalizes(db, statements[i]);
        db := Written(db, statements[i]);
      }
      assert statements[..|statements|] == statements;
      if exists f :: f in finalized && !FinalizationHolds(db, f) {
        db := start;
        return false;
      }
      return true;
    }
  }

  /** A refused statement refuses the whole transaction. */
  lemma {:induction false} RefusedForGood(db: Db, statements: seq<Statement>, i: nat)
    requires i <= |statements| && Attempt(db, statements[..i]).None?
    ensures Attempt(db, statements).None?
    decreases |statements|
  {
    if i == |statements| {
      assert statements[..i] == statements;
    } else {
      var n := |statements| - 1;
      assert statements[..n][..i] == statements[..i];
      RefusedForGood(db, statements[..n], i);
    }
  }

  // ----- what stays sealed -------------------------------------------------------------

  /** What every finalized case carries for good. */
  predicate Sealed(db: Db, id: CaseId, row: Case) {
    && row.final == Some(row.status) && row.candidate.Some? && row.submittedBy.Some?
    && SnapshotHolds(db, id, row.candidate.value)
    && ApprovedByAnother(db, id, row.submittedBy.value)
    && !(row.candidate != Some(AcceptedState) && row.final == Some(AcceptedState))
    && (row.final != row.candidate ==> HasReason(db, id))
  }

  predicate AllSealed(db: Db) {
    forall id :: id in db.cases && db.cases[id].final.Some? ==> Sealed(db, id, db.cases[id])
  }

  /** Every finalized case is sealed already or was finalized by this transaction. */
  predicate SealedOrPending(db: Db, finalized: seq<Finalized>) {
    forall id :: id in db.cases && db.cases[id].final.Some? ==>
      Sealed(db, id, db.cases[id]) || exists f :: f in finalized && f.inspection == id && f.after == db.cases[id]
  }

  lemma HistoryGrows(db: Db, s: Statement, id: CaseId, row: Case)
    requires Allowed(db, s) && Sealed(db, id, row)
    ensures Sealed(Written(db, s), id, row)
  {
    var a :| a in db.approvals && a.inspection == id && a.actor != row.submittedBy.value;
    assert a in Written(db, s).approvals;
    if row.final != row.candidate {
      var e :| e in db.audits && e.inspection == id && e.action == "FINALIZE" && e.reason.Some? && !OnlySpaces(e.reason.value);
      assert e in Written(db, s).audits;
    }
  }

  lemma StatementKeepsSealed(db: Db, s: Statement, finalized: seq<Finalized>)
    requires Allowed(db, s) && SealedOrPending(db, finalized)
    ensures SealedOrPending(Written(db, s), finalized + Finalizes(db, s))
  {
    var after, more := Written(db, s), finalized + Finalizes(db, s);
    forall id | id in after.cases && after.cases[id].final.Some?
      ensures Sealed(after, id, after.cases[id]) || exists f :: f in more && f.inspection == id && f.after == after.cases[id]
    {
      if id in db.cases && db.cases[id] == after.cases[id] {
        if Sealed(db, id, db.cases[id]) {
          HistoryGrows(db, s, id, db.cases[id]);
        } else {
          var f :| f in finalized && f.inspection == id && f.after == db.cases[id];
          assert f in more;
        }
      } else {
        var f := Finalized(id, db.cases[id], after.cases[id]);
        assert Finalizes(db, s) == [f];
        assert more[|finalized|] == f;
      }
    }
  }

  lemma {:induction false} AttemptKeepsSealed(db: Db, statements: seq<Statement>)
    requires AllSealed(db) && Attempt(db, statements).Some?
    ensures SealedOrPending(Attempt(db, statements).value.0, Attempt(db, statements).value.1)
  {
    if statements != [] {
      var n := |statements| - 1;
      AttemptKeepsSealed(db, statements[..n]);
      var (mid, finalized) := Attempt(db, statements[..n]).value;
      StatementKeepsSealed(mid, statements[n], finalized);
    }
  }

  lemma CommitKeepsSealed(db: Db, statements: seq<Statement>)
    requires AllSealed(db)
    ensures AllSealed(Transact(db, statements))
  {
    if Commit(db, statements).Some? {
      AttemptKeepsSealed(db, statements);
    }
  }

  /** In every database a sequence of transactions reaches, every finalized case is sealed. */
  lemma {:induction false} ReachedCasesAreSealed(setup: D.Setup, transactions: seq<seq<Statement>>)
    ensures AllSealed(RunAll(Empty(setup), transactions))
  {
    if transactions != [] {
      ReachedCasesAreSealed(setup, transactions[..|transactions| - 1]);
      CommitKeepsSealed(RunAll(Empty(setup), transactions[..|transactions| - 1]), transactions[|transactions| - 1]);
    }
  }

  // ----- what stays frozen -------------------------------------------------------------

  function SupplierResultsOf(db: Db, id: CaseId): map<ResultId, SupplierResult> {
    map r | r in db.supplierResults && db.supplierResults[r].inspection == id :: db.supplierResults[r]
  }

  function InternalResultsOf(db: Db, id: CaseId): map<ResultId, InternalResult> {
    map r | r in db.internalResults && db.internalResults[r].inspection == id :: db.internalResults[r]
  }

  /** The sample measures a result of the case. */
  predicate SampleOf(db: Db, id: CaseId, sample: Sample) {
    || (sample.supplier.Some? && sample.supplier.value in SupplierResultsOf(db, id))
    || (sample.internal.Some? && sample.internal.value in InternalResultsOf(db, id))
  }

  function SamplesOf(db: Db, id: CaseId): map<SampleId, Sample> {
    map s | s in db.samples && SampleOf(db, id, db.samples[s]) :: db.samples[s]
  }

  predicate SameEvidence(a: Db, b: Db, id: CaseId) {
    && id in a.cases && id in b.cases && a.cases[id] == b.cases[id]
    && SupplierResultsOf(a, id) == SupplierResultsOf(b, id) && InternalResultsOf(a, id) == InternalResultsOf(b, id)
    && SamplesOf(a, id) == SamplesOf(b, id)
  }

  predicate SamplesOk(db: Db) {
    forall s :: s in db.samples ==> SampleRowOk(db.samples[s])
  }

  lemma SampleOfIsSampleCase(db: Db, id: CaseId, sample: Sample)
    requires SampleRowOk(sample)
    ensures SampleOf(db, id, sample) <==> SampleCase(db, sample) == Some(id)
  {
  }

  lemma SameResultsSameSamples(a: Db, b: Db, id: CaseId)
    requires SupplierResultsOf(a, id) == SupplierResultsOf(b, id) && InternalResultsOf(a, id) == InternalResultsOf(b, id)
    ensures forall sample :: SampleOf(a, id, sample) <==> SampleOf(b, id, sample)
  {
  }

  lemma SampleStatementKeepsEvidence(db: Db, s: SampleId, change: Change<Sample>, id: CaseId)
    requires SamplesOk(db) && IsFinal(db, Some(id)) && Allowed(db, OnSample(s, change))
    ensures SameEvidence(db, Written(db, OnSample(s, change)), id)
  {
    var after := Written(db, OnSample(s, change));
    assert SupplierResultsOf(db, id) == SupplierResultsOf(after, id);
    assert InternalResultsOf(db, id) == InternalResultsOf(after, id);
    SameResultsSameSamples(db, after, id);
    if !change.Insert? {
      SampleOfIsSampleCase(db, id, db.samples[s]);
    }
    if !change.Delete? {
      SampleOfIsSampleCase(db, id, change.row);
    }
    assert SamplesOf(db, id) == SamplesOf(after, id);
  }

  lemma ResultStatementKeepsEvidence(db: Db, s: Statement, id: CaseId)
    requires IsFinal(db, Some(id)) && Allowed(db, s) && (s.OnSupplierResult? || s.OnInternalResult?)
    ensures SameEvidence(db, Written(db, s), id)
  {
    var after := Written(db, s);
    assert SupplierResultsOf(db, id) == SupplierResultsOf(after, id);
    assert InternalResultsOf(db, id) == InternalResultsOf(after, id);
    SameResultsSameSamples(db, after, id);
    assert SamplesOf(db, id) == SamplesOf(after, id);
  }

  lemma StatementKeepsEvidence(db: Db, s: Statement, id: CaseId)
    requires SamplesOk(db) && IsFinal(db, Some(id)) && Allowed(db, s)
    ensures SamplesOk(Written(db, s)) && SameEvidence(db, Written(db, s), id)
  {
    if s.OnSample? {
      SampleStatementKeepsEvidence(db, s.sample, s.sampleChange, id);
    } else if s.OnSupplierResult? || s.OnInternalResult? {
      ResultStatementKeepsEvidence(db, s, id);
    } else {
      var after := Written(db, s);
      assert SupplierResultsOf(db, id) == SupplierResultsOf(after, id);
      assert InternalResultsOf(db, id) == InternalResultsOf(after, id);
      SameResultsSameSamples(db, after, id);
    }
  }

  lemma {:induction false} AttemptKeepsEvidence(db: Db, statements: seq<Statement>, id: CaseId)
    requires SamplesOk(db) && IsFinal(db, Some(id)) && Attempt(db, statements).Some?
    ensures var after := Attempt(db, statements).value.0; SamplesOk(after) && SameEvidence(db, after, id)
  {
    if statements != [] {
      var n := |statements| - 1;
      AttemptKeepsEvidence(db, statements[..n], id);
      StatementKeepsEvidence(Attempt(db, statements[..n]).value.0, statements[n], id);
    }
  }

  lemma StatementKeepsSamplesOk(db: Db, s: Statement)
    requires SamplesOk(db) && Allowed(db, s)
    ensures SamplesOk(Written(db, s))
  {
  }

  lemma {:induction false} AttemptKeepsSamplesOk(db: Db, statements: seq<Statement>)
    requires SamplesOk(db) && Attempt(db, statements).Some?
    ensures SamplesOk(Attempt(db, statements).value.0)
  {
    hide Allowed, Written, Finalizes, SamplesOk;
    if statements != [] {
      var n := |statements| - 1;
      AttemptKeepsSamplesOk(db, statements[..n]);
      StatementKeepsSamplesOk(Attempt(db, statements[..n]).value.0, statements[n]);
    }
  }

  lemma {:induction false} ReachedSamplesAreOk(setup: D.Setup, transactions: seq<seq<Statement>>)
    ensures SamplesOk(RunAll(Empty(setup), transactions))
  {
    if transactions != [] {
      var n := |transactions| - 1;
      ReachedSamplesAreOk(setup, transactions[..n]);
      var before := RunAll(Empty(setup), transactions[..n]);
      if Commit(before, transactions[n]).Some? {
        AttemptKeepsSamplesOk(before, transactions[n]);
      }
    }
  }

  /** Once finalized, the case row, its results and their samples never change. */
  lemma {:induction false} FinalizedEvidenceIsFrozen(db: Db, transactions: seq<seq<Statement>>, id: CaseId)
    requires SamplesOk(db) && IsFinal(db, Some(id))
    ensures SameEvidence(db, RunAll(db, transactions), id) && SamplesOk(RunAll(db, transactions))
  {
    if transactions != [] {
      var n := |transactions| - 1;
      FinalizedEvidenceIsFrozen(db, transactions[..n], id);
      var before := RunAll(db, transactions[..n]);
      if Commit(before, transactions[n]).Some? {
        AttemptKeepsEvidence(before, transactions[n], id);
      }
    }
  }

  /** In every reached database a finalized case's row, results and samples stay as they are in all that follow. */
  lemma ReachedEvidenceIsFrozen(setup: D.Setup, transactions: seq<seq<Statement>>, n: nat, m: nat, id: CaseId)
    requires n <= m <= |transactions| && IsFinal(RunAll(Empty(setup), transactions[..n]), Some(id))
    ensures SameEvidence(RunAll(Empty(setup), transactions[..n]), RunAll(Empty(setup), transactions[..m]), id)
  {
    hide RunAll, IsFinal, SameEvidence, SamplesOk, Empty;
    var before := RunAll(Empty(setup), transactions[..n]);
    ReachedSamplesAreOk(setup, transactions[..n]);
    FinalizedEvidenceIsFrozen(before, transactions[n..m], id);
    RunsJoin(Empty(setup), transactions[..n], transactions[n..m]);
    assert transactions[..n] + transactions[n..m] == transactions[..m];
  }

  lemma {:induction false} RunsJoin(db: Db, first: seq<seq<Statement>>, more: seq<seq<Statement>>)
    ensures RunAll(db, first + more) == RunAll(RunAll(db, first), more)
    decreases more
  {
    if more == [] {
      assert first + more == first;
    } else {
      var n := |more| - 1;
      RunsJoin(db, first, more[..n]);
      assert (first + more)[..|first + more| - 1] == first + more[..n];
    }
  }

  /** No case ever disappears, finalized or not. */
  lemma {:induction false} CasesStay(db: Db, transactions: seq<seq<Statement>>, id: CaseId)
    requires id in db.cases
    ensures id in RunAll(db, transactions).cases
  {
    if transactions != [] {
      var n := |transactions| - 1;
      CasesStay(db, transactions[..n], id);
      var before := RunAll(db, transactions[..n]);
      if Commit(before, transactions[n]).Some? {
        AttemptKeepsCases(before, transactions[n], id);
      }
    }
  }

  lemma StatementKeepsCases(db: Db, s: Statement, id: CaseId)
    requires id in db.cases
    ensures id in Written(db, s).cases
  {
  }

  lemma {:induction false} AttemptKeepsCases(db: Db, statements: seq<Statement>, id: CaseId)
    requires id in db.cases && Attempt(db, statements).Some?
    ensures id in Attempt(db, statements).value.0.cases
  {
    hide Allowed, Written, Finalizes;
    if statements != [] {
      var n := |statements| - 1;
      AttemptKeepsCases(db, statements[..n], id);
      StatementKeepsCases(Attempt(db, statements[..n]).value.0, statements[n], id);
    }
  }

  /** The guard asks for one case only: a sample of two results would slip past it, were it not for the row check. */
  lemma GuardAloneMissesASecondResult(db: Db, open: ResultId, sealed: ResultId, row: Sample, id: SampleId)
    requires row == Sample(Some(sealed), Some(open), 0, None) && id in db.samples && db.samples[id] == row
    requires open in db.internalResults && !IsFinal(db, Some(db.internalResults[open].inspection))
    requires sealed in db.supplierResults && IsFinal(db, Some(db.supplierResults[sealed].inspection))
    ensures SampleGuardPasses(db, id, Delete) && !SampleRowOk(row)
    ensures SampleOf(db, db.supplierResults[sealed].inspection, row)
    ensures SamplesOf(Written(db, OnSample(id, Delete)), db.supplierResults[sealed].inspection) !=
            SamplesOf(db, db.supplierResults[sealed].inspection)
  {
    var inspection := db.supplierResults[sealed].inspection;
    assert id in SamplesOf(db, inspection);
    assert id !in SamplesOf(Written(db, OnSample(id, Delete)), inspection);
  }

  // ----- what stays open ---------------------------------------------------------------

  /** The row the statement finds, or the one it leaves, is a result of the case, or a sample of one. */
  predicate TouchesCase(db: Db, s: Statement, id: CaseId) {
    match s
    case OnSupplierResult(r, change) =>
      || (!change.Insert? && r in db.supplierResults && db.supplierResults[r].inspection == id)
      || (!change.Delete? && change.row.inspection == id)
    case OnInternalResult(r, change) =>
      || (!change.Insert? && r in db.internalResults && db.internalResults[r].inspection == id)
      || (!change.Delete? && change.row.inspection == id)
    case OnSample(r, change) =>
      || (!change.Insert? && r in db.samples && SampleOf(db, id, db.samples[r]))
      || (!change.Delete? && SampleOf(db, id, change.row))
    case _ => false
  }

  predicate IsEvidence(db: Db, s: Statement) {
    match s
    case OnSupplierResult(r, change) => Applies(db.supplierResults, r, change)
    case OnInternalResult(r, change) => Applies(db.internalResults, r, change)
    case OnSample(r, change) => Applies(db.samples, r, change) && (!change.Delete? ==> SampleRowOk(change.row))
    case _ => false
  }

  /** Evidence is refused exactly for touching a finalized case: that of any other case stays open. */
  lemma EvidenceRefusedIff(db: Db, s: Statement)
    requires SamplesOk(db) && IsEvidence(db, s)
    ensures !Allowed(db, s) <==> exists id :: IsFinal(db, Some(id)) && TouchesCase(db, s, id)
  {
    if s.OnSample? {
      if !s.sampleChange.Insert? {
        forall id: CaseId ensures SampleOf(db, id, db.samples[s.sample]) <==> SampleCase(db, db.samples[s.sample]) == Some(id) {
          SampleOfIsSampleCase(db, id, db.samples[s.sample]);
        }
      }
      if !s.sampleChange.Delete? {
        forall id: CaseId ensures SampleOf(db, id, s.sampleChange.row) <==> SampleCase(db, s.sampleChange.row) == Some(id) {
          SampleOfIsSampleCase(db, id, s.sampleChange.row);
        }
      }
    }
    if !Allowed(db, s) {
      var id := RefusingCase(db, s);
    }
  }

  lemma RefusingCase(db: Db, s: Statement) returns (id: CaseId)
    requires SamplesOk(db) && IsEvidence(db, s) && !Allowed(db, s)
    ensures IsFinal(db, Some(id)) && TouchesCase(db, s, id)
  {
    match s
    case OnSupplierResult(r, change) =>
      id := if !change.Insert? && IsFinal(db, Some(db.supplierResults[r].inspection)) then db.supplierResults[r].inspection
            else change.row.inspection;
    case OnInternalResult(r, change) =>
      id := if !change.Insert? && IsFinal(db, Some(db.internalResults[r].inspection)) then db.internalResults[r].inspection
            else change.row.inspection;
    case OnSample(r, change) =>
      var found := if !change.Insert? && IsFinal(db, SampleCase(db, db.samples[r])) then SampleCase(db, db.samples[r])
                   else SampleCase(db, change.row);
      id := found.value;
      if !change.Insert? {
        SampleOfIsSampleCase(db, id, db.samples[r]);
      }
      if !change.Delete? {
        SampleOfIsSampleCase(db, id, change.row);
      }
  }
}
