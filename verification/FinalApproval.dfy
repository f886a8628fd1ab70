/** Finalizing a case: the approval repository's checks and the transaction it writes. */
module FinalApproval {
  import opened Options
  import opened RowChanges
  import opened Rules
  import opened Finalization
  import CanonicalJson
  import D = DatabaseJson
  import J = Judgment
  import Json = JsonText
  import P = SnapshotPayload
  import Snapshots
  import Specs = SpecSelection
  import TextOrder
  import Whitespace

  // ----- the persisted inputs ----------------------------------------------------------

  predicate IsLeast(s: set<nat>, m: nat) {
    m in s && forall x :: x in s ==> m <= x
  }

  lemma {:induction false} LeastExists(s: set<nat>, y: nat)
    requires y in s
    ensures exists m :: IsLeast(s, m)
    decreases y
  {
    if z :| z in s && z < y {
      LeastExists(s, z);
    } else {
      assert IsLeast(s, y);
    }
  }

  function Least(s: set<nat>): (m: nat)
    requires s != {}
    ensures IsLeast(s, m)
  {
    LeastExists(s, var y :| y in s; y);
    var m :| m in s && IsLeast(s, m);
    m
  }

  function Ascending(s: set<nat>): (ids: seq<nat>)
    ensures |ids| == |s| && forall x :: x in ids <==> x in s
  {
    if s == {} then [] else var m := Least(s); [m] + Ascending(s - {m})
  }

  /** What a case's judgment reads: its results and samples, and the items of its specification. */
  datatype Evidence = Evidence(suppliers: map<ResultId, SupplierResult>, internals: map<ResultId, InternalResult>,
                               samples: map<SampleId, Sample>, items: map<nat, SpecItem>)

  function EvidenceOf(db: Db, id: CaseId): Evidence {
    Evidence(SupplierResultsOf(db, id), InternalResultsOf(db, id), SamplesOf(db, id), db.catalog.items)
  }

  function First(s: set<nat>): Option<nat> {
    if s == {} then None else Some(Least(s))
  }

  /** The first live supplier result mapped to the item's test, and the first live internal result of the item. */
  function SupplierFor(e: Evidence, item: SpecItem): (r: Option<ResultId>)
    ensures r.Some? ==> r.value in e.suppliers
  {
    First(set r | r in e.suppliers && !e.suppliers[r].deleted && e.suppliers[r].testItem == Some(item.testItem))
  }

  function InternalFor(e: Evidence, id: nat): (r: Option<ResultId>)
    ensures r.Some? ==> r.value in e.internals
  {
    First(set r | r in e.internals && !e.internals[r].deleted && e.internals[r].specItem == id)
  }

  function Numbers(samples: map<SampleId, Sample>, ids: seq<nat>): seq<J.Raw>
    requires forall i :: i in ids ==> i in samples && samples[i].value.Some?
  {
    if ids == [] then [] else [samples[ids[0]].value.value] + Numbers(samples, ids[1..])
  }

  /** The samples of a result, else the result's own value. */
  function SupplierNumbers(e: Evidence, r: ResultId): seq<J.Raw>
    requires r in e.suppliers
  {
    var ids := set s | s in e.samples && e.samples[s].supplier == Some(r) && e.samples[s].value.Some?;
    if ids != {} then Numbers(e.samples, Ascending(ids))
    else if e.suppliers[r].value.Some? then [e.suppliers[r].value.value] else []
  }

  function InternalNumbers(e: Evidence, r: ResultId): seq<J.Raw>
    requires r in e.internals
  {
    var ids := set s | s in e.samples && e.samples[s].internal == Some(r) && e.samples[s].value.Some?;
    if ids != {} then Numbers(e.samples, Ascending(ids))
    else if e.internals[r].value.Some? then [e.internals[r].value.value] else []
  }

  function MappingFor(e: Evidence, item: SpecItem): J.MappingStatus {
    var r := SupplierFor(e, item);
    if r.Some? then e.suppliers[r.value].mapping
    else if item.sourcePolicy == J.InternalOnly then J.AliasMatched else J.Unmapped
  }

  /** One specification item as judgment input. */
  function InputFor(e: Evidence, id: nat): (input: J.Item)
    requires id in e.items
    ensures J.ItemOk(input)
  {
    var item := e.items[id];
    var supplier, internal := SupplierFor(e, item), InternalFor(e, id);
    var mapping := MappingFor(e, item);
    J.Item(item.rule, item.sourcePolicy, item.missingPolicy, item.samplePolicy,
           if supplier.Some? then SupplierNumbers(e, supplier.value) else [],
           if internal.Some? then InternalNumbers(e, internal.value) else [],
           None, mapping, item.sourcePolicy == J.InternalOnly || mapping != J.Unmapped, true,
           item.sourcePolicy == J.InternalOnly || item.sourcePolicy == J.BothAllMustPass
           || item.sourcePolicy == J.SupplierReferenceInternalFinal,
           [], [], None, None, None, None, item.precision, "P2_HALF_EVEN_V1")
  }

  function LiveItems(e: Evidence, spec: nat): set<nat> {
    set i | i in e.items && e.items[i].spec == spec && !e.items[i].deleted
  }

  function Inputs(e: Evidence, ids: seq<nat>): (inputs: seq<J.Item>)
    requires forall i :: i in ids ==> i in e.items
    ensures |inputs| == |ids| && J.ItemsOk(inputs) && forall k :: 0 <= k < |ids| ==> inputs[k] == InputFor(e, ids[k])
  {
    if ids == [] then [] else [InputFor(e, ids[0])] + Inputs(e, ids[1..])
  }

  /** The inputs of all live items of the specification, in order; none without items or with an invalid rule. */
  function PersistedInputs(e: Evidence, spec: nat): (r: Option<seq<J.Item>>)
    ensures r.Some? ==> J.ItemsOk(r.value)
  {
    var ids := LiveItems(e, spec);
    if ids == {} || exists i :: i in ids && !Valid(e.items[i].rule) then None else Some(Inputs(e, Ascending(ids)))
  }

  /** Unless it is judged on internal results only, an item without a supplier result stays unmapped and on hold. */
  lemma MissingSupplierHolds(e: Evidence, id: nat)
    requires id in e.items && e.items[id].sourcePolicy != J.InternalOnly && SupplierFor(e, e.items[id]).None?
    ensures J.Judge(InputFor(e, id)) == OnHold
  {
  }

  function InternalsOf(e: Evidence, id: nat): seq<J.Raw>
    requires id in e.items
  {
    var r := InternalFor(e, id);
    if r.Some? then InternalNumbers(e, r.value) else []
  }

  predicate AllNumbers(values: seq<J.Raw>) {
    forall v :: v in values ==> v.Number?
  }

  /** The decision on the item were this its missing policy. */
  function JudgeUnder(input: J.Item, policy: J.MissingPolicy): Decision
    requires J.ItemOk(input)
  {
    J.Judge(input.(missingPolicy := policy))
  }

  /**
   The supplier result is there with a confirmed mapping but without numbers, the source policy wants it and not both
   sources, and nothing about the internal numbers or the sample policy holds the item.
   */
  predicate MissingPolicyApplies(e: Evidence, id: nat)
    requires id in e.items
  {
    var item := e.items[id];
    var supplier := SupplierFor(e, item);
    && supplier.Some? && e.suppliers[supplier.value].mapping != J.Unmapped && SupplierNumbers(e, supplier.value) == []
    && item.sourcePolicy != J.InternalOnly && item.sourcePolicy != J.BothAllMustPass && item.samplePolicy != J.Manual
    && AllNumbers(InternalsOf(e, id))
    && (item.sourcePolicy == J.SupplierReferenceInternalFinal ==> InternalsOf(e, id) != [])
  }

  function SuppliersOf(e: Evidence, id: nat): seq<J.Raw>
    requires id in e.items
  {
    var r := SupplierFor(e, e.items[id]);
    if r.Some? then SupplierNumbers(e, r.value) else []
  }

  /** Persisted values carry no units: they are read exactly when they are numbers. */
  lemma PlainReading(values: seq<J.Raw>, item: J.Item)
    requires J.ItemOk(item) && item.targetUnit.None?
    ensures J.Normalised(values, None, item).Some? <==> AllNumbers(values)
    ensures J.Normalised(values, None, item).Some? ==> |J.Normalised(values, None, item).value| == |values|
  {
    forall v
      ensures J.NormaliseOne(v, None, item).Some? <==> v.Number?
    {
    }
  }

  lemma PersistedReads(e: Evidence, id: nat)
    requires id in e.items
    ensures var input := InputFor(e, id);
      && (J.Supplier(input).Some? <==> AllNumbers(SuppliersOf(e, id)))
      && (J.Supplier(input).Some? ==> (J.Supplier(input).value == [] <==> SuppliersOf(e, id) == []))
      && (J.Internal(input).Some? <==> AllNumbers(InternalsOf(e, id)))
      && (J.Internal(input).Some? ==> (J.Internal(input).value == [] <==> InternalsOf(e, id) == []))
  {
    hide First, Ascending, J.Normalised;
    var input := InputFor(e, id);
    PlainReading(SuppliersOf(e, id), input);
    PlainReading(InternalsOf(e, id), input);
    assert J.Either(input.rawSupplierValues, input.supplierValues) == SuppliersOf(e, id);
    assert J.Either(input.rawInternalValues, input.internalValues) == InternalsOf(e, id);
  }

  lemma JudgedByPolicy(e: Evidence, id: nat, policy: J.MissingPolicy)
    requires id in e.items && Valid(e.items[id].rule)
    ensures var input := InputFor(e, id).(missingPolicy := policy);
      if MissingPolicyApplies(e, id) then
        J.Ready(input) && J.Judge(input) == J.SupplierMissing(policy, J.HycInternal(input))
      else J.Judge(input) == J.Judge(InputFor(e, id))
  {
    hide J.Combine, First, Ascending, J.Supplier, J.Internal, SupplierNumbers, InternalNumbers, Valid;
    var plain := InputFor(e, id);
    var input := plain.(missingPolicy := policy);
    PersistedReads(e, id);
    J.ReadingIgnoresMissingPolicy(plain, policy);
    assert J.Ready(input) == J.Ready(plain);
    if J.Ready(plain) {
      assert J.HycSupplier(input) == J.HycSupplier(plain) && J.HycInternal(input) == J.HycInternal(plain);
    }
  }

  /** Exactly when the missing policy of a persisted item makes a difference. */
  lemma MissingPolicyDecidesIff(e: Evidence, id: nat)
    requires id in e.items && Valid(e.items[id].rule)
    ensures (exists p, p' :: JudgeUnder(InputFor(e, id), p) != JudgeUnder(InputFor(e, id), p')) <==> MissingPolicyApplies(e, id)
  {
    hide J.Judge, InputFor, MissingPolicyApplies;
    var input := InputFor(e, id);
    forall p
      ensures MissingPolicyApplies(e, id) || JudgeUnder(input, p) == J.Judge(input)
    {
      JudgedByPolicy(e, id, p);
    }
    if MissingPolicyApplies(e, id) {
      JudgedByPolicy(e, id, J.Reject);
      JudgedByPolicy(e, id, J.Hold);
      assert JudgeUnder(input, J.Reject) != JudgeUnder(input, J.Hold);
    }
  }

  // ----- finalizing --------------------------------------------------------------------

  datatype Error = AuthorizationDenied | Precondition | Stale | NotCanonical | Integrity

  /** What the caller asks for, and what the database holds about the case beside what is judged. */
  datatype Request = Request(inspection: CaseId, expectedVersion: nat, actor: ActorId, isLead: bool, decision: State,
                             reason: Option<string>, documents: seq<string>, facts: P.CaseFacts)

  function AsState(d: Decision): State {
    match d case Accepted => AcceptedState case Rejected => RejectedState case OnHold => OnHoldState
  }

  predicate HasText(reason: Option<string>) {
    reason.Some? && !Whitespace.IsBlankText(reason.value)
  }

  predicate ModelBelongs(c: Catalog, a: Allocation, lot: Lot) {
    a.model.Some? ==> && a.model.value in c.models && !c.models[a.model.value].deleted
                      && c.models[a.model.value].material == lot.material
  }

  /** Allocation, receipt and lot are there, the lot is canonical, and the case's specification is the effective one. */
  predicate Resolves(c: Catalog, row: Case) {
    && row.allocation in c.allocations && !c.allocations[row.allocation].deleted
    && var a := c.allocations[row.allocation];
    && a.receipt in c.receipts && !c.receipts[a.receipt].deleted
    && a.lot in c.lots && c.lots[a.lot].canonical && !c.lots[a.lot].merged
    && Specs.RepositoryAccepts(c.specs, NeedOf(c.lots[a.lot], a.model, c.receipts[a.receipt].date),
                               ModelBelongs(c, a, c.lots[a.lot]), row.spec)
  }

  /** The decision the persisted inputs of a case lead to. */
  function Candidate(db: Db, id: CaseId): Option<Decision> {
    if id !in db.cases then None
    else
      match PersistedInputs(EvidenceOf(db, id), db.cases[id].spec)
      case None => None
      case Some(inputs) => Some(J.EvaluateCase(inputs))
  }

  /** The transition table's rows out of lead review: only acceptance needs no reason. */
  predicate TransitionAllowed(decision: State, reason: Option<string>) {
    IsFinalDecision(decision) && (decision != AcceptedState ==> HasText(reason))
  }

  function ReasonText(q: Request): string {
    if HasText(q.reason) then Whitespace.Strip(q.reason.value) else "ENGINE_MATCH"
  }

  /** The payload of the decision snapshot. */
  function PayloadOf(q: Request, candidate: State): Json.Value {
    P.Payload(q.facts, StateText(candidate), StateText(q.decision), ReasonText(q), q.documents)
  }

  lemma PayloadIsProper(q: Request, candidate: State)
    ensures CanonicalJson.ProperDicts(PayloadOf(q, candidate))
  {
    P.PayloadIsGood(q.facts, StateText(candidate), StateText(q.decision), ReasonText(q), q.documents);
  }

  /** The snapshot, frozen and verified; its row holds the decoded payload. */
  function SnapshotRow(q: Request, candidate: State, digest: string -> string): Option<D.Row> {
    match Snapshots.FreezeForApproval(PayloadOf(q, candidate), digest)
    case Failed(_) => None
    case Ok(snapshot) => if Snapshots.Verify(snapshot, digest).Ok? then D.RowOf(snapshot) else None
  }

  /** The first check that fails before the snapshot is frozen, given the candidate decision of the persisted inputs. */
  function Check(db: Db, q: Request, candidate: Option<Decision>): Option<Error> {
    if !q.isLead then Some(AuthorizationDenied)
    else if !IsFinalDecision(q.decision) then Some(Precondition)
    else if q.inspection !in db.cases || db.cases[q.inspection].deleted then Some(Precondition)
    else
      var row := db.cases[q.inspection];
      if row.version != q.expectedVersion then Some(Stale)
      else if row.final.Some? || row.status != LeadReview || row.submittedBy.None? then Some(Precondition)
      else if row.submittedBy == Some(q.actor) then Some(AuthorizationDenied)
      else if !Resolves(db.catalog, row) || candidate.None? then Some(Precondition)
      else if q.decision != AsState(candidate.value) && !HasText(q.reason) then Some(Precondition)
      else if AsState(candidate.value) != AcceptedState && q.decision == AcceptedState then Some(Precondition)
      else if !TransitionAllowed(q.decision, q.reason) || q.documents == [] then Some(Precondition)
      else None
  }

  /** Why a request is refused, or the case row, the candidate decision and the snapshot row it goes on with. */
  datatype Plan = Refused(error: Error) | Ready(row: Case, candidate: State, snapshot: D.Row)

  function PlanFor(db: Db, q: Request, candidate: Option<Decision>): Plan {
    match Check(db, q, candidate)
    case Some(error) => Refused(error)
    case None =>
      match SnapshotRow(q, AsState(candidate.value), db.setup.digest)
      case None => Refused(NotCanonical)
      case Some(snapshot) => Ready(db.cases[q.inspection], AsState(candidate.value), snapshot)
  }

  function PlanOf(db: Db, q: Request): Plan {
    PlanFor(db, q, Candidate(db, q.inspection))
  }

  function FinalRow(row: Case, q: Request, candidate: State): Case {
    row.(candidate := Some(candidate), final := Some(q.decision), status := q.decision, version := row.version + 1)
  }

  function AuditOf(q: Request): Audit {
    Audit(q.inspection, "FINALIZE", if HasText(q.reason) then Some(Whitespace.Strip(q.reason.value)) else None)
  }

  /** The rows a finalization writes: the case, its snapshot, the approval, the audit entry and the event. */
  function RowsFor(row: Case, q: Request, candidate: State, snapshot: D.Row): seq<Statement> {
    [OnCase(q.inspection, Update(FinalRow(row, q, candidate))), AddSnapshot(q.inspection, snapshot),
     AddApproval(Approval(q.inspection, q.actor)), AddAudit(AuditOf(q)), AddEvent(Event("inspection.finalized", q.inspection))]
  }

  /** The database after the five rows. */
  function Recorded(db: Db, row: Case, q: Request, candidate: State, snapshot: D.Row): Db {
    db.(cases := db.cases[q.inspection := FinalRow(row, q, candidate)],
        snapshots := db.snapshots[q.inspection := snapshot],
        approvals := db.approvals + {Approval(q.inspection, q.actor)}, audits := db.audits + {AuditOf(q)},
        events := db.events + {Event("inspection.finalized", q.inspection)})
  }

  class ApprovalRepository {
    var db: Db

    constructor (initial: Db)
      ensures db == initial
    {
      db := initial;
    }

    /** Writes the final decision, or changes nothing and tells why. */
    method Finalize(q: Request) returns (error: Option<Error>)
      requires Specs.DistinctIds(db.catalog.specs)
      modifies this
      ensures var plan := PlanOf(old(db), q);
        && (plan.Refused? ==> error == Some(plan.error))
        && (error.None? <==> plan.Ready? && q.inspection !in old(db).snapshots && D.RowAccepted(old(db).setup, plan.snapshot))
        && (error.Some? ==> db == old(db))
        && (error.None? ==> db == Recorded(old(db), plan.row, q, plan.candidate, plan.snapshot))
    {
      hide PlanFor, D.RowAccepted, Candidate;
      var candidate := Candidate(db, q.inspection);
      var plan := PlanFor(db, q, candidate);
      if plan.Refused? {
        return Some(plan.error);
      }
      var committed := Commit(db, RowsFor(plan.row, q, plan.candidate, plan.snapshot));
      FinalizeCommits(db, q, candidate);
      if committed.None? {
        return Some(Integrity);
      }
      db := committed.value;
      return None;
    }
  }

  /** What holds of a request that goes on. */
  lemma PlanFacts(db: Db, q: Request, candidate: Option<Decision>)
    requires PlanFor(db, q, candidate).Ready?
    ensures var plan := PlanFor(db, q, candidate);
      && q.inspection in db.cases && plan.row == db.cases[q.inspection] && candidate.Some?
      && plan.candidate == AsState(candidate.value) && Check(db, q, candidate).None?
      && SnapshotRow(q, plan.candidate, db.setup.digest) == Some(plan.snapshot)
  {
    hide SnapshotRow;
  }

  lemma StripIsNotSpaces(s: string)
    requires !Whitespace.IsBlankText(s)
    ensures !Whitespace.OnlySpaces(Whitespace.Strip(s))
  {
    var r := Whitespace.Strip(s);
    assert !Whitespace.IsSpace(r[0]) && Whitespace.IsSpace(' ');
  }

  lemma AttemptSnoc(db: Db, statements: seq<Statement>, last: Statement)
    ensures Attempt(db, statements + [last]) ==
              match Attempt(db, statements)
              case None => None
              case Some((mid, finalized)) =>
                if Allowed(mid, last) then Some((Written(mid, last), finalized + Finalizes(mid, last))) else None
  {
    var all := statements + [last];
    assert all[..|all| - 1] == statements && all[|all| - 1] == last;
  }

  /** A statement on another table finalizes nothing. */
  lemma AttemptPlain(db: Db, statements: seq<Statement>, last: Statement, mid: Db, finalized: seq<Finalized>)
    requires Attempt(db, statements) == Some((mid, finalized)) && !last.OnCase?
    ensures Attempt(db, statements + [last]) == if Allowed(mid, last) then Some((Written(mid, last), finalized)) else None
  {
    AttemptSnoc(db, statements, last);
    assert finalized + Finalizes(mid, last) == finalized;
  }

  lemma LogsAreAllowed(db: Db, s: Statement)
    requires s.AddApproval? || s.AddAudit? || s.AddEvent?
    ensures Allowed(db, s)
  {
  }

  lemma SnapshotAllowed(db: Db, a: Statement, b: Statement)
    requires a.OnCase? && b.AddSnapshot?
    ensures Allowed(Written(db, a), b) <==> b.snapshotOf !in db.snapshots && D.RowAccepted(db.setup, b.snapshot)
  {
  }

  /** Two rows that pass their guards, then three that nothing refuses. */
  lemma AttemptOfRows(db: Db, a: Statement, b: Statement, c: Statement, d: Statement, e: Statement)
    requires Allowed(db, a) && a.OnCase? && b.AddSnapshot? && c.AddApproval? && d.AddAudit? && e.AddEvent?
    ensures Attempt(db, [a] + [b] + [c] + [d] + [e]) ==
              if b.snapshotOf in db.snapshots || !D.RowAccepted(db.setup, b.snapshot) then None else
              Some((Written(Written(Written(Written(Written(db, a), b), c), d), e), Finalizes(db, a)))
  {
    hide Allowed, Written, Finalizes, Attempt, D.RowAccepted;
    var f, db1 := Finalizes(db, a), Written(db, a);
    NothingAttempted(db);
    AttemptSnoc(db, [], a);
    assert [] + [a] == [a] && [] + f == f;
    SnapshotAllowed(db, a, b);
    AttemptPlain(db, [a], b, db1, f);
    if !Allowed(db1, b) {
      AttemptSnoc(db, [a] + [b], c);
      AttemptSnoc(db, [a] + [b] + [c], d);
      AttemptSnoc(db, [a] + [b] + [c] + [d], e);
    } else {
      var db2 := Written(db1, b);
      var db3 := Written(db2, c);
      LogsAreAllowed(db2, c);
      LogsAreAllowed(db3, d);
      LogsAreAllowed(Written(db3, d), e);
      AttemptPlain(db, [a] + [b], c, db2, f);
      AttemptPlain(db, [a] + [b] + [c], d, db3, f);
      AttemptPlain(db, [a] + [b] + [c] + [d], e, Written(db3, d), f);
    }
  }

  lemma NothingAttempted(db: Db)
    ensures Attempt(db, []) == Some((db, []))
  {
  }

  lemma SpecClauseFollows(c: Catalog, row: Case)
    requires Specs.DistinctIds(c.specs) && Resolves(c, row)
    ensures SpecClause(c, row)
  {
    var a := c.allocations[row.allocation];
    Specs.RepositoryMeetsTrigger(c.specs, NeedOf(c.lots[a.lot], a.model, c.receipts[a.receipt].date),
                                 ModelBelongs(c, a, c.lots[a.lot]), row.spec);
  }

  lemma OverallIsCandidate(q: Request, candidate: State)
    requires IsCandidateDecision(candidate)
    ensures D.OverallOf(PayloadOf(q, candidate)) == Some(Json.Str(StateText(candidate)))
    ensures q.documents != [] ==>
              forall digest :: Snapshots.FreezeForApproval(PayloadOf(q, candidate), digest).Ok?
                               <==> Snapshots.Normalise(PayloadOf(q, candidate)).Some?
  {
    hide P.Payload, Snapshots.Normalise, Snapshots.FreezeForApproval;
    var payload := PayloadOf(q, candidate);
    P.OverallIsCandidate(q.facts, StateText(candidate), StateText(q.decision), ReasonText(q), q.documents);
    forall digest | q.documents != []
      ensures Snapshots.FreezeForApproval(payload, digest).Ok? <==> Snapshots.Normalise(payload).Some?
    {
      P.PayloadFreezesIff(q.facts, StateText(candidate), StateText(q.decision), ReasonText(q), q.documents, digest);
    }
  }

  /** The candidate decision a request's snapshot records is the candidate. */
  lemma SnapshotRecords(q: Request, candidate: State, setup: D.Setup)
    requires IsCandidateDecision(candidate) && SnapshotRow(q, candidate, setup.digest).Some?
    ensures D.OverallOf(SnapshotRow(q, candidate, setup.digest).value.payload) == Some(Json.Str(StateText(candidate)))
  {
    hide PayloadOf, Snapshots.Normalise, CanonicalJson.Canon, D.RowAccepted;
    var payload := PayloadOf(q, candidate);
    PayloadIsProper(q, candidate);
    D.FrozenRowAcceptedIff(payload, setup);
    OverallIsCandidate(q, candidate);
  }

  /** What the repository lets through passes the deferred check exactly when its snapshot's hash is that of the database's text. */
  lemma FinalizeMeetsTheTrigger(db: Db, q: Request, candidate: Option<Decision>)
    requires Specs.DistinctIds(db.catalog.specs) && PlanFor(db, q, candidate).Ready?
    ensures var plan := PlanFor(db, q, candidate);
      var after := FinalRow(plan.row, q, plan.candidate);
      FinalizationHolds(Recorded(db, plan.row, q, plan.candidate, plan.snapshot), Finalized(q.inspection, plan.row, after))
      <==> D.HashMatches(db.setup, plan.snapshot)
  {
    hide SnapshotRow, D.HashMatches, D.OverallOf, StateText, PlanFor;
    var plan := PlanFor(db, q, candidate);
    PlanFacts(db, q, candidate);
    var row, c := plan.row, plan.candidate;
    var after := Recorded(db, row, q, c, plan.snapshot);
    SnapshotRecords(q, c, db.setup);
    SpecClauseFollows(db.catalog, row);
    assert SpecClause(after.catalog, FinalRow(row, q, c));
    assert Approval(q.inspection, q.actor) in after.approvals;
    assert AuditOf(q) in after.audits;
    if HasText(q.reason) {
      StripIsNotSpaces(q.reason.value);
      assert HasReason(after, q.inspection);
    }
  }

  lemma RowsAreAttempted(db: Db, row: Case, q: Request, candidate: State, snapshot: D.Row)
    requires q.inspection in db.cases && db.cases[q.inspection] == row && row.final.None?
    requires IsFinalDecision(q.decision) && IsCandidateDecision(candidate)
    ensures Attempt(db, RowsFor(row, q, candidate, snapshot)) ==
              if q.inspection in db.snapshots || !D.RowAccepted(db.setup, snapshot) then None else
              Some((Recorded(db, row, q, candidate, snapshot), [Finalized(q.inspection, row, FinalRow(row, q, candidate))]))
  {
    hide D.RowAccepted;
    var s := RowsFor(row, q, candidate, snapshot);
    assert Allowed(db, s[0]);
    AttemptOfRows(db, s[0], s[1], s[2], s[3], s[4]);
    assert s == [s[0]] + [s[1]] + [s[2]] + [s[3]] + [s[4]];
  }

  /** So the transaction commits, unless the case has a snapshot already or the snapshot row is not accepted. */
  lemma FinalizeCommits(db: Db, q: Request, candidate: Option<Decision>)
    requires Specs.DistinctIds(db.catalog.specs) && PlanFor(db, q, candidate).Ready?
    ensures var plan := PlanFor(db, q, candidate);
      Commit(db, RowsFor(plan.row, q, plan.candidate, plan.snapshot)) ==
      if q.inspection in db.snapshots || !D.RowAccepted(db.setup, plan.snapshot) then None
      else Some(Recorded(db, plan.row, q, plan.candidate, plan.snapshot))
  {
    hide SnapshotRow, D.HashMatches, FinalizationHolds, PlanFor, D.RowAccepted;
    var plan := PlanFor(db, q, candidate);
    PlanFacts(db, q, candidate);
    var f := Finalized(q.inspection, plan.row, FinalRow(plan.row, q, plan.candidate));
    RowsAreAttempted(db, plan.row, q, plan.candidate, plan.snapshot);
    FinalizeMeetsTheTrigger(db, q, candidate);
    AcceptedRow(db.setup, plan.snapshot);
    assert f in [f] && forall g :: g in [f] ==> g == f;
  }

  lemma AcceptedRow(setup: D.Setup, row: D.Row)
    ensures D.RowAccepted(setup, row) ==> D.HashMatches(setup, row) && D.NoZeros(row.payload)
  {
  }

  // ----- when the database accepts the snapshot ----------------------------------------

  /** The planned snapshot is the frozen payload. */
  lemma PlannedTree(db: Db, q: Request)
    requires PlanOf(db, q).Ready?
    ensures var plan := PlanOf(db, q);
      var payload := PayloadOf(q, plan.candidate);
      && CanonicalJson.ProperDicts(payload) && Snapshots.FreezeForApproval(payload, db.setup.digest).Ok?
      && Snapshots.Normalise(payload).Some? && plan.snapshot.payload == CanonicalJson.Canon(Snapshots.Normalise(payload).value)
      && plan.snapshot.hash == Snapshots.FreezeForApproval(payload, db.setup.digest).value.hash
  {
    hide PayloadOf, Candidate, D.RowAccepted, Check, PlanFor;
    var plan := PlanOf(db, q);
    PlanFacts(db, q, Candidate(db, q.inspection));
    PayloadIsProper(q, plan.candidate);
    D.FrozenRowAcceptedIff(PayloadOf(q, plan.candidate), db.setup);
  }

  /**
   For any collation the planned row is accepted if the collation orders the snapshot's keys as code points do and no
   text holds a zero character, and else only if the hash function gives both texts one hash.
   */
  lemma RowAcceptance(db: Db, q: Request)
    requires PlanOf(db, q).Ready? && D.IsOrder(db.setup.before)
    ensures var row := PlanOf(db, q).snapshot;
      && CanonicalJson.Normal(row.payload)
      && (D.Agrees(row.payload, db.setup.before) && D.NoZeros(row.payload) ==> D.RowAccepted(db.setup, row))
      && (D.RowAccepted(db.setup, row) && Distinguishes(db.setup, row.payload) ==>
            D.Agrees(row.payload, db.setup.before) && D.NoZeros(row.payload))
  {
    hide PayloadOf, PlanOf, D.RowAccepted, D.Agrees, D.NoZeros, Snapshots.Normalise, CanonicalJson.Canon, D.RowOf,
      Snapshots.FreezeForApproval;
    PlannedTree(db, q);
    FrozenText(db, q);
    D.FrozenRowAcceptance(PayloadOf(q, PlanOf(db, q).candidate), db.setup);
  }

  lemma FrozenText(db: Db, q: Request)
    requires PlanOf(db, q).Ready?
    ensures var plan := PlanOf(db, q);
      var frozen := Snapshots.FreezeForApproval(PayloadOf(q, plan.candidate), db.setup.digest);
      && frozen.Ok? && CanonicalJson.Normal(plan.snapshot.payload)
      && frozen.value.text == CanonicalJson.Render(plan.snapshot.payload) && frozen.value.hash == db.setup.digest(frozen.value.text)
  {
    hide PayloadOf, PlanOf, CanonicalJson.Canon, Snapshots.Normalise;
    PlannedTree(db, q);
    var payload := PayloadOf(q, PlanOf(db, q).candidate);
    var tree := Snapshots.FrozenTree(payload);
  }

  /**
   On the keys the repository writes: under every collation that puts them in code-point order, the planned row is
   accepted exactly when no text in it holds a zero character.
   */
  lemma FinalizeSucceeds(db: Db, q: Request)
    requires PlanOf(db, q).Ready? && D.IsOrder(db.setup.before) && P.OrdersKeys(db.setup.before)
    ensures D.RowAccepted(db.setup, PlanOf(db, q).snapshot) <==> D.NoZeros(PlanOf(db, q).snapshot.payload)
  {
    hide PlanOf, D.Agrees, D.NoZeros, Snapshots.Normalise, CanonicalJson.Canon, D.RowAccepted, P.Payload, P.OrdersKeys,
      D.IsOrder, Snapshots.FreezeForApproval;
    var plan := PlanOf(db, q);
    PlannedTree(db, q);
    RowAcceptance(db, q);
    P.PayloadAgrees(q.facts, StateText(plan.candidate), StateText(q.decision), ReasonText(q), q.documents, db.setup.before);
    AcceptedRow(db.setup, plan.snapshot);
  }

  /** Code points, and collations that look at underscores last, are such orders. */
  lemma UsualOrdersSuit()
    ensures P.OrdersKeys(TextOrder.Less) && D.IsOrder(TextOrder.Less)
    ensures P.OrdersKeys(D.IgnoringMarks) && D.IsOrder(D.IgnoringMarks)
  {
    P.PlainOrdersAgree();
    P.LessIsOrder();
    D.IgnoringMarksIsOrder();
  }

  /** Under an order by length first no case can be finalized, unless the hash function gives both texts one hash. */
  lemma LengthOrderRefuses(db: Db, q: Request)
    requires PlanOf(db, q).Ready? && db.setup.before == P.ShorterFirst
    ensures var row := PlanOf(db, q).snapshot;
      CanonicalJson.Normal(row.payload) && (Distinguishes(db.setup, row.payload) ==> !D.RowAccepted(db.setup, row))
  {
    hide PlanOf, D.Agrees, D.NoZeros, Snapshots.Normalise, CanonicalJson.Canon, D.RowAccepted, P.Payload, D.IsOrder,
      Snapshots.FreezeForApproval;
    var plan := PlanOf(db, q);
    P.ShorterFirstIsOrder();
    PlannedTree(db, q);
    RowAcceptance(db, q);
    P.ShorterFirstDisagrees(q.facts, StateText(plan.candidate), StateText(q.decision), ReasonText(q), q.documents);
  }

  /** The hash function tells the database's text of the tree from the domain's. */
  predicate Distinguishes(setup: D.Setup, tree: Json.Value)
    requires CanonicalJson.Normal(tree)
  {
    D.StoredHash(setup, tree) == setup.digest(CanonicalJson.Render(tree)) ==>
      D.StoredText(tree, setup.before) == CanonicalJson.Render(tree)
  }

  /** A case finalized as accepted was judged accepted: every item ready, with non-empty accepted samples. */
  lemma AcceptedMeansJudged(db: Db, q: Request)
    requires PlanOf(db, q).Ready? && q.decision == AcceptedState
    ensures q.inspection in db.cases
    ensures JudgedAccepted(PersistedInputs(EvidenceOf(db, q.inspection), db.cases[q.inspection].spec))
  {
    hide PlanFor, EvidenceOf, PersistedInputs, SnapshotRow;
    PlanFacts(db, q, Candidate(db, q.inspection));
    var inputs := PersistedInputs(EvidenceOf(db, q.inspection), db.cases[q.inspection].spec);
    RefusedUnlessAccepted(db, q, Candidate(db, q.inspection));
    J.CaseAcceptedIff(inputs.value);
  }

  /** The lot the case was allocated to, as it must be found: everything live, the lot canonical and not merged. */
  predicate LotSurvives(c: Catalog, row: Case) {
    && row.allocation in c.allocations
    && var a := c.allocations[row.allocation];
    && !a.deleted && a.receipt in c.receipts && !c.receipts[a.receipt].deleted
    && a.lot in c.lots && c.lots[a.lot].canonical && !c.lots[a.lot].merged
    && (a.model.Some? ==> a.model.value in c.models && !c.models[a.model.value].deleted
                          && c.models[a.model.value].material == c.lots[a.lot].material)
  }

  /** A lead other than the submitter decides on an open case of the version seen, giving a reason where one is due. */
  predicate MayDecide(db: Db, q: Request, candidate: State) {
    && q.isLead && q.inspection in db.cases
    && var row := db.cases[q.inspection];
    && !row.deleted && row.version == q.expectedVersion && row.status == LeadReview && row.final.None?
    && row.submittedBy.Some? && row.submittedBy.value != q.actor
    && q.decision in {AcceptedState, RejectedState, OnHoldState, Retest, SpecialAccepted}
    && (q.decision == AcceptedState ==> candidate == AcceptedState)
    && (q.decision != AcceptedState ==> HasText(q.reason))
  }

  lemma ChecksPassIff(db: Db, q: Request, candidate: Decision)
    ensures Check(db, q, Some(candidate)).None? <==>
      && MayDecide(db, q, AsState(candidate)) && q.documents != []
      && var row := db.cases[q.inspection];
      && LotSurvives(db.catalog, row)
      && var a := db.catalog.allocations[row.allocation];
        && var need := Specs.Need(db.catalog.lots[a.lot].material, Some(db.catalog.lots[a.lot].supplier), a.model,
                                  db.catalog.receipts[a.receipt].date);
          && Specs.RepositorySelect(db.catalog.specs, need).Selected?
          && Specs.RepositorySelect(db.catalog.specs, need).spec.id == row.spec
  {
    hide Specs.RepositorySelect, HasText;
  }

  /** Exactly when a request goes on to be written: its checks pass and its payload freezes. */
  lemma ReadyIff(db: Db, q: Request)
    ensures PlanOf(db, q).Ready? <==>
      var candidate := Candidate(db, q.inspection);
      candidate.Some? && Check(db, q, candidate).None?
      && Snapshots.FreezeForApproval(PayloadOf(q, AsState(candidate.value)), db.setup.digest).Ok?
  {
    hide PayloadOf, Candidate, Check, Snapshots.FreezeForApproval, Snapshots.Verify, Snapshots.Normalise;
    var candidate := Candidate(db, q.inspection);
    if candidate.Some? {
      PayloadIsProper(q, AsState(candidate.value));
      if Snapshots.FreezeForApproval(PayloadOf(q, AsState(candidate.value)), db.setup.digest).Ok? {
        Snapshots.FrozenSnapshotsVerify(PayloadOf(q, AsState(candidate.value)), db.setup.digest);
        D.FrozenRowAcceptedIff(PayloadOf(q, AsState(candidate.value)), db.setup);
      }
    } else {
      NoCandidateFails(db, q);
    }
  }

  lemma NoCandidateFails(db: Db, q: Request)
    ensures Check(db, q, None).Some?
  {
  }

  predicate JudgedAccepted(inputs: Option<seq<J.Item>>)
    requires inputs.Some? ==> J.ItemsOk(inputs.value)
  {
    && inputs.Some? && inputs.value != []
    && forall i :: 0 <= i < |inputs.value| ==> J.Ready(inputs.value[i]) && J.SomeSourceAccepted(inputs.value[i])
  }

  lemma RefusedUnlessAccepted(db: Db, q: Request, candidate: Option<Decision>)
    requires Check(db, q, candidate).None? && q.decision == AcceptedState
    ensures candidate == Some(Accepted)
  {
  }

  /** The recorded candidate can be recomputed at any later time, as long as the specification's items stay. */
  lemma CandidateIsReproducible(db: Db, transactions: seq<seq<Statement>>, id: CaseId)
    requires SamplesOk(db) && IsFinal(db, Some(id)) && RunAll(db, transactions).catalog.items == db.catalog.items
    ensures Candidate(RunAll(db, transactions), id) == Candidate(db, id)
  {
    FinalizedEvidenceIsFrozen(db, transactions, id);
    assert EvidenceOf(RunAll(db, transactions), id) == EvidenceOf(db, id);
  }
}
