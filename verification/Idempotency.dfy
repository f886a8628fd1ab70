/** Idempotency records: leasing a request to one worker at a time and keeping its response. */
module Idempotency {
  import opened Options

  /** Instants and durations count microseconds. */
  type Time = int

  datatype State = Pending | Completed | FailedRetryable

  datatype Identity = Identity(principal: string, scope: string, key: string, requestHash: string)

  datatype Record = Record(identity: Identity, state: State, leaseExpires: Option<Time>, leaseOwner: Option<string>,
                           status: Option<int>, body: Option<string>, resource: Option<string>,
                           createdAt: Time, updatedAt: Time, expiresAt: Option<Time>)

  datatype Result = Ok(record: Record) | Invalid | Conflict

  datatype Request = Request(identity: Identity, leaseFor: Time, owner: Option<string>, expiresAt: Option<Time>)

  // ----- the operations ----------------------------------------------------------------

  predicate Live(lease: Option<Time>, now: Time) {
    lease.Some? && lease.value > now
  }

  predicate OwnedByAnother(r: Record, owner: Option<string>) {
    r.leaseOwner.Some? && owner.Some? && r.leaseOwner != owner
  }

  function Leased(r: Record, q: Request, now: Time): Record {
    r.(state := Pending, leaseExpires := Some(now + q.leaseFor), leaseOwner := q.owner, updatedAt := now)
  }

  function Resolve(existing: Option<Record>, q: Request, now: Time): Result {
    if q.identity.principal == "" || q.identity.scope == "" || q.identity.key == "" || q.leaseFor <= 0 then Invalid
    else if existing.None? then
      Ok(Record(q.identity, Pending, Some(now + q.leaseFor), q.owner, None, None, None, now, now, q.expiresAt))
    else
      var r := existing.value;
      if r.identity != q.identity then Conflict
      else if r.expiresAt.Some? && r.expiresAt.value <= now then Conflict
      else if r.state == Completed then Ok(r)
      else if r.state == Pending then
        if r.leaseExpires.None? || r.leaseExpires.value > now then
          if OwnedByAnother(r, q.owner) then Conflict else Ok(r)
        else Ok(r.(leaseExpires := Some(now + q.leaseFor), leaseOwner := q.owner, updatedAt := now))
      else if Live(r.leaseExpires, now) then Conflict
      else Ok(Leased(r, q, now))
  }

  function Complete(r: Record, status: int, body: string, resource: Option<string>, now: Time): Result {
    if r.state == Completed then Ok(r)
    else if r.state != Pending then Conflict
    else Ok(r.(state := Completed, leaseExpires := None, leaseOwner := None, status := Some(status), body := Some(body),
               resource := resource, updatedAt := now))
  }

  function MarkRetryable(r: Record, now: Time): Result {
    if r.state == Completed then Conflict else Ok(r.(state := FailedRetryable, updatedAt := now))
  }

  // ----- runs --------------------------------------------------------------------------

  datatype Call =
    | Resolving(now: Time, request: Request)
    | Completing(now: Time, status: int, body: string, resource: Option<string>)
    | Failing(now: Time)

  /** What is stored after a call; a refused call changes nothing. */
  function Step(slot: Option<Record>, call: Call): Option<Record> {
    match call
    case Resolving(now, request) => Stored(slot, Resolve(slot, request, now))
    case Completing(now, status, body, resource) =>
      if slot.None? then None else Stored(slot, Complete(slot.value, status, body, resource, now))
    case Failing(now) => if slot.None? then None else Stored(slot, MarkRetryable(slot.value, now))
  }

  function Stored(slot: Option<Record>, r: Result): Option<Record> {
    if r.Ok? then Some(r.record) else slot
  }

  function SlotAt(calls: seq<Call>, n: nat): Option<Record>
    requires n <= |calls|
  {
    if n == 0 then None else Step(SlotAt(calls, n - 1), calls[n - 1])
  }

  /** The call was answered with a new lease: the record it returns is not the one that was stored. */
  predicate Grants(calls: seq<Call>, i: nat)
    requires i < |calls|
  {
    calls[i].Resolving?
    && var r := Resolve(SlotAt(calls, i), calls[i].request, calls[i].now); r.Ok? && SlotAt(calls, i) != Some(r.record)
  }

  /** The end of the lease a call grants. */
  function GrantEnd(call: Call): Time
    requires call.Resolving?
  {
    call.now + call.request.leaseFor
  }

  /** A completed record never changes. */
  lemma {:induction false} CompletedIsForever(calls: seq<Call>, n: nat, m: nat)
    requires n <= m <= |calls| && SlotAt(calls, n).Some? && SlotAt(calls, n).value.state == Completed
    ensures SlotAt(calls, m) == SlotAt(calls, n)
  {
    if n < m {
      CompletedIsForever(calls, n, m - 1);
    }
  }

  /** A record completes only by a completing call, and keeps that call's response. */
  lemma CompletionRecordsTheResponse(calls: seq<Call>, n: nat, m: nat)
    requires n < m <= |calls| && SlotAt(calls, n + 1).Some? && SlotAt(calls, n + 1).value.state == Completed
    requires SlotAt(calls, n).Some? ==> SlotAt(calls, n).value.state != Completed
    ensures calls[n].Completing? && SlotAt(calls, n).Some? && SlotAt(calls, n).value.state == Pending && SlotAt(calls, m).Some?
    ensures var r := SlotAt(calls, m).value;
      r.status == Some(calls[n].status) && r.body == Some(calls[n].body) && r.resource == calls[n].resource
  {
    CompletedIsForever(calls, n + 1, m);
  }

  /** A well-formed request for the record's own identity, before the record expires. */
  predicate AsksFor(r: Record, q: Request, now: Time) {
    && q.identity == r.identity && q.identity.principal != "" && q.identity.scope != "" && q.identity.key != ""
    && 0 < q.leaseFor && (r.expiresAt.Some? ==> now < r.expiresAt.value)
  }

  /** Nobody else holds the record: it is completed, the request may share its lease, or its lease has run out. */
  predicate IsFree(r: Record, owner: Option<string>, now: Time) {
    match r.state
    case Completed => true
    case FailedRetryable => r.leaseExpires.Some? ==> r.leaseExpires.value <= now
    case Pending => r.leaseOwner.None? || owner.None? || r.leaseOwner == owner
                    || (r.leaseExpires.Some? && r.leaseExpires.value <= now)
  }

  /** A stored record answers exactly a request that asks for it while nobody else holds it. */
  lemma AnsweredIff(r: Record, q: Request, now: Time)
    ensures Resolve(Some(r), q, now).Ok? <==> AsksFor(r, q, now) && IsFree(r, q.owner, now)
  {
  }

  /** From its completion on, whatever happens in between, every request that asks for the record gets that response. */
  lemma ReplaysUntilExpiry(calls: seq<Call>, n: nat, m: nat, q: Request, now: Time)
    requires n <= m <= |calls| && SlotAt(calls, n).Some? && SlotAt(calls, n).value.state == Completed
    ensures var done, answer := SlotAt(calls, n).value, Resolve(SlotAt(calls, m), q, now);
      if AsksFor(done, q, now) then answer == Ok(done) else !answer.Ok?
  {
    CompletedIsForever(calls, n, m);
    AnsweredIff(SlotAt(calls, n).value, q, now);
  }

  /** Once the expiry given at the creation has come, no request is answered. */
  lemma ExpiredNeverAnswers(calls: seq<Call>, n: nat, m: nat, q: Request, now: Time)
    requires n < m <= |calls| && SlotAt(calls, n).None? && SlotAt(calls, n + 1).Some?
    requires calls[n].Resolving? && calls[n].request.expiresAt.Some? && calls[n].request.expiresAt.value <= now
    ensures !Resolve(SlotAt(calls, m), q, now).Ok?
  {
    IdentityIsConstant(calls, n + 1, m);
    AnsweredIff(SlotAt(calls, m).value, q, now);
  }

  /** Identity, creation time and expiry are those of the creation. */
  lemma {:induction false} IdentityIsConstant(calls: seq<Call>, n: nat, m: nat)
    requires n <= m <= |calls| && SlotAt(calls, n).Some?
    ensures SlotAt(calls, m).Some?
    ensures SlotAt(calls, m).value.identity == SlotAt(calls, n).value.identity
    ensures SlotAt(calls, m).value.createdAt == SlotAt(calls, n).value.createdAt
    ensures SlotAt(calls, m).value.expiresAt == SlotAt(calls, n).value.expiresAt
  {
    if n < m {
      IdentityIsConstant(calls, n, m - 1);
    }
  }

  /** After a grant the record is completed or keeps a lease at least that long, through retryable failures too. */
  lemma {:induction false} LeaseCovers(calls: seq<Call>, i: nat, n: nat)
    requires i < n <= |calls| && Grants(calls, i)
    ensures SlotAt(calls, n).Some?
    ensures var r := SlotAt(calls, n).value;
      r.state == Completed || (r.leaseExpires.Some? && r.leaseExpires.value >= GrantEnd(calls[i]))
  {
    if n > i + 1 {
      LeaseCovers(calls, i, n - 1);
    }
  }

  /** Leases are disjoint in time: a later grant starts when every earlier one has ended, whatever the clock does. */
  lemma GrantsAreDisjoint(calls: seq<Call>, i: nat, j: nat)
    requires i < j < |calls| && Grants(calls, i) && Grants(calls, j)
    ensures GrantEnd(calls[i]) <= calls[j].now < GrantEnd(calls[j])
  {
    LeaseCovers(calls, i, j);
  }

  // ----- the repository's reservation --------------------------------------------------

  /** The repository keeps no expiry and reads a lease only while the record is pending. */
  function Reserve(existing: Option<Record>, q: Request, now: Time): Result {
    if existing.None? then
      Ok(Record(q.identity, Pending, Some(now + q.leaseFor), q.owner, None, None, None, now, now, None))
    else
      var r := existing.value;
      if r.identity.requestHash != q.identity.requestHash then Conflict
      else if r.state == Completed then Ok(r)
      else if r.state == Pending && Live(r.leaseExpires, now) then
        if OwnedByAnother(r, q.owner) then Conflict else Ok(r)
      else Ok(Leased(r, q, now))
  }

  /** The key a record is stored under: everything of its identity but the request hash. */
  function SlotOf(identity: Identity): Identity {
    identity.(requestHash := "")
  }

  class IdempotencyRepository {
    var records: map<Identity, Record>

    constructor ()
      ensures records == map[]
    {
      records := map[];
    }

    function Existing(q: Request): Option<Record>
      reads this
    {
      if SlotOf(q.identity) in records then Some(records[SlotOf(q.identity)]) else None
    }

    /** Returns the stored record, renews its lease, or creates it; a conflict changes nothing. */
    method ReserveRequest(q: Request, now: Time) returns (answer: Result)
      modifies this
      ensures answer == Reserve(old(Existing(q)), q, now)
      ensures records == if answer.Ok? then old(records)[SlotOf(q.identity) := answer.record] else old(records)
    {
      var slot := SlotOf(q.identity);
      if slot !in records {
        var created := Record(q.identity, Pending, Some(now + q.leaseFor), q.owner, None, None, None, now, now, None);
        records := records[slot := created];
        return Ok(created);
      }
      var record := records[slot];
      if record.identity.requestHash != q.identity.requestHash {
        return Conflict;
      }
      if record.state == Completed {
        return Ok(record);
      }
      if record.state == Pending && record.leaseExpires.Some? && record.leaseExpires.value > now {
        if OwnedByAnother(record, q.owner) {
          return Conflict;
        }
        return Ok(record);
      }
      record := record.(state := Pending, leaseExpires := Some(now + q.leaseFor), leaseOwner := q.owner, updatedAt := now);
      records := records[slot := record];
      return Ok(record);
    }
  }

  /** The answer is a new lease while the old one still runs. */
  predicate Overlaps(r: Record, q: Request, now: Time, answer: Result) {
    Live(r.leaseExpires, now) && answer.Ok? && answer.record != r
  }

  /** The domain never grants over a live lease; the repository does so exactly after a retryable failure. */
  lemma ReserveOverlapsIff(r: Record, q: Request, now: Time)
    requires r.identity == q.identity && q.leaseFor > 0
    ensures !Overlaps(r, q, now, Resolve(Some(r), q, now))
    ensures Overlaps(r, q, now, Reserve(Some(r), q, now)) <==> r.state == FailedRetryable && Live(r.leaseExpires, now)
  {
  }

  // ----- runs through the repository ---------------------------------------------------

  /** What is stored after a call when reservations go through the repository. */
  function RepositoryStep(slot: Option<Record>, call: Call): Option<Record> {
    if call.Resolving? then Stored(slot, Reserve(slot, call.request, call.now)) else Step(slot, call)
  }

  function ReservedAt(calls: seq<Call>, n: nat): Option<Record>
    requires n <= |calls|
  {
    if n == 0 then None else RepositoryStep(ReservedAt(calls, n - 1), calls[n - 1])
  }

  predicate RepositoryGrants(calls: seq<Call>, i: nat)
    requires i < |calls|
  {
    calls[i].Resolving?
    && var r := Reserve(ReservedAt(calls, i), calls[i].request, calls[i].now); r.Ok? && ReservedAt(calls, i) != Some(r.record)
  }

  predicate PositiveLeases(calls: seq<Call>) {
    forall i :: 0 <= i < |calls| && calls[i].Resolving? ==> calls[i].request.leaseFor > 0
  }

  /** The call reserves the stored request while a retryable failure's lease still runs. */
  predicate ReservesEarly(calls: seq<Call>, j: nat)
    requires j < |calls|
  {
    && calls[j].Resolving? && ReservedAt(calls, j).Some?
    && var r := ReservedAt(calls, j).value;
    && r.identity.requestHash == calls[j].request.identity.requestHash
    && r.state == FailedRetryable && Live(r.leaseExpires, calls[j].now)
  }

  /** No two leases overlap in time. */
  predicate RepositoryGrantsAreDisjoint(calls: seq<Call>) {
    forall i: nat, j: nat | i < j < |calls| && RepositoryGrants(calls, i) && RepositoryGrants(calls, j) ::
      GrantEnd(calls[i]) <= calls[j].now
  }

  /** A stored lease was granted by some call. */
  lemma {:induction false} LeaseWasGranted(calls: seq<Call>, n: nat) returns (i: nat)
    requires n <= |calls| && PositiveLeases(calls)
    requires ReservedAt(calls, n).Some? && ReservedAt(calls, n).value.leaseExpires.Some?
    ensures i < n && RepositoryGrants(calls, i) && ReservedAt(calls, n).value.leaseExpires == Some(GrantEnd(calls[i]))
  {
    var before := ReservedAt(calls, n - 1);
    if before.Some? && before.value.leaseExpires == ReservedAt(calls, n).value.leaseExpires {
      i := LeaseWasGranted(calls, n - 1);
    } else {
      i := n - 1;
    }
  }

  lemma {:induction false} RepositoryLeaseCovers(calls: seq<Call>, i: nat, n: nat)
    requires i < n <= |calls| && PositiveLeases(calls) && RepositoryGrants(calls, i)
    requires forall k: nat | k < n :: !ReservesEarly(calls, k)
    ensures ReservedAt(calls, n).Some?
    ensures var r := ReservedAt(calls, n).value;
      r.state == Completed || (r.leaseExpires.Some? && r.leaseExpires.value >= GrantEnd(calls[i]))
  {
    if n > i + 1 {
      RepositoryLeaseCovers(calls, i, n - 1);
      assert !ReservesEarly(calls, n - 1);
    }
  }

  /** The repository's leases are disjoint exactly when nothing is reserved while a retryable failure's lease still runs. */
  lemma RepositoryDisjointIff(calls: seq<Call>)
    requires PositiveLeases(calls)
    ensures RepositoryGrantsAreDisjoint(calls) <==> forall j: nat | j < |calls| :: !ReservesEarly(calls, j)
  {
    if RepositoryGrantsAreDisjoint(calls) {
      forall j: nat | j < |calls|
        ensures !ReservesEarly(calls, j)
      {
        if ReservesEarly(calls, j) {
          var i := LeaseWasGranted(calls, j);
        }
      }
    }
    if forall j: nat | j < |calls| :: !ReservesEarly(calls, j) {
      forall i: nat, j: nat | i < j < |calls| && RepositoryGrants(calls, i) && RepositoryGrants(calls, j)
        ensures GrantEnd(calls[i]) <= calls[j].now
      {
        RepositoryLeaseCovers(calls, i, j);
        assert !ReservesEarly(calls, j);
      }
    }
  }

  /** A worker fails early in its lease; the repository grants another worker the request at once, the domain does not. */
  lemma RetryOverlaps(identity: Identity)
    requires identity.principal != "" && identity.scope != "" && identity.key != ""
    ensures var calls := [Resolving(0, Request(identity, 10, Some("a"), None)), Failing(1),
                          Resolving(2, Request(identity, 10, Some("b"), None))];
      && RepositoryGrants(calls, 0) && RepositoryGrants(calls, 2) && !RepositoryGrantsAreDisjoint(calls)
      && Grants(calls, 0) && !Grants(calls, 2)
  {
    var calls := [Resolving(0, Request(identity, 10, Some("a"), None)), Failing(1),
                  Resolving(2, Request(identity, 10, Some("b"), None))];
    var created := Record(identity, Pending, Some(10), Some("a"), None, None, None, 0, 0, None);
    var failed := created.(state := FailedRetryable, updatedAt := 1);
    hide SlotAt, ReservedAt, RepositoryGrantsAreDisjoint;
    NoSlots(calls);
    NextSlots(calls, 0);
    assert ReservedAt(calls, 1) == Some(created) && SlotAt(calls, 1) == Some(created);
    NextSlots(calls, 1);
    assert ReservedAt(calls, 2) == Some(failed) && SlotAt(calls, 2) == Some(failed);
    assert ReservesEarly(calls, 2);
    RepositoryDisjointIff(calls);
  }

  lemma NoSlots(calls: seq<Call>)
    ensures SlotAt(calls, 0) == None && ReservedAt(calls, 0) == None
  {
  }

  lemma NextSlots(calls: seq<Call>, n: nat)
    requires n < |calls|
    ensures SlotAt(calls, n + 1) == Step(SlotAt(calls, n), calls[n])
    ensures ReservedAt(calls, n + 1) == RepositoryStep(ReservedAt(calls, n), calls[n])
  {
  }

  /** Apart from that case the two answer alike, for records and requests without expiry that hold a lease. */
  lemma ReserveMeetsResolve(existing: Option<Record>, q: Request, now: Time)
    requires q.leaseFor > 0 && q.identity.principal != "" && q.identity.scope != "" && q.identity.key != ""
    requires q.expiresAt.None?
    requires existing.Some? ==> && existing.value.expiresAt.None?
                                && existing.value.identity.(requestHash := q.identity.requestHash) == q.identity
                                && (existing.value.state == Pending ==> existing.value.leaseExpires.Some?)
    ensures Reserve(existing, q, now) == Resolve(existing, q, now)
        <==> !(existing.Some? && existing.value.identity == q.identity && existing.value.state == FailedRetryable
               && Live(existing.value.leaseExpires, now))
  {
  }
}
