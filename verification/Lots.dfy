/** Material LOT identities: creating, promoting and merging lots, and finding the surviving lot. */
module Lots {
  import opened Options
  import opened Whitespace

  type LotId = nat
  type ActorId = nat

  datatype Status = Canonical | Provisional | ConflictReview | Merged

  datatype Lot = Lot(
    supplier: nat, material: nat, policy: string, key: Option<string>, status: Status, mergedInto: Option<LotId>,
    deleted: bool, version: nat, raw: Option<string>, produced: Option<string>, mark: Option<string>)

  /** The two actors whose approvals a merge records. */
  datatype Approvals = Approvals(lead: ActorId, admin: ActorId, reason: string)

  type Table = map<LotId, Lot>

  datatype Error = StaleVersion | Precondition | AuthorizationDenied | Integrity
                 | Cycle | NotCanonical | NoReference | Unavailable | TooDeep

  datatype Result = Found(id: LotId) | Failed(error: Error)

  const MAX_MERGE_DEPTH := 16

  // ----- what the table itself guarantees ----------------------------------------------

  /** The row checks of the table. */
  predicate RowOk(id: LotId, lot: Lot) {
    match lot.status
    case Canonical => lot.key.Some? && lot.mergedInto.None?
    case Merged => lot.mergedInto.Some? && lot.mergedInto.value != id
    case _ => lot.mergedInto.None?
  }

  predicate SameIdentity(a: Lot, b: Lot) {
    a.supplier == b.supplier && a.material == b.material && a.policy == b.policy && a.key == b.key
  }

  /** No other lot holds the key within the same supplier, material and policy. */
  predicate KeyFree(lots: Table, id: LotId, lot: Lot) {
    lot.key.Some? ==> forall other :: other in lots && other != id ==> !SameIdentity(lots[other], lot)
  }

  /** The lot the unique key leads to. */
  predicate HoldsKey(lots: Table, id: LotId, lot: Lot) {
    id in lots && lot.key.Some? && SameIdentity(lots[id], lot)
  }

  // ----- chains of merges --------------------------------------------------------------

  predicate IsRoot(lots: Table, id: LotId) {
    id in lots && lots[id].mergedInto.None?
  }

  /** Each lot of the path is merged into the next, and the last is merged into none. */
  ghost predicate Chain(lots: Table, path: seq<LotId>) {
    && path != []
    && (forall i :: 0 <= i < |path| ==> path[i] in lots)
    && (forall i :: 0 <= i < |path| - 1 ==> lots[path[i]].mergedInto == Some(path[i + 1]))
    && IsRoot(lots, path[|path| - 1])
  }

  ghost predicate ChainFrom(lots: Table, id: LotId, path: seq<LotId>) {
    Chain(lots, path) && path[0] == id
  }

  /** `root` survives `id`. */
  ghost predicate RootedAt(lots: Table, id: LotId, root: LotId) {
    exists path :: ChainFrom(lots, id, path) && path[|path| - 1] == root
  }

  /** Every lot reaches a root: the merge graph is an acyclic forest. */
  ghost predicate Forest(lots: Table) {
    forall id {:trigger Rooted(lots, id)} :: id in lots ==> Rooted(lots, id)
  }

  ghost predicate Rooted(lots: Table, id: LotId) {
    exists path :: ChainFrom(lots, id, path)
  }

  predicate RowsOk(lots: Table) {
    forall id {:trigger RowOk(id, lots[id])} :: id in lots ==> RowOk(id, lots[id])
  }

  predicate KeysUnique(lots: Table) {
    forall id {:trigger KeyFree(lots, id, lots[id])} :: id in lots ==> KeyFree(lots, id, lots[id])
  }

  predicate SameGoods(a: Lot, b: Lot) {
    a.supplier == b.supplier && a.material == b.material && a.policy == b.policy
  }

  /** A merged lot and the lot it went into agree on supplier, material and policy version. */
  predicate MergesAgree(lots: Table) {
    forall id {:trigger AgreesWithParent(lots, id)} :: id in lots ==> AgreesWithParent(lots, id)
  }

  predicate AgreesWithParent(lots: Table, id: LotId)
    requires id in lots
  {
    match lots[id].mergedInto
    case None => true
    case Some(parent) => parent in lots && SameGoods(lots[id], lots[parent])
  }

  /** Every approval is that of a merged lot, by two distinct actors and with a reason. */
  ghost predicate ApprovalsGenuine(lots: Table, approvals: map<LotId, Approvals>) {
    forall id :: id in approvals ==>
      && id in lots && lots[id].status == Merged
      && approvals[id].lead != approvals[id].admin && !IsBlankText(approvals[id].reason)
  }

  predicate MergesApproved(lots: Table, approvals: map<LotId, Approvals>) {
    forall id :: id in lots && lots[id].status == Merged ==> id in approvals
  }

  /** What every run of the repository keeps. */
  ghost predicate Sound(lots: Table, approvals: map<LotId, Approvals>) {
    RowsOk(lots) && KeysUnique(lots) && Forest(lots) && ApprovalsGenuine(lots, approvals)
  }

  lemma ChainEndsAtOnce(lots: Table, p: seq<LotId>)
    requires Chain(lots, p)
    ensures |p| == 1 <==> lots[p[0]].mergedInto.None?
  {
    if |p| > 1 {
      assert lots[p[0]].mergedInto == Some(p[1]);
    }
  }

  /** In a forest a merged lot's parent is there. */
  lemma ParentIsThere(lots: Table, id: LotId)
    requires Forest(lots) && id in lots && lots[id].mergedInto.Some?
    ensures lots[id].mergedInto.value in lots
  {
    assert Rooted(lots, id);
    var path :| ChainFrom(lots, id, path);
    ChainEndsAtOnce(lots, path);
    assert lots[path[0]].mergedInto == Some(path[1]);
  }

  lemma ChainSuffix(lots: Table, p: seq<LotId>, i: nat)
    requires Chain(lots, p) && i < |p|
    ensures Chain(lots, p[i..])
  {
    forall k | 0 <= k < |p[i..]| - 1 ensures lots[p[i..][k]].mergedInto == Some(p[i..][k + 1]) {
      assert lots[p[i + k]].mergedInto == Some(p[i + k + 1]);
    }
  }

  lemma {:induction false} ChainIsUnique(lots: Table, p: seq<LotId>, q: seq<LotId>)
    requires Chain(lots, p) && Chain(lots, q) && p[0] == q[0]
    ensures p == q
    decreases |p|
  {
    ChainEndsAtOnce(lots, p);
    ChainEndsAtOnce(lots, q);
    if |p| > 1 {
      ChainSuffix(lots, p, 1);
      ChainSuffix(lots, q, 1);
      assert Some(p[1]) == lots[p[0]].mergedInto == Some(q[1]);
      ChainIsUnique(lots, p[1..], q[1..]);
      assert p == [p[0]] + p[1..] && q == [q[0]] + q[1..];
    }
  }

  /** A chain never meets a lot twice. */
  lemma ChainIsSimple(lots: Table, p: seq<LotId>, i: nat, j: nat)
    requires Chain(lots, p) && i < j < |p|
    ensures p[i] != p[j]
  {
    if p[i] == p[j] {
      ChainSuffix(lots, p, i);
      ChainSuffix(lots, p, j);
      ChainIsUnique(lots, p[i..], p[j..]);
    }
  }

  /** Supplier, material and policy version are constant along a chain. */
  lemma {:induction false} ChainAgrees(lots: Table, p: seq<LotId>, i: nat)
    requires Chain(lots, p) && MergesAgree(lots) && i < |p|
    ensures SameGoods(lots[p[0]], lots[p[i]])
  {
    if i > 0 {
      ChainAgrees(lots, p, i - 1);
      assert lots[p[i - 1]].mergedInto == Some(p[i]);
      assert AgreesWithParent(lots, p[i - 1]);
    }
  }

  // ----- the surviving lot -------------------------------------------------------------

  /** The lot of the chain that a walk would trip over. */
  predicate LosesSurvivor(lots: Table, path: seq<LotId>)
    requires forall i :: 0 <= i < |path| ==> path[i] in lots
  {
    exists i :: 1 <= i < |path| && i <= MAX_MERGE_DEPTH && lots[path[i]].deleted
  }

  /** What the bounded walk answers for the chain from a lot. */
  function Survivor(lots: Table, path: seq<LotId>): (r: Result)
    requires path != [] && forall i :: 0 <= i < |path| ==> path[i] in lots
    ensures r.Found? <==> && |path| <= MAX_MERGE_DEPTH && lots[path[|path| - 1]].status == Canonical
                          && forall i :: 1 <= i < |path| ==> !lots[path[i]].deleted
  {
    if LosesSurvivor(lots, path) then Failed(Unavailable)
    else if |path| > MAX_MERGE_DEPTH then Failed(TooDeep)
    else if lots[path[|path| - 1]].status != Canonical then Failed(NotCanonical)
    else Found(path[|path| - 1])
  }

  function WithEvidence(lot: Lot, candidate: Lot): Lot {
    var produced := if lot.produced.None? then candidate.produced else lot.produced;
    var mark := if lot.mark.None? then candidate.mark else lot.mark;
    var clash := (lot.produced.Some? && candidate.produced.Some? && lot.produced != candidate.produced)
              || (lot.mark.Some? && candidate.mark.Some? && lot.mark != candidate.mark);
    var changed := lot.(produced := produced, mark := mark, status := if clash then ConflictReview else lot.status);
    if changed == lot then lot else changed.(version := lot.version + 1)
  }

  /** The row the table accepts for a new lot. */
  predicate Insertable(lots: Table, id: LotId, lot: Lot) {
    RowOk(id, lot) && KeyFree(lots, id, lot) && (lot.mergedInto.Some? ==> lot.mergedInto.value in lots)
  }

  lemma KeyHolderIsUnique(lots: Table, lot: Lot, a: LotId, b: LotId)
    requires KeysUnique(lots) && HoldsKey(lots, a, lot) && HoldsKey(lots, b, lot)
    ensures a == b
  {
    assert KeyFree(lots, a, lots[a]);
  }

  ghost predicate SurvivorIs(lots: Table, id: LotId, r: Result) {
    exists path :: ChainFrom(lots, id, path) && r == Survivor(lots, path)
  }

  // ----- what each operation does ------------------------------------------------------

  /** The candidate's key is held by `existing`, whose survivor takes the candidate's evidence. */
  ghost predicate Resolved(before: Table, existing: LotId, candidate: Lot, after: Table, r: Result) {
    && HoldsKey(before, existing, candidate)
    && (if before[existing].status == Merged then SurvivorIs(before, existing, r) else r == Found(existing))
    && (r.Found? ==> r.id in before)
    && after == if r.Found? then before[r.id := WithEvidence(before[r.id], candidate)] else before
  }

  ghost predicate Created(before: Table, id: LotId, candidate: Lot, after: Table, r: Result) {
    if Insertable(before, id, candidate) then after == before[id := candidate] && r == Found(id)
    else if candidate.key.None? || candidate.status != Canonical || !exists other :: HoldsKey(before, other, candidate) then
      after == before && r == Failed(Integrity)
    else exists existing :: Resolved(before, existing, candidate, after, r)
  }

  predicate PromotionRefused(lots: Table, id: LotId, expected: nat, raw: string, key: string) {
    || id !in lots || lots[id].deleted || lots[id].version != expected || lots[id].status != Provisional
    || lots[id].key.Some? || IsBlankText(raw) || IsBlankText(key)
  }

  function Evidenced(lot: Lot, raw: string, produced: Option<string>, mark: Option<string>): Lot {
    lot.(raw := Some(raw), produced := produced, mark := mark, version := lot.version + 1)
  }

  /** A live lot other than `id` already holds the key. */
  predicate Rival(lots: Table, id: LotId, keyed: Lot, other: LotId) {
    other != id && HoldsKey(lots, other, keyed) && !lots[other].deleted
  }

  /** The lot goes under review and the answer is the survivor of the lot that holds the key. */
  ghost predicate Reviewed(before: Table, id: LotId, review: Lot, keyed: Lot, existing: LotId, after: Table, r: Result) {
    && Rival(before, id, keyed, existing) && SurvivorIs(before[id := review], existing, r)
    && after == if r.Found? then before[id := review] else before
  }

  ghost predicate Promoted(before: Table, id: LotId, expected: nat, raw: string, key: string,
                           produced: Option<string>, mark: Option<string>, after: Table, r: Result) {
    if PromotionRefused(before, id, expected, raw, key) then after == before && r == Failed(StaleVersion)
    else
      var keyed := before[id].(key := Some(key));
      var review := Evidenced(before[id].(status := ConflictReview), raw, produced, mark);
      if exists other :: Rival(before, id, keyed, other) then
        exists existing :: Reviewed(before, id, review, keyed, existing, after, r)
      else if !KeyFree(before, id, keyed) then after == before && r == Failed(Integrity)
      else after == before[id := Evidenced(keyed.(status := Canonical), raw, produced, mark)] && r == Found(id)
  }

  predicate MergeRefused(lots: Table, source: LotId, expected: nat, target: LotId) {
    || source !in lots || lots[source].deleted || lots[source].version != expected
    || lots[source].status != ConflictReview || lots[source].mergedInto.Some? || source == target
    || target !in lots || lots[target].deleted || lots[target].status != Canonical || lots[target].key.None?
    || lots[target].mergedInto.Some? || !SameGoods(lots[target], lots[source])
  }

  function Absorbed(lot: Lot, target: LotId): Lot {
    lot.(status := Merged, mergedInto := Some(target), version := lot.version + 1)
  }

  function Merge(lots: Table, approvals: map<LotId, Approvals>, source: LotId, expected: nat, target: LotId,
                 given: Approvals): (Table, map<LotId, Approvals>, Result) {
    if given.lead == given.admin || IsBlankText(given.reason) then (lots, approvals, Failed(AuthorizationDenied))
    else if MergeRefused(lots, source, expected, target) then (lots, approvals, Failed(StaleVersion))
    else if source in approvals then (lots, approvals, Failed(Integrity))
    else (lots[source := Absorbed(lots[source], target)], approvals[source := given], Found(source))
  }

  // ----- what the operations keep ------------------------------------------------------

  lemma RelabelKeepsChain(lots: Table, id: LotId, lot: Lot, path: seq<LotId>)
    requires id in lots ==> lot.mergedInto == lots[id].mergedInto
    requires Chain(lots, path)
    ensures Chain(lots[id := lot], path)
  {
    var more := lots[id := lot];
    forall i | 0 <= i < |path| - 1 ensures more[path[i]].mergedInto == Some(path[i + 1]) {
      assert lots[path[i]].mergedInto == Some(path[i + 1]);
    }
    assert path[|path| - 1] in lots;
  }

  /** Changing a lot without changing what it is merged into, or adding a root, keeps every chain. */
  lemma RelabelKeepsForest(lots: Table, id: LotId, lot: Lot)
    requires Forest(lots) && lot.mergedInto == (if id in lots then lots[id].mergedInto else None)
    ensures Forest(lots[id := lot])
  {
    var more := lots[id := lot];
    forall other | other in more
      ensures Rooted(more, other)
    {
      if other in lots {
        assert Rooted(lots, other);
        var path :| ChainFrom(lots, other, path);
        RelabelKeepsChain(lots, id, lot, path);
        assert ChainFrom(more, other, path);
      } else {
        assert ChainFrom(more, other, [id]);
      }
    }
  }

  lemma UpdateKeepsKeysUnique(lots: Table, id: LotId, lot: Lot)
    requires KeysUnique(lots) && KeyFree(lots, id, lot)
    ensures KeysUnique(lots[id := lot])
  {
    var more := lots[id := lot];
    forall a | a in more ensures KeyFree(more, a, more[a]) {
      if a != id && more[a].key.Some? {
        assert KeyFree(lots, a, lots[a]);
      }
    }
  }

  /** A lot that is not merged may be added, or changed as long as it stays unmerged. */
  lemma UnmergedUpdateKeepsSound(lots: Table, approvals: map<LotId, Approvals>, id: LotId, lot: Lot)
    requires Sound(lots, approvals) && RowOk(id, lot) && KeyFree(lots, id, lot) && lot.status != Merged
    requires id in lots ==> lots[id].status != Merged
    ensures Sound(lots[id := lot], approvals)
  {
    assert id in lots ==> RowOk(id, lots[id]);
    RelabelKeepsForest(lots, id, lot);
    UpdateKeepsKeysUnique(lots, id, lot);
  }

  /** A new lot that is merged already hangs below a lot that is there. */
  lemma LeafKeepsForest(lots: Table, id: LotId, lot: Lot)
    requires Forest(lots) && id !in lots && lot.mergedInto.Some? && lot.mergedInto.value in lots
    ensures Forest(lots[id := lot])
  {
    var more := lots[id := lot];
    forall other | other in more
      ensures Rooted(more, other)
    {
      var start := if other == id then lot.mergedInto.value else other;
      assert Rooted(lots, start);
      var path :| ChainFrom(lots, start, path);
      LeafKeepsChain(lots, id, lot, path);
      assert ChainFrom(more, other, if other == id then [id] + path else path);
    }
  }

  lemma LeafKeepsChain(lots: Table, id: LotId, lot: Lot, path: seq<LotId>)
    requires Chain(lots, path) && id !in lots
    ensures Chain(lots[id := lot], path)
    ensures lot.mergedInto == Some(path[0]) ==> Chain(lots[id := lot], [id] + path)
  {
    var more, longer := lots[id := lot], [id] + path;
    forall i | 0 <= i < |path| - 1 ensures more[path[i]].mergedInto == Some(path[i + 1]) {
      assert lots[path[i]].mergedInto == Some(path[i + 1]);
    }
    assert path[|path| - 1] in lots;
    if lot.mergedInto == Some(path[0]) {
      forall i | 0 <= i < |longer| - 1 ensures more[longer[i]].mergedInto == Some(longer[i + 1]) {
        if i > 0 {
          assert more[path[i - 1]].mergedInto == Some(path[i]);
        }
      }
      assert longer[|longer| - 1] == path[|path| - 1];
    }
  }

  /** An unfinished chain goes on through the target; every other chain stays. */
  lemma MergeExtendsChain(lots: Table, source: LotId, lot: Lot, path: seq<LotId>)
    requires Chain(lots, path) && lot.mergedInto.Some? && lot.mergedInto.value != source
    requires IsRoot(lots, source) && IsRoot(lots, lot.mergedInto.value)
    ensures Chain(lots[source := lot], if path[|path| - 1] == source then path + [lot.mergedInto.value] else path)
  {
    var more := lots[source := lot];
    var longer := if path[|path| - 1] == source then path + [lot.mergedInto.value] else path;
    forall i | 0 <= i < |longer| - 1 ensures more[longer[i]].mergedInto == Some(longer[i + 1]) {
      if i < |path| - 1 {
        assert lots[path[i]].mergedInto == Some(path[i + 1]);
      }
    }
  }

  lemma MergeKeepsForest(lots: Table, source: LotId, lot: Lot)
    requires Forest(lots) && lot.mergedInto.Some? && lot.mergedInto.value != source
    requires IsRoot(lots, source) && IsRoot(lots, lot.mergedInto.value)
    ensures Forest(lots[source := lot])
  {
    var more := lots[source := lot];
    forall other | other in more
      ensures Rooted(more, other)
    {
      assert Rooted(lots, other);
      var path :| ChainFrom(lots, other, path);
      MergeExtendsChain(lots, source, lot, path);
      assert ChainFrom(more, other, if path[|path| - 1] == source then path + [lot.mergedInto.value] else path);
    }
  }

  lemma MergeKeepsSound(lots: Table, approvals: map<LotId, Approvals>, source: LotId, expected: nat, target: LotId,
                        given: Approvals)
    requires Sound(lots, approvals)
    ensures var (after, signed, r) := Merge(lots, approvals, source, expected, target, given); Sound(after, signed)
  {
    if Merge(lots, approvals, source, expected, target, given).2.Found? {
      var lot := Absorbed(lots[source], target);
      MergeKeepsForest(lots, source, lot);
      assert KeyFree(lots, source, lots[source]);
      UpdateKeepsKeysUnique(lots, source, lot);
    }
  }

  /** A merge moves exactly the lots rooted at its source, to its target. */
  lemma MergeMovesTheSource(lots: Table, approvals: map<LotId, Approvals>, source: LotId, expected: nat, target: LotId,
                            given: Approvals, id: LotId, root: LotId)
    requires Forest(lots) && id in lots
    requires Merge(lots, approvals, source, expected, target, given).2.Found?
    ensures var after := Merge(lots, approvals, source, expected, target, given).0;
      && (RootedAt(after, id, root) <==> root != source && (|| RootedAt(lots, id, root)
                                                           || (root == target && RootedAt(lots, id, source))))
  {
    var lot := Absorbed(lots[source], target);
    var after := lots[source := lot];
    assert Rooted(lots, id);
    var path :| ChainFrom(lots, id, path);
    var end := path[|path| - 1];
    var longer := if end == source then path + [target] else path;
    MergeExtendsChain(lots, source, lot, path);
    TheRoot(lots, id, path);
    TheRoot(after, id, longer);
  }

  /** A chain leads to the one root of its first lot. */
  lemma TheRoot(lots: Table, id: LotId, path: seq<LotId>)
    requires ChainFrom(lots, id, path)
    ensures forall root :: RootedAt(lots, id, root) <==> root == path[|path| - 1]
  {
    forall other | ChainFrom(lots, id, other) ensures other == path {
      ChainIsUnique(lots, other, path);
    }
  }

  // ----- runs --------------------------------------------------------------------------

  datatype Request =
    | Add(candidate: Lot)
    | Promote(expected: nat, raw: string, key: string, produced: Option<string>, mark: Option<string>)
    | MergeInto(expected: nat, target: LotId, given: Approvals)

  datatype State = State(lots: Table, approvals: map<LotId, Approvals>)

  /** One request on a lot; a new lot comes under an unused id. */
  ghost predicate Step(before: State, id: LotId, request: Request, after: State, r: Result) {
    match request
    case Add(candidate) => id !in before.lots && after.approvals == before.approvals
                           && Created(before.lots, id, candidate, after.lots, r)
    case Promote(expected, raw, key, produced, mark) =>
      after.approvals == before.approvals && Promoted(before.lots, id, expected, raw, key, produced, mark, after.lots, r)
    case MergeInto(expected, target, given) =>
      (after.lots, after.approvals, r) == Merge(before.lots, before.approvals, id, expected, target, given)
  }

  /** Adding a lot keeps the table sound, whatever row it adds. */
  lemma CreateKeepsSound(before: Table, approvals: map<LotId, Approvals>, id: LotId, candidate: Lot, after: Table, r: Result)
    requires Sound(before, approvals) && id !in before && Created(before, id, candidate, after, r)
    ensures Sound(after, approvals)
  {
    if Insertable(before, id, candidate) {
      if candidate.status == Merged {
        LeafKeepsForest(before, id, candidate);
        UpdateKeepsKeysUnique(before, id, candidate);
      } else {
        UnmergedUpdateKeepsSound(before, approvals, id, candidate);
      }
    } else if after != before {
      var existing :| Resolved(before, existing, candidate, after, r);
      assert KeyFree(before, r.id, before[r.id]) && RowOk(r.id, before[r.id]);
      UnmergedUpdateKeepsSound(before, approvals, r.id, WithEvidence(before[r.id], candidate));
    }
  }

  lemma PromoteKeepsSound(before: State, id: LotId, expected: nat, raw: string, key: string,
                          produced: Option<string>, mark: Option<string>, after: Table, r: Result)
    requires Sound(before.lots, before.approvals)
    requires Promoted(before.lots, id, expected, raw, key, produced, mark, after, r)
    ensures Sound(after, before.approvals)
  {
    if after != before.lots {
      assert RowOk(id, before.lots[id]);
      UnmergedUpdateKeepsSound(before.lots, before.approvals, id, after[id]);
    }
  }

  lemma StepKeepsSound(before: State, id: LotId, request: Request, after: State, r: Result)
    requires Sound(before.lots, before.approvals) && Step(before, id, request, after, r)
    ensures Sound(after.lots, after.approvals)
  {
    match request
    case Add(candidate) => CreateKeepsSound(before.lots, before.approvals, id, candidate, after.lots, r);
    case Promote(expected, raw, key, produced, mark) =>
      PromoteKeepsSound(before, id, expected, raw, key, produced, mark, after.lots, r);
    case MergeInto(expected, target, given) =>
      MergeKeepsSound(before.lots, before.approvals, id, expected, target, given);
  }

  ghost predicate Run(states: seq<State>, ids: seq<LotId>, requests: seq<Request>, results: seq<Result>) {
    && |states| == |ids| + 1 == |requests| + 1 == |results| + 1 && states[0] == State(map[], map[])
    && forall i :: 0 <= i < |ids| ==> Step(states[i], ids[i], requests[i], states[i + 1], results[i])
  }

  /** Every table a run reaches is a forest with unique keys, whose approvals are those of merged lots. */
  lemma {:induction false} RunsStaySound(states: seq<State>, ids: seq<LotId>, requests: seq<Request>, results: seq<Result>,
                                         n: nat)
    requires Run(states, ids, requests, results) && n < |states|
    ensures Sound(states[n].lots, states[n].approvals)
  {
    hide Sound, Step;
    if n > 0 {
      RunsStaySound(states, ids, requests, results, n - 1);
      assert Step(states[n - 1], ids[n - 1], requests[n - 1], states[n], results[n - 1]);
      StepKeepsSound(states[n - 1], ids[n - 1], requests[n - 1], states[n], results[n - 1]);
    } else {
      NoLotsAreSound();
    }
  }

  lemma NoLotsAreSound()
    ensures Sound(map[], map[]) && MergesAgree(map[])
  {
  }

  /** No request moves a merged lot or makes a lot change its goods. */
  lemma StepKeepsMerges(before: State, id: LotId, request: Request, after: State, r: Result, lot: LotId)
    requires RowsOk(before.lots) && Step(before, id, request, after, r) && lot in before.lots
    ensures lot in after.lots && SameGoods(before.lots[lot], after.lots[lot])
    ensures before.lots[lot].status == Merged ==> after.lots[lot] == before.lots[lot]
  {
    match request
    case Add(candidate) =>
      if !Insertable(before.lots, id, candidate) && after.lots != before.lots {
        var existing :| Resolved(before.lots, existing, candidate, after.lots, r);
        assert RowOk(r.id, before.lots[r.id]);
      }
    case _ =>
  }

  /** Over a whole run a lot keeps its goods, and a merged lot is never touched again. */
  lemma {:induction false} RunsKeepMerges(states: seq<State>, ids: seq<LotId>, requests: seq<Request>,
                                          results: seq<Result>, n: nat, m: nat, lot: LotId)
    requires Run(states, ids, requests, results) && n <= m < |states| && lot in states[n].lots
    ensures lot in states[m].lots && SameGoods(states[n].lots[lot], states[m].lots[lot])
    ensures states[n].lots[lot].status == Merged ==> states[m].lots[lot] == states[n].lots[lot]
  {
    if n < m {
      RunsKeepMerges(states, ids, requests, results, n, m - 1, lot);
      RunsStaySound(states, ids, requests, results, m - 1);
      assert Step(states[m - 1], ids[m - 1], requests[m - 1], states[m], results[m - 1]);
      StepKeepsMerges(states[m - 1], ids[m - 1], requests[m - 1], states[m], results[m - 1], lot);
    }
  }

  // ----- what adding a merged lot breaks -----------------------------------------------

  /** The request adds a lot that is merged already. */
  predicate AddsMerged(before: State, id: LotId, request: Request) {
    request.Add? && request.candidate.status == Merged && Insertable(before.lots, id, request.candidate)
  }

  /** The request adds a merged lot of other goods than the lot it is merged into. */
  predicate AddsDisagreeing(before: State, id: LotId, request: Request) {
    AddsMerged(before, id, request) && !SameGoods(request.candidate, before.lots[request.candidate.mergedInto.value])
  }

  /** The lots a request newly makes merged: one merged by it, or one added so. */
  lemma NewlyMerged(before: State, id: LotId, request: Request, after: State, r: Result, lot: LotId)
    requires RowsOk(before.lots) && Step(before, id, request, after, r)
    requires lot in after.lots && after.lots[lot].status == Merged
    ensures (lot in before.lots && before.lots[lot].status == Merged)
            || (lot == id && (AddsMerged(before, id, request) || (request.MergeInto? && r.Found?)))
  {
    match request
    case Add(candidate) =>
      if !Insertable(before.lots, id, candidate) && after.lots != before.lots {
        var existing :| Resolved(before.lots, existing, candidate, after.lots, r);
      }
    case _ =>
  }

  lemma StepAgreesIff(before: State, id: LotId, request: Request, after: State, r: Result)
    requires RowsOk(before.lots) && Forest(before.lots) && RowsOk(after.lots) && Step(before, id, request, after, r)
    ensures MergesAgree(after.lots) <==> MergesAgree(before.lots) && !AddsDisagreeing(before, id, request)
  {
    if MergesAgree(after.lots) {
      forall lot | lot in before.lots ensures AgreesWithParent(before.lots, lot) {
        MergedAgreesStill(before, id, request, after, r, lot);
      }
      if AddsMerged(before, id, request) {
        assert AgreesWithParent(after.lots, id);
      }
    } else if MergesAgree(before.lots) {
      forall lot | lot in after.lots && !AddsDisagreeing(before, id, request) ensures AgreesWithParent(after.lots, lot) {
        assert RowOk(lot, after.lots[lot]);
        if after.lots[lot].status == Merged {
          NewlyMerged(before, id, request, after, r, lot);
          if lot in before.lots && before.lots[lot].status == Merged {
            MergedAgreesStill(before, id, request, after, r, lot);
          }
        }
      }
    }
  }

  /** A lot already there that agrees with its parent after a request did so before, and a merged one goes on doing so. */
  lemma MergedAgreesStill(before: State, id: LotId, request: Request, after: State, r: Result, lot: LotId)
    requires RowsOk(before.lots) && Forest(before.lots) && Step(before, id, request, after, r) && lot in before.lots
    ensures lot in after.lots && (AgreesWithParent(before.lots, lot) <== AgreesWithParent(after.lots, lot))
    ensures before.lots[lot].status == Merged && AgreesWithParent(before.lots, lot) ==> AgreesWithParent(after.lots, lot)
  {
    assert RowOk(lot, before.lots[lot]);
    StepKeepsMerges(before, id, request, after, r, lot);
    if before.lots[lot].status == Merged {
      ParentIsThere(before.lots, lot);
      StepKeepsMerges(before, id, request, after, r, before.lots[lot].mergedInto.value);
    }
  }

  lemma StepApprovedIff(before: State, id: LotId, request: Request, after: State, r: Result)
    requires Sound(before.lots, before.approvals) && Step(before, id, request, after, r)
    ensures MergesApproved(after.lots, after.approvals)
            <==> MergesApproved(before.lots, before.approvals) && !AddsMerged(before, id, request)
  {
    forall lot | lot in after.lots && after.lots[lot].status == Merged
      ensures (lot in before.lots && before.lots[lot].status == Merged)
              || (lot == id && (AddsMerged(before, id, request) || (request.MergeInto? && r.Found?)))
    {
      NewlyMerged(before, id, request, after, r, lot);
    }
    if MergesApproved(after.lots, after.approvals) {
      forall lot | lot in before.lots && before.lots[lot].status == Merged ensures lot in before.approvals {
        StepKeepsMerges(before, id, request, after, r, lot);
      }
    }
  }

  /** Merged lots agree with their parents exactly when no request so far added one that did not. */
  lemma {:induction false} RunsAgreeIff(states: seq<State>, ids: seq<LotId>, requests: seq<Request>, results: seq<Result>,
                                        n: nat)
    requires Run(states, ids, requests, results) && n < |states|
    ensures MergesAgree(states[n].lots) <==> forall i :: 0 <= i < n ==> !AddsDisagreeing(states[i], ids[i], requests[i])
  {
    hide Step, MergesAgree, AddsDisagreeing;
    if n > 0 {
      RunsAgreeIff(states, ids, requests, results, n - 1);
      RunsStaySound(states, ids, requests, results, n - 1);
      RunsStaySound(states, ids, requests, results, n);
      assert Step(states[n - 1], ids[n - 1], requests[n - 1], states[n], results[n - 1]);
      StepAgreesIff(states[n - 1], ids[n - 1], requests[n - 1], states[n], results[n - 1]);
    } else {
      NoLotsAreSound();
    }
  }

  /** Every merged lot carries its two approvals exactly when no request so far added one already merged. */
  lemma {:induction false} RunsApprovedIff(states: seq<State>, ids: seq<LotId>, requests: seq<Request>, results: seq<Result>,
                                           n: nat)
    requires Run(states, ids, requests, results) && n < |states|
    ensures MergesApproved(states[n].lots, states[n].approvals)
            <==> forall i :: 0 <= i < n ==> !AddsMerged(states[i], ids[i], requests[i])
  {
    hide Step, AddsMerged, Sound;
    if n > 0 {
      RunsApprovedIff(states, ids, requests, results, n - 1);
      RunsStaySound(states, ids, requests, results, n - 1);
      assert Step(states[n - 1], ids[n - 1], requests[n - 1], states[n], results[n - 1]);
      StepApprovedIff(states[n - 1], ids[n - 1], requests[n - 1], states[n], results[n - 1]);
    }
  }

  /** A run that adds a merged lot of another supplier than the lot it is merged into. */
  lemma AddedMergeEscapes()
    ensures var kept := Lot(1, 1, "p", Some("k"), Canonical, None, false, 1, None, None, None);
      var stray := Lot(2, 1, "p", None, Merged, Some(0), false, 1, None, None, None);
      var states := [State(map[], map[]), State(map[0 := kept], map[]), State(map[0 := kept, 1 := stray], map[])];
      && Run(states, [0, 1], [Add(kept), Add(stray)], [Found(0), Found(1)])
      && !MergesAgree(states[2].lots) && !MergesApproved(states[2].lots, states[2].approvals)
  {
    var kept := Lot(1, 1, "p", Some("k"), Canonical, None, false, 1, None, None, None);
    var stray := Lot(2, 1, "p", None, Merged, Some(0), false, 1, None, None, None);
    var none, one, two := State(map[], map[]), State(map[0 := kept], map[]), State(map[0 := kept, 1 := stray], map[]);
    assert Step(none, 0, Add(kept), one, Found(0)) && Step(one, 1, Add(stray), two, Found(1));
    assert !AgreesWithParent(two.lots, 1);
    assert two.lots[1].status == Merged;
  }

  // ----- one outcome -------------------------------------------------------------------

  lemma CreatedOnce(before: Table, id: LotId, candidate: Lot, after: Table, r: Result, after': Table, r': Result)
    requires KeysUnique(before) && Created(before, id, candidate, after, r) && Created(before, id, candidate, after', r')
    ensures after == after' && r == r'
  {
    if !Insertable(before, id, candidate) && candidate.key.Some? && candidate.status == Canonical
       && exists other :: HoldsKey(before, other, candidate) {
      var a :| Resolved(before, a, candidate, after, r);
      var b :| Resolved(before, b, candidate, after', r');
      KeyHolderIsUnique(before, candidate, a, b);
      if before[a].status == Merged {
        SurvivorOnce(before, a, r, r');
      }
    }
  }

  lemma SurvivorOnce(lots: Table, id: LotId, r: Result, r': Result)
    requires SurvivorIs(lots, id, r) && SurvivorIs(lots, id, r')
    ensures r == r'
  {
    var p :| ChainFrom(lots, id, p) && r == Survivor(lots, p);
    var q :| ChainFrom(lots, id, q) && r' == Survivor(lots, q);
    ChainIsUnique(lots, p, q);
  }

  lemma PromotedOnce(before: Table, id: LotId, expected: nat, raw: string, key: string, produced: Option<string>,
                     mark: Option<string>, after: Table, r: Result, after': Table, r': Result)
    requires KeysUnique(before) && Promoted(before, id, expected, raw, key, produced, mark, after, r)
    requires Promoted(before, id, expected, raw, key, produced, mark, after', r')
    ensures after == after' && r == r'
  {
    if !PromotionRefused(before, id, expected, raw, key) {
      var keyed := before[id].(key := Some(key));
      var review := Evidenced(before[id].(status := ConflictReview), raw, produced, mark);
      if exists other :: Rival(before, id, keyed, other) {
        var a :| Reviewed(before, id, review, keyed, a, after, r);
        var b :| Reviewed(before, id, review, keyed, b, after', r');
        KeyHolderIsUnique(before, keyed, a, b);
        SurvivorOnce(before[id := review], a, r, r');
      }
    }
  }

  /** Every request has one outcome: the lot that holds a key and the survivor of a lot are unique. */
  lemma StepHasOneOutcome(before: State, id: LotId, request: Request, after: State, r: Result, after': State, r': Result)
    requires Sound(before.lots, before.approvals)
    requires Step(before, id, request, after, r) && Step(before, id, request, after', r')
    ensures after == after' && r == r'
  {
    match request
    case Add(candidate) => CreatedOnce(before.lots, id, candidate, after.lots, r, after'.lots, r');
    case Promote(expected, raw, key, produced, mark) =>
      PromotedOnce(before.lots, id, expected, raw, key, produced, mark, after.lots, r, after'.lots, r');
    case MergeInto(_, _, _) =>
  }

  class LotRepository {
    var lots: Table
    var approvals: map<LotId, Approvals>

    constructor ()
      ensures lots == map[] && approvals == map[]
    {
      lots, approvals := map[], map[];
    }

    /** Follows the merges from a lot, at most `MAX_MERGE_DEPTH` lots far. */
    method SurvivingLot(id: LotId, ghost path: seq<LotId>) returns (r: Result)
      requires ChainFrom(lots, id, path) && RowsOk(lots)
      ensures r == Survivor(lots, path)
      ensures r != Failed(Cycle) && r != Failed(NoReference)
    {
      var visited: set<LotId> := {};
      var current := id;
      for i := 0 to MAX_MERGE_DEPTH
        invariant i < |path| && current == path[i]
        invariant visited == set k | 0 <= k < i :: path[k]
        invariant forall k :: 1 <= k <= i ==> !lots[path[k]].deleted
      {
        if current in visited {
          ghost var k :| 0 <= k < i && path[k] == current;
          ChainIsSimple(lots, path, k, i);
          assert false;
          return Failed(Cycle);
        }
        visited := visited + {current};
        assert RowOk(current, lots[current]);
        ghost var rest := path[i..];
        ChainSuffix(lots, path, i);
        ChainEndsAtOnce(lots, rest);
        if lots[current].status != Merged {
          assert i == |path| - 1;
          if lots[current].status != Canonical || lots[current].mergedInto.Some? {
            return Failed(NotCanonical);
          }
          return Found(current);
        }
        if lots[current].mergedInto.None? {
          assert false;
          return Failed(NoReference);
        }
        var next := lots[current].mergedInto.value;
        assert lots[path[i]].mergedInto == Some(path[i + 1]);
        if next !in lots || lots[next].deleted {
          return Failed(Unavailable);
        }
        current := next;
      }
      return Failed(TooDeep);
    }

    /** Fills missing evidence; contradicting evidence puts the lot under review. */
    method ApplyConflictEvidence(id: LotId, candidate: Lot)
      requires id in lots
      modifies this`lots
      ensures lots == old(lots)[id := WithEvidence(old(lots)[id], candidate)]
    {
      var lot := lots[id];
      if lot.produced.None? {
        lot := lot.(produced := candidate.produced);
      } else if candidate.produced.Some? && lot.produced != candidate.produced {
        lot := lot.(status := ConflictReview);
      }
      if lot.mark.None? {
        lot := lot.(mark := candidate.mark);
      } else if candidate.mark.Some? && lot.mark != candidate.mark {
        lot := lot.(status := ConflictReview);
      }
      if lot != lots[id] {
        lot := lot.(version := lot.version + 1);
      }
      lots := lots[id := lot];
    }

    /** Adds the candidate under a fresh id, or finds the lot that already stands for it. */
    method GetOrCreateCanonical(id: LotId, candidate: Lot) returns (r: Result)
      requires id !in lots && Sound(lots, approvals)
      modifies this`lots
      ensures Created(old(lots), id, candidate, lots, r)
    {
      if Insertable(lots, id, candidate) {
        lots := lots[id := candidate];
        return Found(id);
      }
      if candidate.key.None? || candidate.status != Canonical {
        return Failed(Integrity);
      }
      if !exists other :: other in lots && HoldsKey(lots, other, candidate) {
        return Failed(Integrity);
      }
      var existing :| existing in lots && HoldsKey(lots, existing, candidate);
      assert Rooted(lots, existing);
      ghost var path :| ChainFrom(lots, existing, path);
      r := Found(existing);
      if lots[existing].status == Merged {
        r := SurvivingLot(existing, path);
      }
      if r.Found? {
        ApplyConflictEvidence(r.id, candidate);
      }
      assert Resolved(old(lots), existing, candidate, lots, r);
    }

    /** Gives a provisional lot its key, or puts it under review when the key is taken. */
    method PromoteProvisional(id: LotId, expected: nat, raw: string, key: string,
                              produced: Option<string>, mark: Option<string>) returns (r: Result)
      requires Sound(lots, approvals)
      modifies this`lots
      ensures Promoted(old(lots), id, expected, raw, key, produced, mark, lots, r)
    {
      if PromotionRefused(lots, id, expected, raw, key) {
        return Failed(StaleVersion);
      }
      var before, lot := lots, lots[id];
      assert RowOk(id, lot);
      var keyed := lot.(key := Some(key));
      if exists other :: other in lots && Rival(lots, id, keyed, other) {
        var existing :| existing in lots && Rival(lots, id, keyed, existing);
        var review := Evidenced(lot.(status := ConflictReview), raw, produced, mark);
        r := Review(id, review, existing);
        assert Reviewed(before, id, review, keyed, existing, lots, r);
        return r;
      }
      if exists other :: other in lots && other != id && HoldsKey(lots, other, keyed) {
        return Failed(Integrity);
      }
      lots := lots[id := Evidenced(keyed.(status := Canonical), raw, produced, mark)];
      return Found(id);
    }

    /** Writes the reviewed lot and looks for the survivor; a failure rolls the transaction back. */
    method Review(id: LotId, review: Lot, existing: LotId) returns (r: Result)
      requires Sound(lots, approvals) && existing in lots && id in lots
      requires RowOk(id, review) && lots[id].mergedInto.None? && review.mergedInto.None?
      modifies this`lots
      ensures SurvivorIs(old(lots)[id := review], existing, r)
      ensures lots == if r.Found? then old(lots)[id := review] else old(lots)
    {
      var before := lots;
      RelabelKeepsForest(lots, id, review);
      lots := lots[id := review];
      assert Rooted(lots, existing);
      ghost var path :| ChainFrom(lots, existing, path);
      r := SurvivingLot(existing, path);
      if r.Failed? {
        lots := before;
      }
    }

    /** Merges a lot under review into a canonical lot, recording both approvals. */
    method GuardedMerge(source: LotId, expected: nat, target: LotId, given: Approvals) returns (r: Result)
      modifies this
      ensures (lots, approvals, r) == Merge(old(lots), old(approvals), source, expected, target, given)
    {
      if given.lead == given.admin || IsBlankText(given.reason) {
        return Failed(AuthorizationDenied);
      }
      if MergeRefused(lots, source, expected, target) {
        return Failed(StaleVersion);
      }
      if source in approvals {
        return Failed(Integrity);
      }
      approvals := approvals[source := given];
      lots := lots[source := Absorbed(lots[source], target)];
      return Found(source);
    }
  }
}
