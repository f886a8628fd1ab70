/** What happens to one lot over a run: its evidence, its status, its version, and who may change it. */
module LotHistory {
  import opened Options
  import opened Whitespace
  import opened Lots

  // ----- evidence ----------------------------------------------------------------------

  /** Both are given and they differ. */
  ghost predicate Contradicts(known: Option<string>, told: Option<string>) {
    exists a, b :: known == Some(a) && told == Some(b) && a != b
  }

  /** Known evidence stays and missing evidence is filled; a contradiction, and nothing else, puts the lot under review. */
  lemma EvidenceIff(lot: Lot, candidate: Lot)
    ensures var after := WithEvidence(lot, candidate);
      && (lot.produced.Some? ==> after.produced == lot.produced) && (lot.mark.Some? ==> after.mark == lot.mark)
      && (lot.produced.None? ==> after.produced == candidate.produced) && (lot.mark.None? ==> after.mark == candidate.mark)
      && (after.status == ConflictReview <==>
            lot.status == ConflictReview || Contradicts(lot.produced, candidate.produced) || Contradicts(lot.mark, candidate.mark))
      && (after.status == ConflictReview || after.status == lot.status)
      && after == lot.(status := after.status, produced := after.produced, mark := after.mark, version := after.version)
  {
    if lot.produced.Some? && candidate.produced.Some? && lot.produced != candidate.produced {
      assert lot.produced.value != candidate.produced.value;
    }
    if lot.mark.Some? && candidate.mark.Some? && lot.mark != candidate.mark {
      assert lot.mark.value != candidate.mark.value;
    }
  }

  /** The version goes up by one exactly when something changes; the same evidence again changes nothing. */
  lemma EvidenceSettles(lot: Lot, candidate: Lot)
    ensures var after := WithEvidence(lot, candidate);
      && (after == lot || after.version == lot.version + 1)
      && (after != lot <==> (lot.produced.None? && candidate.produced.Some?) || (lot.mark.None? && candidate.mark.Some?)
                            || (lot.status != ConflictReview && after.status == ConflictReview))
      && WithEvidence(after, candidate) == after
  {
  }

  // ----- who may change a lot ----------------------------------------------------------

  /** A merge goes through exactly when two actors give a reason, the lot seen is under review, and the target fits. */
  lemma MergedIff(lots: Table, approvals: map<LotId, Approvals>, source: LotId, expected: nat, target: LotId, given: Approvals)
    requires Sound(lots, approvals)
    ensures Merge(lots, approvals, source, expected, target, given).2 == Found(source) <==>
      && given.lead != given.admin && !IsBlankText(given.reason)
      && source in lots && target in lots && source != target
      && var (from, into) := (lots[source], lots[target]);
      && !from.deleted && from.status == ConflictReview && from.version == expected
      && !into.deleted && into.status == Canonical
      && from.supplier == into.supplier && from.material == into.material && from.policy == into.policy
  {
    if source in lots && target in lots {
      assert RowOk(source, lots[source]) && RowOk(target, lots[target]);
    }
  }

  /** A merge that goes through records its two approvals and leaves everything else of the lot. */
  lemma MergeLeaves(lots: Table, approvals: map<LotId, Approvals>, source: LotId, expected: nat, target: LotId,
                    given: Approvals, id: LotId)
    requires Merge(lots, approvals, source, expected, target, given).2.Found? && id in lots
    ensures var (after, signed, r) := Merge(lots, approvals, source, expected, target, given);
      && after.Keys == lots.Keys && (id != source ==> after[id] == lots[id])
      && after[source].mergedInto == Some(target) && after[source].key == lots[source].key
      && source in signed && signed[source] == given
  {
  }

  /** A promotion gives the key exactly when the lot seen is live and provisional and nobody holds the key. */
  lemma PromotedIff(before: Table, approvals: map<LotId, Approvals>, id: LotId, expected: nat, raw: string, key: string,
                    produced: Option<string>, mark: Option<string>, after: Table, r: Result)
    requires Sound(before, approvals) && Promoted(before, id, expected, raw, key, produced, mark, after, r)
    ensures (id in after && after[id].key == Some(key) && after[id].status == Canonical && after != before) <==>
      && id in before && !before[id].deleted && before[id].status == Provisional && before[id].key.None?
      && before[id].version == expected && !IsBlankText(raw) && !IsBlankText(key)
      && !exists other :: other in before && other != id && SameIdentity(before[other], before[id].(key := Some(key)))
  {
    if id in before {
      var keyed := before[id].(key := Some(key));
      if other :| other in before && other != id && SameIdentity(before[other], keyed) {
        assert HoldsKey(before, other, keyed);
        assert !before[other].deleted ==> Rival(before, id, keyed, other);
        assert !KeyFree(before, id, keyed);
      }
    }
  }

  // ----- over a run --------------------------------------------------------------------

  /** The moves a lot's status can make. */
  predicate Moves(a: Status, b: Status) {
    a == b || (a == Provisional && (b == Canonical || b == ConflictReview)) || (a == Canonical && b == ConflictReview)
    || (a == ConflictReview && b == Merged)
  }

  /** The row as it was, or the next version of it: with its key once it has one, and a status it may move to. */
  predicate Succeeds(a: Lot, b: Lot) {
    a == b || (b.version == a.version + 1 && Moves(a.status, b.status) && (a.key.Some? ==> b.key == a.key)
               && b.deleted == a.deleted && SameGoods(a, b))
  }

  lemma EvidenceSucceeds(lot: Lot, candidate: Lot)
    requires lot.status != Merged
    ensures Succeeds(lot, WithEvidence(lot, candidate))
  {
  }

  lemma StepSucceeds(before: State, id: LotId, request: Request, after: State, r: Result, lot: LotId)
    requires RowsOk(before.lots) && Step(before, id, request, after, r) && lot in before.lots
    ensures lot in after.lots && Succeeds(before.lots[lot], after.lots[lot])
  {
    hide WithEvidence;
    match request
    case Add(candidate) =>
      if !Insertable(before.lots, id, candidate) && after.lots != before.lots {
        var existing :| Resolved(before.lots, existing, candidate, after.lots, r);
        assert RowOk(r.id, before.lots[r.id]);
        EvidenceSucceeds(before.lots[r.id], candidate);
      }
    case _ =>
  }

  /** Versions never go back, and a lot of the same version is the same lot. */
  lemma {:induction false} RunsCountVersions(states: seq<State>, ids: seq<LotId>, requests: seq<Request>, results: seq<Result>,
                                             n: nat, m: nat, lot: LotId)
    requires Run(states, ids, requests, results) && n <= m < |states| && lot in states[n].lots
    ensures lot in states[m].lots && states[n].lots[lot].version <= states[m].lots[lot].version
    ensures states[n].lots[lot].version == states[m].lots[lot].version ==> states[n].lots[lot] == states[m].lots[lot]
  {
    hide Step, Sound;
    if n < m {
      RunsCountVersions(states, ids, requests, results, n, m - 1, lot);
      RunRowsOk(states, ids, requests, results, m - 1);
      assert Step(states[m - 1], ids[m - 1], requests[m - 1], states[m], results[m - 1]);
      StepSucceeds(states[m - 1], ids[m - 1], requests[m - 1], states[m], results[m - 1], lot);
    }
  }

  lemma RunRowsOk(states: seq<State>, ids: seq<LotId>, requests: seq<Request>, results: seq<Result>, n: nat)
    requires Run(states, ids, requests, results) && n < |states|
    ensures RowsOk(states[n].lots)
  {
    RunsStaySound(states, ids, requests, results, n);
  }

  /** The version a promotion or a merge expects. */
  predicate Expects(request: Request, version: nat) {
    match request
    case Add(_) => false
    case Promote(expected, _, _, _, _) => expected == version
    case MergeInto(expected, _, _) => expected == version
  }

  /** A promotion or merge changes nothing but the lot it names, and that only in the version it expects. */
  lemma WritesWhatItSaw(before: State, id: LotId, request: Request, after: State, r: Result, version: nat)
    requires Step(before, id, request, after, r) && Expects(request, version) && after.lots != before.lots
    ensures id in before.lots && id in after.lots
    ensures before.lots[id].version == version && after.lots[id].version == version + 1
    ensures after.lots == before.lots[id := after.lots[id]]
  {
  }

  /** Of two promotions or merges that saw one version of a lot, at most one changes anything. */
  lemma OneWriterPerVersion(states: seq<State>, ids: seq<LotId>, requests: seq<Request>, results: seq<Result>,
                            i: nat, j: nat, version: nat)
    requires Run(states, ids, requests, results) && i < j < |ids| && ids[i] == ids[j]
    requires Expects(requests[i], version) && Expects(requests[j], version)
    ensures states[i + 1].lots == states[i].lots || states[j + 1].lots == states[j].lots
  {
    hide Step;
    assert Step(states[i], ids[i], requests[i], states[i + 1], results[i]);
    assert Step(states[j], ids[j], requests[j], states[j + 1], results[j]);
    if states[i + 1].lots != states[i].lots && states[j + 1].lots != states[j].lots {
      WritesWhatItSaw(states[i], ids[i], requests[i], states[i + 1], results[i], version);
      WritesWhatItSaw(states[j], ids[j], requests[j], states[j + 1], results[j], version);
      RunsCountVersions(states, ids, requests, results, i + 1, j, ids[i]);
    }
  }
}
