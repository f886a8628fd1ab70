/** Choosing the effective specification: in the domain, in the repository and in the finalization trigger. */
module SpecSelection {
  import opened Options
  import opened Sorting

  const MAX_DATE := 3652059

  type Date = day: int | 1 <= day <= MAX_DATE witness 1

  datatype Status = Draft | Active | Retired

  datatype Scope = Scope(material: nat, supplier: Option<nat>, model: Option<nat>)

  datatype Spec = Spec(id: nat, scope: Scope, version: nat, status: Status, effectiveFrom: Date, effectiveTo: Option<Date>)

  /** What a specification is wanted for. */
  datatype Need = Need(material: nat, supplier: Option<nat>, model: Option<nat>, when: Date)

  function Specificity(scope: Scope): nat {
    (if scope.supplier.Some? then 1 else 0) + if scope.model.Some? then 1 else 0
  }

  predicate Matches(scope: Scope, need: Need) {
    && scope.material == need.material
    && (scope.supplier.None? || scope.supplier == need.supplier)
    && (scope.model.None? || scope.model == need.model)
  }

  predicate EffectiveOn(spec: Spec, when: Date) {
    spec.effectiveFrom <= when && (spec.effectiveTo.None? || when <= spec.effectiveTo.value)
  }

  predicate IsCandidate(spec: Spec, need: Need) {
    spec.status == Active && Matches(spec.scope, need) && EffectiveOn(spec, need.when)
  }

  function Candidates(specs: seq<Spec>, need: Need): (c: seq<Spec>)
    ensures forall spec :: spec in c <==> spec in specs && IsCandidate(spec, need)
  {
    if specs == [] then []
    else (if IsCandidate(specs[0], need) then [specs[0]] else []) + Candidates(specs[1..], need)
  }

  // ----- the orders of the candidates --------------------------------------------------

  /** The domain orders by specificity and version. */
  predicate DomainAbove(a: Spec, b: Spec) {
    || Specificity(a.scope) > Specificity(b.scope)
    || (Specificity(a.scope) == Specificity(b.scope) && a.version > b.version)
  }

  /** The repository breaks remaining ties by identifier. */
  predicate RepositoryAbove(a: Spec, b: Spec) {
    || DomainAbove(a, b)
    || (Specificity(a.scope) == Specificity(b.scope) && a.version == b.version && a.id > b.id)
  }

  predicate NotLess(a: Spec, b: Spec) {
    Specificity(a.scope) >= Specificity(b.scope)
  }

  // ----- selecting ---------------------------------------------------------------------

  datatype Selection = Selected(spec: Spec) | NothingEffective | Ambiguous

  function Choose(sorted: seq<Spec>): Selection {
    if sorted == [] then NothingEffective
    else if |sorted| > 1 && Specificity(sorted[0].scope) == Specificity(sorted[1].scope) then Ambiguous
    else Selected(sorted[0])
  }

  function DomainSelect(specs: seq<Spec>, need: Need): Selection {
    Choose(Sorted(DomainAbove, Candidates(specs, need)))
  }

  function RepositorySelect(specs: seq<Spec>, need: Need): Selection {
    Choose(Sorted(RepositoryAbove, Candidates(specs, need)))
  }

  /** The one candidate more specific than all the others. */
  ghost predicate UniqueBest(candidates: multiset<Spec>, spec: Spec) {
    && candidates[spec] == 1
    && forall other :: other in candidates && other != spec ==> Specificity(other.scope) < Specificity(spec.scope)
  }

  lemma TheTopIsUniqueBest(sorted: seq<Spec>, spec: Spec)
    requires Ordered(NotLess, sorted) && sorted != []
    ensures Choose(sorted) == Selected(spec) <==> UniqueBest(multiset(sorted), spec)
  {
    var top, rest := sorted[0], sorted[1..];
    assert sorted == [top] + rest;
    assert multiset(sorted) == multiset{top} + multiset(rest);
    if Choose(sorted) == Selected(spec) {
      forall other | other in rest ensures Specificity(other.scope) < Specificity(top.scope) {
        assert NotLess(sorted[0], sorted[1]) && Specificity(sorted[1].scope) < Specificity(top.scope);
        var k :| 0 <= k < |rest| && rest[k] == other;
        assert rest[k] == sorted[k + 1] && (k > 0 ==> NotLess(sorted[1], sorted[k + 1]));
      }
    }
  }

  lemma SortChooses(above: (Spec, Spec) -> bool, candidates: seq<Spec>, spec: Spec)
    requires Establishes(above, NotLess)
    ensures Choose(Sorted(above, candidates)) == Selected(spec) <==> UniqueBest(multiset(candidates), spec)
    ensures Choose(Sorted(above, candidates)) == NothingEffective <==> candidates == []
  {
    var sorted := Sorted(above, candidates);
    SortedKeepsAll(above, candidates);
    SortedIsOrdered(above, NotLess, candidates);
    assert |sorted| == |multiset(sorted)| == |multiset(candidates)| == |candidates|;
    if sorted != [] {
      TheTopIsUniqueBest(sorted, spec);
    }
  }

  /** Both selections accept exactly the unique candidate of maximal specificity. */
  lemma SelectionIsUniqueBest(specs: seq<Spec>, need: Need, spec: Spec)
    ensures DomainSelect(specs, need) == RepositorySelect(specs, need)
    ensures DomainSelect(specs, need) == Selected(spec) <==> UniqueBest(multiset(Candidates(specs, need)), spec)
    ensures DomainSelect(specs, need) == NothingEffective <==> Candidates(specs, need) == []
  {
    var c := Candidates(specs, need);
    var domain, repository := DomainSelect(specs, need), RepositorySelect(specs, need);
    var one := if domain.Selected? then domain.spec else spec;
    var other := if repository.Selected? then repository.spec else spec;
    SortChooses(DomainAbove, c, spec);
    SortChooses(DomainAbove, c, one);
    SortChooses(DomainAbove, c, other);
    SortChooses(RepositoryAbove, c, one);
    SortChooses(RepositoryAbove, c, other);
  }

  /** Active, for this material, for this supplier and model where it names them, from its first to its last day. */
  predicate Serves(spec: Spec, need: Need) {
    && spec.status == Active && spec.scope.material == need.material
    && (spec.scope.supplier.Some? ==> need.supplier == spec.scope.supplier)
    && (spec.scope.model.Some? ==> need.model == spec.scope.model)
    && !(need.when < spec.effectiveFrom) && (spec.effectiveTo.Some? ==> !(spec.effectiveTo.value < need.when))
  }

  /** Names neither supplier nor model where the other names one, or does not name both where the other does. */
  predicate Broader(a: Scope, b: Scope) {
    || (a.supplier.None? && a.model.None? && (b.supplier.Some? || b.model.Some?))
    || ((a.supplier.None? || a.model.None?) && b.supplier.Some? && b.model.Some?)
  }

  /** Of distinct versions, the one selected serves the need and is narrower than every other that does. */
  lemma SelectedIff(specs: seq<Spec>, need: Need, spec: Spec)
    requires DistinctIds(specs)
    ensures DomainSelect(specs, need) == Selected(spec) <==>
      spec in specs && Serves(spec, need)
      && forall other | other in specs && other != spec && Serves(other, need) :: Broader(other.scope, spec.scope)
  {
    hide DomainSelect, RepositorySelect;
    var c := Candidates(specs, need);
    SelectionIsUniqueBest(specs, need, spec);
    forall other: Spec ensures other in multiset(c) <==> other in specs && Serves(other, need) {
      assert other in multiset(c) <==> other in c;
    }
    forall other: Spec ensures Specificity(other.scope) < Specificity(spec.scope) <==> Broader(other.scope, spec.scope) {
    }
    if spec in c {
      CandidatesStayDistinct(specs, need, spec);
    }
  }

  /** The repository's check for a case bound to a specification; the model must belong to the material. */
  predicate RepositoryAccepts(specs: seq<Spec>, need: Need, modelBelongs: bool, bound: nat) {
    && (need.model.Some? ==> modelBelongs)
    && RepositorySelect(specs, need).Selected? && RepositorySelect(specs, need).spec.id == bound
  }

  /** The candidate has no other candidate as specific. */
  predicate Preferred(specs: seq<Spec>, need: Need, spec: Spec) {
    IsCandidate(spec, need) && !exists preferred ::
      && preferred in specs && preferred.id != spec.id && IsCandidate(preferred, need)
      && (|| Specificity(preferred.scope) > Specificity(spec.scope)
          || Specificity(preferred.scope) == Specificity(spec.scope))
  }

  /** The clause of the finalization trigger. */
  predicate TriggerAccepts(specs: seq<Spec>, need: Need, bound: nat) {
    exists spec :: spec in specs && spec.id == bound && Preferred(specs, need, spec)
  }

  predicate DistinctIds(specs: seq<Spec>) {
    forall i, j :: 0 <= i < j < |specs| ==> specs[i].id != specs[j].id
  }

  lemma {:induction false} CandidatesStayDistinct(specs: seq<Spec>, need: Need, spec: Spec)
    requires DistinctIds(specs) && spec in specs && IsCandidate(spec, need)
    ensures multiset(Candidates(specs, need))[spec] == 1
  {
    var rest := Candidates(specs[1..], need);
    if specs[0] == spec {
      assert spec !in specs[1..] by {
        assert forall k :: 0 <= k < |specs[1..]| ==> specs[1..][k] == specs[1 + k];
      }
      assert Candidates(specs, need) == [spec] + rest;
      assert spec !in rest;
    } else {
      CandidatesStayDistinct(specs[1..], need, spec);
      assert Candidates(specs, need) == (if IsCandidate(specs[0], need) then [specs[0]] else []) + rest;
    }
  }

  /** The repository and the trigger accept the same bound specification, whatever order the rows come in. */
  lemma RepositoryMeetsTrigger(specs: seq<Spec>, need: Need, modelBelongs: bool, bound: nat)
    requires DistinctIds(specs)
    ensures RepositoryAccepts(specs, need, modelBelongs, bound) <==>
              (need.model.Some? ==> modelBelongs) && TriggerAccepts(specs, need, bound)
  {
    var c := Candidates(specs, need);
    if TriggerAccepts(specs, need, bound) {
      var spec :| spec in specs && spec.id == bound && Preferred(specs, need, spec);
      CandidatesStayDistinct(specs, need, spec);
      forall other | other in c && other != spec ensures Specificity(other.scope) < Specificity(spec.scope) {
        assert other.id != spec.id;
      }
      SelectionIsUniqueBest(specs, need, spec);
    }
    if RepositorySelect(specs, need).Selected? {
      var spec := RepositorySelect(specs, need).spec;
      SelectionIsUniqueBest(specs, need, spec);
      assert spec in multiset(c);
      assert spec in c;
      assert forall other :: other in specs && IsCandidate(other, need) ==> other in c && other in multiset(c);
      assert Preferred(specs, need, spec);
    }
  }

  // ----- ranges of the same scope ------------------------------------------------------

  function Ends(to: Option<Date>): Date {
    if to.Some? then to.value else MAX_DATE
  }

  predicate Overlaps(a: Spec, b: Spec) {
    a.scope == b.scope && a.effectiveFrom <= Ends(b.effectiveTo) && b.effectiveFrom <= Ends(a.effectiveTo)
  }

  predicate DaysInOrder(spec: Spec) {
    spec.effectiveTo.Some? ==> spec.effectiveFrom <= spec.effectiveTo.value
  }

  /** The overlap check finds exactly the versions that are effective on a common day. */
  lemma OverlapIffCommonDay(a: Spec, b: Spec)
    requires DaysInOrder(a) && DaysInOrder(b)
    ensures Overlaps(a, b) <==> a.scope == b.scope && exists day: Date :: EffectiveOn(a, day) && EffectiveOn(b, day)
  {
    if Overlaps(a, b) {
      var day := if a.effectiveFrom < b.effectiveFrom then b.effectiveFrom else a.effectiveFrom;
      assert EffectiveOn(a, day) && EffectiveOn(b, day);
    }
  }

  /** Active versions of one scope are never effective on the same day. */
  predicate NoActiveOverlap(specs: seq<Spec>) {
    forall i, j :: 0 <= i < j < |specs| && specs[i].status == Active && specs[j].status == Active ==>
      !Overlaps(specs[i], specs[j])
  }

  /** Whether the scope names a supplier and no model, or a model and no supplier. */
  predicate SupplierOnly(scope: Scope) {
    scope.supplier.Some? && scope.model.None?
  }

  predicate ModelOnly(scope: Scope) {
    scope.supplier.None? && scope.model.Some?
  }

  /** A supplier-only and a model-only candidate, and nothing more specific. */
  predicate Torn(candidates: seq<Spec>) {
    && (exists a :: a in candidates && SupplierOnly(a.scope))
    && (exists b :: b in candidates && ModelOnly(b.scope))
    && forall c :: c in candidates ==> Specificity(c.scope) < 2
  }

  lemma SameScopeSameCandidate(specs: seq<Spec>, need: Need, a: Spec, b: Spec)
    requires NoActiveOverlap(specs) && DistinctIds(specs)
    requires a in Candidates(specs, need) && b in Candidates(specs, need) && a.scope == b.scope
    ensures a == b
  {
    var i :| 0 <= i < |specs| && specs[i] == a;
    var j :| 0 <= j < |specs| && specs[j] == b;
    assert Overlaps(a, b) && Overlaps(b, a);
  }

  lemma {:induction false} MostSpecific(candidates: seq<Spec>) returns (best: Spec)
    requires candidates != []
    ensures best in candidates
    ensures forall other :: other in candidates ==> Specificity(other.scope) <= Specificity(best.scope)
  {
    best := candidates[0];
    if |candidates| > 1 {
      var rest := MostSpecific(candidates[1..]);
      assert forall other :: other in candidates ==> other == candidates[0] || other in candidates[1..];
      best := if Specificity(rest.scope) > Specificity(best.scope) then rest else best;
    }
  }

  /** Without overlap, the choice is ambiguous exactly between a supplier-only and a model-only scope. */
  lemma AmbiguousIffTorn(specs: seq<Spec>, need: Need)
    requires NoActiveOverlap(specs) && DistinctIds(specs)
    ensures DomainSelect(specs, need) == Ambiguous <==> Torn(Candidates(specs, need))
  {
    hide DomainSelect, RepositorySelect, Candidates, EffectiveOn;
    var c := Candidates(specs, need);
    var chosen := DomainSelect(specs, need);
    if c == [] {
      SelectionIsUniqueBest(specs, need, Spec(0, Scope(0, None, None), 0, Draft, 1, None));
    } else if Torn(c) {
      SelectionIsUniqueBest(specs, need, if chosen.Selected? then chosen.spec else c[0]);
      var a :| a in c && SupplierOnly(a.scope);
      var b :| b in c && ModelOnly(b.scope);
      assert a in multiset(c) && b in multiset(c);
    } else {
      var best := MostSpecific(c);
      CandidatesStayDistinct(specs, need, best);
      forall other | other in c && other != best ensures Specificity(other.scope) < Specificity(best.scope) {
        if other.scope == best.scope {
          SameScopeSameCandidate(specs, need, other, best);
        }
        assert Matches(other.scope, need) && Matches(best.scope, need);
      }
      SelectionIsUniqueBest(specs, need, best);
    }
  }
}
