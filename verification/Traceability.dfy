/** Which production lots a material LOT went into, directly and further downstream. */
module Traceability {
  import opened Sorting
  import opened TextOrder

  type Id = string

  datatype Allocation = Allocation(id: Id, lot: Id)
  datatype Consumption = Consumption(allocation: Id, production: Id)
  datatype ProductionLot = ProductionLot(id: Id, product: Id, producedOn: int)

  datatype Records = Records(allocations: seq<Allocation>, consumptions: seq<Consumption>, lots: seq<ProductionLot>)

  // ----- key order ---------------------------------------------------------------------

  /** By date, then product, then identifier. */
  predicate Before(a: ProductionLot, b: ProductionLot) {
    || a.producedOn < b.producedOn
    || (a.producedOn == b.producedOn && Less(a.product, b.product))
    || (a.producedOn == b.producedOn && a.product == b.product && Less(a.id, b.id))
  }

  predicate NotAfter(a: ProductionLot, b: ProductionLot) {
    !Before(b, a)
  }

  lemma BeforeIsTotal(a: ProductionLot, b: ProductionLot)
    ensures a != b <==> Before(a, b) || Before(b, a)
    ensures !(Before(a, b) && Before(b, a))
  {
    LessIsTotal(a.product, b.product);
    LessIsTotal(a.id, b.id);
  }

  lemma BeforeIsTransitive(a: ProductionLot, b: ProductionLot, c: ProductionLot)
    requires Before(a, b) && Before(b, c)
    ensures Before(a, c)
  {
    if Less(a.product, b.product) && Less(b.product, c.product) {
      LessTransitive(a.product, b.product, c.product);
    }
    if Less(a.id, b.id) && Less(b.id, c.id) {
      LessTransitive(a.id, b.id, c.id);
    }
  }

  lemma BeforeEstablishesOrder()
    ensures Establishes(Before, NotAfter)
  {
    forall a, b ensures if Before(a, b) then NotAfter(a, b) else NotAfter(b, a) {
      BeforeIsTotal(a, b);
    }
    forall a, b, c | NotAfter(a, b) && NotAfter(b, c) ensures NotAfter(a, c) {
      BeforeIsTotal(a, b);
      BeforeIsTotal(b, c);
      BeforeIsTotal(a, c);
      if a != b && b != c {
        BeforeIsTransitive(a, b, c);
      }
    }
  }

  /** In key order, each lot once. */
  predicate Ascending(lots: seq<ProductionLot>) {
    forall i, j :: 0 <= i < j < |lots| ==> Before(lots[i], lots[j])
  }

  predicate Distinct(lots: seq<ProductionLot>) {
    forall i, j :: 0 <= i < j < |lots| ==> lots[i] != lots[j]
  }

  lemma {:induction false} InsertedAscends(x: ProductionLot, sorted: seq<ProductionLot>)
    requires Ascending(sorted) && x !in sorted
    ensures Ascending(Inserted(Before, x, sorted))
  {
    if sorted != [] {
      BeforeIsTotal(sorted[0], x);
      if Before(sorted[0], x) {
        var rest := Inserted(Before, x, sorted[1..]);
        InsertedAscends(x, sorted[1..]);
        InsertedKeepsAll(Before, x, sorted[1..]);
        forall j | 0 <= j < |rest| ensures Before(sorted[0], rest[j]) {
          assert rest[j] in multiset(rest);
          assert rest[j] == x || rest[j] in sorted[1..];
        }
      } else {
        forall j | 0 <= j < |sorted| ensures Before(x, sorted[j]) {
          if j > 0 {
            BeforeIsTransitive(x, sorted[0], sorted[j]);
          }
        }
      }
    }
  }

  lemma {:induction false} SortedAscends(lots: seq<ProductionLot>)
    requires Distinct(lots)
    ensures Ascending(Sorted(Before, lots)) && forall lot :: lot in Sorted(Before, lots) <==> lot in lots
  {
    SortedKeepsMembers(Before, lots);
    if lots != [] {
      SortedAscends(lots[1..]);
      InsertedAscends(lots[0], Sorted(Before, lots[1..]));
    }
  }

  /** Key order leaves one way to list given lots. */
  lemma {:induction false} AscendingIsUnique(a: seq<ProductionLot>, b: seq<ProductionLot>)
    requires Ascending(a) && Ascending(b) && forall lot :: lot in a <==> lot in b
    ensures a == b
  {
    hide Before;
    if a != [] {
      HasMember(a);
    }
    if b != [] {
      HasMember(b);
    }
    if a != [] && b != [] {
      assert a[0] in b && b[0] in a;
      BeforeIsTotal(a[0], b[0]);
      assert a[0] == b[0];
      forall lot ensures lot in a[1..] <==> lot in b[1..] {
        OnlyOnce(a, lot);
        OnlyOnce(b, lot);
      }
      AscendingIsUnique(a[1..], b[1..]);
      assert a == [a[0]] + a[1..] && b == [b[0]] + b[1..];
    }
  }

  lemma HasMember(a: seq<ProductionLot>)
    requires a != []
    ensures exists lot :: lot in a
  {
    assert a[0] in a;
  }

  lemma OnlyOnce(a: seq<ProductionLot>, lot: ProductionLot)
    requires Ascending(a) && a != []
    ensures lot in a[1..] <==> lot in a && lot != a[0]
  {
    BeforeIsTotal(a[0], a[0]);
    assert a == [a[0]] + a[1..];
  }

  // ----- what is consumed where --------------------------------------------------------

  /** The lot that stands for its identifier: the first in key order. */
  ghost predicate Representative(r: Records, lot: ProductionLot) {
    lot in r.lots && forall other :: other in r.lots && other.id == lot.id ==> NotAfter(lot, other)
  }

  /** No lot of the identifier was produced earlier, or on the same day under a smaller product. */
  lemma RepresentativeIsEarliest(r: Records, lot: ProductionLot)
    ensures Representative(r, lot) <==>
      lot in r.lots && forall other | other in r.lots && other.id == lot.id ::
        lot.producedOn <= other.producedOn && (lot.producedOn == other.producedOn ==> !Less(other.product, lot.product))
  {
    forall other: ProductionLot | other.id == lot.id
      ensures NotAfter(lot, other) <==>
        lot.producedOn <= other.producedOn && (lot.producedOn == other.producedOn ==> !Less(other.product, lot.product))
    {
      LessIrreflexive(lot.id);
    }
  }

  /** Answers come by production date; those of one day by product, those of one product by identifier. */
  lemma AnswersComeByDate(lots: seq<ProductionLot>, i: nat, j: nat)
    requires Ascending(lots) && i < j < |lots|
    ensures lots[i].producedOn <= lots[j].producedOn
    ensures lots[i].producedOn == lots[j].producedOn ==> lots[i].product == lots[j].product || Less(lots[i].product, lots[j].product)
    ensures lots[i].producedOn == lots[j].producedOn && lots[i].product == lots[j].product ==> Less(lots[i].id, lots[j].id)
  {
    assert Before(lots[i], lots[j]);
    LessIrreflexive(lots[i].product);
  }

  ghost predicate Consumes(r: Records, material: Id, production: Id) {
    exists a, c :: a in r.allocations && c in r.consumptions && a.lot == material && c == Consumption(a.id, production)
  }

  /** The production lot consumed the material LOT through one of its allocations. */
  ghost predicate Direct(r: Records, material: Id, lot: ProductionLot) {
    Representative(r, lot) && Consumes(r, material, lot.id)
  }

  /** Each identifier of the route is a production lot that consumed the one before. */
  ghost predicate Route(r: Records, route: seq<Id>) {
    route != [] && forall i :: 0 <= i < |route| - 1 ==> Feeds(r, route[i], route[i + 1])
  }

  ghost predicate Feeds(r: Records, material: Id, production: Id) {
    exists lot: ProductionLot :: lot.id == production && Direct(r, material, lot)
  }

  ghost predicate Leads(r: Records, start: Id, id: Id, route: seq<Id>) {
    Route(r, route) && route[0] == start && route[|route| - 1] == id
  }

  ghost predicate Reached(r: Records, start: Id, id: Id) {
    exists route :: Leads(r, start, id, route)
  }

  /** A route of at least one step leads from the material LOT to the production lot. */
  ghost predicate Impacted(r: Records, start: Id, lot: ProductionLot) {
    Representative(r, lot) && exists route :: |route| > 1 && Leads(r, start, lot.id, route)
  }

  lemma RepresentativeIsUnique(r: Records, a: ProductionLot, b: ProductionLot)
    requires Representative(r, a) && Representative(r, b) && a.id == b.id
    ensures a == b
  {
    BeforeIsTotal(a, b);
  }

  lemma StepReaches(r: Records, start: Id, id: Id, lot: ProductionLot)
    requires Reached(r, start, id) && Direct(r, id, lot)
    ensures Impacted(r, start, lot) && Reached(r, start, lot.id)
  {
    var route :| Leads(r, start, id, route);
    var longer := route + [lot.id];
    assert Feeds(r, id, lot.id);
    forall i | 0 <= i < |longer| - 1 ensures Feeds(r, longer[i], longer[i + 1]) {
      if i < |route| - 1 {
        assert Feeds(r, route[i], route[i + 1]);
      }
    }
    assert Leads(r, start, lot.id, longer);
  }

  // ----- the sources -------------------------------------------------------------------

  ghost predicate IsIndex(r: Records, byId: map<Id, ProductionLot>) {
    && (forall id :: id in byId ==> byId[id].id == id)
    && forall lot: ProductionLot :: Representative(r, lot) <==> lot.id in byId && byId[lot.id] == lot
  }

  /** What is listed under a key; a missing key lists nothing. */
  function At<V>(index: map<Id, seq<V>>, key: Id): seq<V> {
    if key in index then index[key] else []
  }

  ghost predicate IsAllocationIndex(r: Records, byLot: map<Id, seq<Id>>) {
    forall lot, id {:trigger id in At(byLot, lot)} :: id in At(byLot, lot) <==> Allocation(id, lot) in r.allocations
  }

  ghost predicate IsConsumptionIndex(r: Records, byAllocation: map<Id, seq<ProductionLot>>) {
    Groups(r, byAllocation, r.consumptions)
  }

  /** Of the consumptions seen, each known production lot stands under its allocation. */
  ghost predicate Groups(r: Records, byAllocation: map<Id, seq<ProductionLot>>, seen: seq<Consumption>) {
    forall a, lot {:trigger lot in At(byAllocation, a)} ::
      lot in At(byAllocation, a) <==> Representative(r, lot) && Consumption(a, lot.id) in seen
  }

  predicate Listed(byId: map<Id, ProductionLot>, seen: seq<ProductionLot>, id: Id)
    requires id in byId
  {
    byId[id].id == id && byId[id] in seen
  }

  predicate Covered(byId: map<Id, ProductionLot>, lot: ProductionLot) {
    lot.id in byId && NotAfter(byId[lot.id], lot)
  }

  /** Of the lots seen, the index holds one for each identifier, and none is before it. */
  ghost predicate Indexes(byId: map<Id, ProductionLot>, seen: seq<ProductionLot>) {
    && (forall id {:trigger Listed(byId, seen, id)} :: id in byId ==> Listed(byId, seen, id))
    && forall lot {:trigger Covered(byId, lot)} :: lot in seen ==> Covered(byId, lot)
  }

  lemma IndexGrows(byId: map<Id, ProductionLot>, seen: seq<ProductionLot>, lot: ProductionLot)
    requires Indexes(byId, seen) && forall other :: other in seen ==> NotAfter(other, lot)
    ensures Indexes(if lot.id in byId then byId else byId[lot.id := lot], seen + [lot])
  {
    var more := if lot.id in byId then byId else byId[lot.id := lot];
    BeforeIsTotal(lot, lot);
    forall id | id in more ensures Listed(more, seen + [lot], id) {
      if id in byId {
        assert Listed(byId, seen, id);
      }
    }
    forall other | other in seen + [lot] ensures Covered(more, other) {
      if other in seen {
        assert Covered(byId, other);
      }
    }
  }

  lemma NothingIndexed()
    ensures Indexes(map[], [])
  {
  }

  lemma IndexedIds(byId: map<Id, ProductionLot>, seen: seq<ProductionLot>)
    requires Indexes(byId, seen)
    ensures forall id :: id in byId ==> byId[id].id == id
  {
    forall id | id in byId ensures byId[id].id == id {
      assert Listed(byId, seen, id);
    }
  }

  lemma IndexedAreRepresentatives(r: Records, byId: map<Id, ProductionLot>, seen: seq<ProductionLot>, lot: ProductionLot)
    requires Indexes(byId, seen) && forall other :: other in seen <==> other in r.lots
    ensures Representative(r, lot) <==> lot.id in byId && byId[lot.id] == lot
  {
    if lot.id in byId {
      assert Listed(byId, seen, lot.id);
      BeforeIsTotal(lot, byId[lot.id]);
    }
    if lot in r.lots {
      assert Covered(byId, lot);
    }
    if lot.id in byId && byId[lot.id] == lot {
      forall other | other in r.lots && other.id == lot.id ensures NotAfter(lot, other) {
        assert Covered(byId, other);
      }
    }
  }

  /** The first lot of each identifier in key order. */
  method IndexLots(r: Records) returns (byId: map<Id, ProductionLot>)
    ensures IsIndex(r, byId)
  {
    hide Before, Representative, Indexes;
    var sorted := Sorted(Before, r.lots);
    NothingIndexed();
    BeforeEstablishesOrder();
    SortedKeepsMembers(Before, r.lots);
    SortedIsOrdered(Before, NotAfter, r.lots);
    byId := map[];
    for i := 0 to |sorted|
      invariant Indexes(byId, sorted[..i])
    {
      assert forall k :: 0 <= k < i ==> NotAfter(sorted[k], sorted[i]);
      IndexGrows(byId, sorted[..i], sorted[i]);
      assert sorted[..i + 1] == sorted[..i] + [sorted[i]];
      if sorted[i].id !in byId {
        byId := byId[sorted[i].id := sorted[i]];
      }
    }
    assert sorted[..|sorted|] == sorted;
    IndexedIds(byId, sorted);
    forall lot ensures Representative(r, lot) <==> lot.id in byId && byId[lot.id] == lot {
      IndexedAreRepresentatives(r, byId, sorted, lot);
    }
  }

  function SortedIndex<V>(above: (V, V) -> bool, index: map<Id, seq<V>>): map<Id, seq<V>> {
    map key | key in index :: Sorted(above, index[key])
  }

  /** Sorting what is listed under each key keeps what is listed. */
  lemma SortingKeepsIndex<V(!new)>(above: (V, V) -> bool, index: map<Id, seq<V>>, key: Id)
    ensures forall v :: v in At(SortedIndex(above, index), key) <==> v in At(index, key)
  {
    if key in index {
      SortedKeepsMembers(above, index[key]);
    }
  }

  /** The allocations of each material LOT. */
  method IndexAllocations(r: Records) returns (byLot: map<Id, seq<Id>>)
    ensures IsAllocationIndex(r, byLot)
  {
    byLot := map[];
    for i := 0 to |r.allocations|
      invariant forall lot, id :: id in At(byLot, lot) <==> Allocation(id, lot) in r.allocations[..i]
    {
      var a := r.allocations[i];
      assert r.allocations[..i + 1] == r.allocations[..i] + [a];
      byLot := byLot[a.lot := At(byLot, a.lot) + [a.id]];
    }
    assert r.allocations[..|r.allocations|] == r.allocations;
    forall lot ensures forall id :: id in At(SortedIndex(Less, byLot), lot) <==> id in At(byLot, lot) {
      SortingKeepsIndex(Less, byLot, lot);
    }
    byLot := SortedIndex(Less, byLot);
  }

  lemma GroupsGrowAt(r: Records, byAllocation: map<Id, seq<ProductionLot>>, seen: seq<Consumption>, c: Consumption,
                     added: seq<ProductionLot>, a: Id, lot: ProductionLot)
    requires lot in At(byAllocation, a) <==> Representative(r, lot) && Consumption(a, lot.id) in seen
    requires lot in added <==> Representative(r, lot) && lot.id == c.production
    ensures lot in At(byAllocation[c.allocation := At(byAllocation, c.allocation) + added], a) <==>
              Representative(r, lot) && Consumption(a, lot.id) in seen + [c]
  {
    assert Consumption(a, lot.id) in seen + [c] <==> Consumption(a, lot.id) in seen || Consumption(a, lot.id) == c;
  }

  lemma IndexedLot(r: Records, byId: map<Id, ProductionLot>, id: Id, lot: ProductionLot)
    requires IsIndex(r, byId)
    ensures Representative(r, lot) && lot.id == id <==> id in byId && lot == byId[id]
  {
  }

  /** The known production lots each allocation was consumed by. */
  method IndexConsumptions(r: Records, byId: map<Id, ProductionLot>) returns (byAllocation: map<Id, seq<ProductionLot>>)
    requires IsIndex(r, byId)
    ensures IsConsumptionIndex(r, byAllocation)
  {
    byAllocation := map[];
    for i := 0 to |r.consumptions|
      invariant Groups(r, byAllocation, r.consumptions[..i])
    {
      var c := r.consumptions[i];
      assert r.consumptions[..i + 1] == r.consumptions[..i] + [c];
      var matched := if c.production in byId then [byId[c.production]] else [];
      var more := byAllocation[c.allocation := At(byAllocation, c.allocation) + matched];
      forall a, lot ensures lot in At(more, a) <==> Representative(r, lot) && Consumption(a, lot.id) in r.consumptions[..i + 1] {
        IndexedLot(r, byId, c.production, lot);
        GroupsGrowAt(r, byAllocation, r.consumptions[..i], c, matched, a, lot);
      }
      byAllocation := more;
    }
    assert r.consumptions[..|r.consumptions|] == r.consumptions;
    forall a ensures forall lot :: lot in At(SortedIndex(Before, byAllocation), a) <==> lot in At(byAllocation, a) {
      SortingKeepsIndex(Before, byAllocation, a);
    }
    byAllocation := SortedIndex(Before, byAllocation);
  }

  /** The records as the traversals look at them. */
  datatype Sources = Sources(allocationsByLot: map<Id, seq<Id>>, lotsByAllocation: map<Id, seq<ProductionLot>>)

  ghost predicate SourcesOf(r: Records, sources: Sources) {
    IsAllocationIndex(r, sources.allocationsByLot) && IsConsumptionIndex(r, sources.lotsByAllocation)
  }

  method BuildSources(r: Records) returns (sources: Sources)
    ensures SourcesOf(r, sources)
  {
    var byLot := IndexAllocations(r);
    var byId := IndexLots(r);
    var byAllocation := IndexConsumptions(r, byId);
    return Sources(byLot, byAllocation);
  }

  // ----- the traversals ----------------------------------------------------------------

  /** One of the allocations was consumed by the lot. */
  ghost predicate Under(sources: Sources, allocations: seq<Id>, lot: ProductionLot) {
    exists a :: a in allocations && lot in At(sources.lotsByAllocation, a)
  }

  lemma UnderGrows(sources: Sources, allocations: seq<Id>, a: Id, lot: ProductionLot)
    ensures Under(sources, allocations + [a], lot) <==> Under(sources, allocations, lot) || lot in At(sources.lotsByAllocation, a)
  {
    if Under(sources, allocations, lot) {
      var b :| b in allocations && lot in At(sources.lotsByAllocation, b);
      assert b in allocations + [a];
    }
    assert a in allocations + [a];
  }

  lemma DirectIsUnder(r: Records, sources: Sources, material: Id, lot: ProductionLot)
    requires SourcesOf(r, sources)
    ensures Direct(r, material, lot) <==> Under(sources, At(sources.allocationsByLot, material), lot)
  {
    if Direct(r, material, lot) {
      var a, c :| a in r.allocations && c in r.consumptions && a.lot == material && c == Consumption(a.id, lot.id);
      assert Allocation(a.id, material) in r.allocations;
      assert a.id in At(sources.allocationsByLot, material) && lot in At(sources.lotsByAllocation, a.id);
    }
    if Under(sources, At(sources.allocationsByLot, material), lot) {
      var a :| a in At(sources.allocationsByLot, material) && lot in At(sources.lotsByAllocation, a);
      assert Allocation(a, material) in r.allocations && Consumption(a, lot.id) in r.consumptions;
    }
  }

  /** Lots kept under their identifiers: no two share one. */
  ghost predicate Kept(r: Records, found: seq<ProductionLot>, ids: set<Id>) {
    Distinct(found) && (forall lot :: lot in found ==> Representative(r, lot)) && ids == set lot | lot in found :: lot.id
  }

  lemma NothingKept(r: Records)
    ensures Kept(r, [], {})
  {
  }

  lemma KeptIsDistinct(r: Records, found: seq<ProductionLot>, ids: set<Id>)
    requires Kept(r, found, ids)
    ensures Distinct(found)
  {
  }

  lemma KeepsOne(r: Records, found: seq<ProductionLot>, ids: set<Id>, lot: ProductionLot)
    requires Kept(r, found, ids) && Representative(r, lot)
    ensures lot.id in ids <==> lot in found
    ensures lot.id !in ids ==> Kept(r, found + [lot], ids + {lot.id})
  {
    if lot.id in ids {
      var other :| other in found && other.id == lot.id;
      RepresentativeIsUnique(r, lot, other);
    } else {
      assert forall x :: x in found + [lot] <==> x in found || x == lot;
    }
  }

  /** The production lots that consumed the material LOT itself, in key order. */
  method DirectlyConsumed(ghost r: Records, material: Id, sources: Sources) returns (lots: seq<ProductionLot>)
    requires SourcesOf(r, sources)
    ensures Ascending(lots) && forall lot :: lot in lots <==> Direct(r, material, lot)
  {
    var found: seq<ProductionLot>, ids: set<Id> := [], {};
    var allocations := At(sources.allocationsByLot, material);
    for i := 0 to |allocations|
      invariant Kept(r, found, ids)
      invariant forall lot :: lot in found <==> Under(sources, allocations[..i], lot)
    {
      var consumed := At(sources.lotsByAllocation, allocations[i]);
      for j := 0 to |consumed|
        invariant Kept(r, found, ids)
        invariant forall lot :: lot in found <==> Under(sources, allocations[..i], lot) || lot in consumed[..j]
      {
        var lot := consumed[j];
        assert lot in consumed;
        KeepsOne(r, found, ids, lot);
        assert forall x :: x in consumed[..j + 1] <==> x in consumed[..j] || x == lot;
        if lot.id !in ids {
          found, ids := found + [lot], ids + {lot.id};
        }
      }
      assert allocations[..i + 1] == allocations[..i] + [allocations[i]];
      forall lot ensures lot in found <==> Under(sources, allocations[..i + 1], lot) {
        UnderGrows(sources, allocations[..i], allocations[i], lot);
      }
    }
    assert allocations[..|allocations|] == allocations;
    lots := Sorted(Before, found);
    SortedAscends(found);
    forall lot ensures lot in lots <==> Direct(r, material, lot) {
      DirectIsUnder(r, sources, material, lot);
    }
  }

  /** The production lots that consumed the LOT directly, in key order. */
  method TraceForward(material: Id, r: Records) returns (lots: seq<ProductionLot>)
    ensures Ascending(lots) && forall lot :: lot in lots <==> Direct(r, material, lot)
  {
    var sources := BuildSources(r);
    lots := DirectlyConsumed(r, material, sources);
  }

  /** Everything the identifier's lot was consumed by has been noted. */
  ghost predicate Expanded(r: Records, id: Id, visited: set<Id>, found: seq<ProductionLot>) {
    forall lot :: Direct(r, id, lot) ==> lot in found && lot.id in visited
  }

  /** Every route from the start stays within what was visited, and its lots were found. */
  lemma {:induction false} RoutesAreVisited(r: Records, start: Id, visited: set<Id>, found: seq<ProductionLot>,
                                           route: seq<Id>, n: nat)
    requires start in visited && Route(r, route) && route[0] == start && n < |route|
    requires forall id :: id in visited ==> Expanded(r, id, visited, found)
    ensures route[n] in visited && (n > 0 ==> exists lot :: lot in found && lot.id == route[n])
  {
    if n > 0 {
      RoutesAreVisited(r, start, visited, found, route, n - 1);
      assert Feeds(r, route[n - 1], route[n]);
      var lot: ProductionLot :| lot.id == route[n] && Direct(r, route[n - 1], lot);
      assert Expanded(r, route[n - 1], visited, found);
    }
  }

  lemma FoundIsImpacted(r: Records, start: Id, visited: set<Id>, found: seq<ProductionLot>, lot: ProductionLot)
    requires start in visited && forall id :: id in visited ==> Expanded(r, id, visited, found)
    requires forall l :: l in found ==> Impacted(r, start, l)
    ensures lot in found <==> Impacted(r, start, lot)
  {
    if Impacted(r, start, lot) {
      var route :| |route| > 1 && Leads(r, start, lot.id, route);
      RoutesAreVisited(r, start, visited, found, route, |route| - 1);
      var other :| other in found && other.id == lot.id;
      RepresentativeIsUnique(r, lot, other);
    }
  }

  lemma StartIsReached(r: Records, start: Id)
    ensures Reached(r, start, start)
  {
    assert Leads(r, start, start, [start]);
  }

  /** All production lots downstream of the LOT, in key order; cycles in the records do no harm. */
  method ImpactScope(material: Id, r: Records) returns (lots: seq<ProductionLot>)
    ensures Ascending(lots) && forall lot :: lot in lots <==> Impacted(r, material, lot)
  {
    hide SourcesOf, Consumes, Route, Before, Reached, Impacted, Kept;
    var sources := BuildSources(r);
    var visited, pending := {material}, [material];
    var found: seq<ProductionLot>, ids: set<Id> := [], {};
    ghost var all := {material} + set lot | lot in r.lots :: lot.id;
    StartIsReached(r, material);
    NothingKept(r);
    while pending != []
      invariant material in visited && visited <= all && forall id :: id in pending ==> id in visited
      invariant forall id :: id in visited ==> Reached(r, material, id)
      invariant Kept(r, found, ids) && forall lot :: lot in found ==> Impacted(r, material, lot)
      invariant forall id :: id in visited ==> id in pending || Expanded(r, id, visited, found)
      decreases all - visited, |pending|
    {
      var current := pending[0];
      ghost var before, rest, known := visited, pending[1..], found;
      assert pending == [current] + rest;
      pending := pending[1..];
      var direct := DirectlyConsumed(r, current, sources);
      for i := 0 to |direct|
        invariant before <= visited <= all && (visited == before ==> pending == rest)
        invariant forall id :: id in pending <==> id in rest || id in visited - before
        invariant forall id :: id in visited ==> Reached(r, material, id)
        invariant Kept(r, found, ids) && forall lot :: lot in found ==> Impacted(r, material, lot)
        invariant forall lot :: lot in known || lot in direct[..i] ==> lot in found
        invariant forall lot :: lot in direct[..i] ==> lot.id in visited
      {
        var lot := direct[i];
        assert lot in direct;
        StepReaches(r, material, current, lot);
        KeepsOne(r, found, ids, lot);
        if lot.id !in ids {
          found, ids := found + [lot], ids + {lot.id};
        }
        if lot.id !in visited {
          visited, pending := visited + {lot.id}, pending + [lot.id];
        }
        assert direct[..i + 1] == direct[..i] + [lot];
      }
      assert direct[..|direct|] == direct;
      forall id | id in visited ensures id in pending || Expanded(r, id, visited, found) {
        if id in before && id != current && id !in rest {
          assert Expanded(r, id, before, known);
        }
      }
    }
    lots := Sorted(Before, found);
    KeptIsDistinct(r, found, ids);
    SortedAscends(found);
    forall lot ensures lot in lots <==> Impacted(r, material, lot) {
      FoundIsImpacted(r, material, visited, found, lot);
    }
  }

  // ----- what the answers mean ---------------------------------------------------------

  /** Whatever consumed the LOT directly is within its impact. */
  lemma DirectIsImpacted(r: Records, material: Id, lot: ProductionLot)
    requires Direct(r, material, lot)
    ensures Impacted(r, material, lot)
  {
    StartIsReached(r, material);
    StepReaches(r, material, material, lot);
  }

  /** The same records, in any order and with repetitions. */
  ghost predicate SameRecords(r: Records, s: Records) {
    && (forall a :: a in r.allocations <==> a in s.allocations)
    && (forall c :: c in r.consumptions <==> c in s.consumptions) && forall l :: l in r.lots <==> l in s.lots
  }

  lemma DirectIgnoresOrder(r: Records, s: Records, material: Id, lot: ProductionLot)
    requires SameRecords(r, s)
    ensures Direct(r, material, lot) <==> Direct(s, material, lot)
  {
  }

  lemma ImpactedIgnoresOrder(r: Records, s: Records, material: Id, lot: ProductionLot)
    requires SameRecords(r, s) && Impacted(r, material, lot)
    ensures Impacted(s, material, lot)
  {
    var route :| |route| > 1 && Leads(r, material, lot.id, route);
    forall i | 0 <= i < |route| - 1 ensures Feeds(s, route[i], route[i + 1]) {
      assert Feeds(r, route[i], route[i + 1]);
      var l: ProductionLot :| l.id == route[i + 1] && Direct(r, route[i], l);
      DirectIgnoresOrder(r, s, route[i], l);
    }
    assert Leads(s, material, lot.id, route);
  }

  /** The order of allocations, consumptions and lots decides nothing: the answers are equal. */
  lemma ScopeIgnoresOrder(r: Records, s: Records, material: Id, a: seq<ProductionLot>, b: seq<ProductionLot>)
    requires SameRecords(r, s)
    requires Ascending(a) && forall lot :: lot in a <==> Impacted(r, material, lot)
    requires Ascending(b) && forall lot :: lot in b <==> Impacted(s, material, lot)
    ensures a == b
  {
    forall lot ensures lot in a <==> lot in b {
      if Impacted(r, material, lot) {
        ImpactedIgnoresOrder(r, s, material, lot);
      }
      if Impacted(s, material, lot) {
        ImpactedIgnoresOrder(s, r, material, lot);
      }
    }
    AscendingIsUnique(a, b);
  }
}
