# Verified model of the HYC incoming-inspection backend

This project models the deterministic core of the backend in Dafny 4.11 and proves properties of the model for all
inputs, all runs or all reachable states. `dafny verify dfyconfig.toml` checks every file.

What is modelled, file by file:

- `Geometry`, `Clipping`, `ConvexRings`, `TriangleBound`, `ConvexPolygons`, `PolygonIoU`: the polygon clipper and its
  overlap score. Coordinates are exact reals. The area bounds are reached for polygons with every vertex on one closed
  side of every edge, with either winding. A list of vertices is handled as *convex* when every three vertices turn to
  one side and no affine function changes sign more than twice around it; both survive every clip pass.
- `ClipMaximality`: the clipper's result is the largest convex part of both polygons, and the score is symmetric.
- `OverlapUnion`: the score divides by the area of the union, taken from the pieces the passes cut off; when it is one,
  when zero, and when the ratio of the areas.
- `Segments`, `PolygonSchema`: the segment test of the polygon validation and the validator's loops.
- `HeightSweep`, `SimplePolygons`: the polygons the validator accepts are exactly the globally convex ones, so the bounds
  hold of all of them. A list that turns left everywhere with edges apart has one valley over any line: with two, its
  chains would wind inwards and never close.
- `EvaluationTypes`, `Scoring`, `CaseValidation`, `CaseAcceptance`, `Reporting`: the one-pass scorer, the declarative
  validators, and the exact condition (`CaseAcceptance.WellFormed`) under which the first meets the second.
- `MatchMeaning`: what the scorer's verdicts say about the golden fields and the run's values, in these terms only.
- `JsonText`, `TextOrder`, `CanonicalJson`, `Snapshots`: canonical JSON (sections 6 and 7 of RFC 8259) and decision
  snapshots; the digest is an arbitrary function.
- `FrozenLeaves`, `FrozenPayloads`, `FrozenDecision`: what a frozen text says: its leaves read back, two payloads share a
  text exactly when they are alike, and a decision snapshot tells its decision and rules.
- `DatabaseJson`, `AcceptedRows`: the database's own canonical text and its check of every snapshot row, for any order of
  texts the database may sort keys by, and what the domain makes of an accepted row.
- `Lots`, `LotHistory`: the LOT identity and merge protocol over a table of rows, and the history of one row.
- `Lineage`: the guarded extraction tables.
- `Sorting`, `SpecSelection`, `SpecTables`: choosing the effective specification in three places.
- `Rounding`, `DecimalText`, `DecimalValues`, `UnitConversion`, `Rules`, `Judgment`: decimals, units, rules and the
  judgment pipeline, with rounding to nearest even (section 4.3.1 of IEEE 754) over exact reals.
- `SnapshotPayload`: the snapshot payload with the repository's own keys at every level and free values.
- `Finalization`, `FinalApproval`: the guarded case tables with their deferred check, and the approval repository.
- `PersistedReading`: whose numbers each item of a case is judged on.
- `Traceability`: forward trace and impact scope.
- `Idempotency`: leased request records, in the domain and in the repository.
- `Ingest`: the stabilizer and the ingestion loop.
- `Whitespace`, `Options`, `RowChanges`: what stripping removes, missing values, and changes of one row.

Database tables are maps from identifiers to rows; a statement on a row is one atomic step, a refused statement changes
nothing, and a statement over several rows is a sequence of steps. Unchecked foreign keys and the remaining unique keys
would only refuse more statements. Clocks, generated identifiers, source answers and stored digests are inputs.

What the proofs showed about the code:

- A conversion raises when a small negative result rounds to zero, because a negative zero is not a decimal value
  (`UnitConversion.ConvertFailsIff`).
- A decimal read from a twelve-place column is refused as input when it is zero or below one millionth, because its own
  text uses an exponent (`DecimalValues.AcceptedFromMillionth`, `DecimalText.StoredZeroIsRefused`).
- All samples in specification do not imply the rounded average in specification for strict rules with bounds on the
  grid (`Judgment.AverageFollowsIff`, `Rules.StrictGridBoundsLeave`).
- Through the repository a missing supplier result always holds an item that is not judged on internal results only;
  the missing policy decides just where a supplier result without numbers is there
  (`FinalApproval.MissingSupplierHolds`, `FinalApproval.MissingPolicyDecidesIff`).
- The insert check sorts keys by the database's default collation, which no migration fixes, the domain by code points.
  The keys the repository writes are ordered alike by both, also where a collation looks at underscores last, so its
  snapshots are accepted (`FinalApproval.FinalizeSucceeds`, `SnapshotPayload.PlainOrdersAgree`). Other payloads can
  differ (`DatabaseJson.MarksChangeTheText`), and so can collations that disagree on these keys, such as one by length
  (`FinalApproval.LengthOrderRefuses`).
- The insert check trims spaces only: a required text of tabs or other whitespace passes it, and is the one thing in an
  accepted row that the domain then refuses (`AcceptedRows.AcceptedRowVerifiesIff`).
- The uniqueness and area checks of polygons refuse nothing the edge loop and the turns would not
  (`PolygonSchema.DistinctnessIsImplied`, `SimplePolygons.SchemaIffConvex`).
- The check that a deviating decision has a reason refuses nothing that the transition table and the check on
  acceptance would not (`FinalApproval.ChecksPassIff`).
- Deleting a case that is not finalized has no effect: the guard returns no row for a delete, so the database skips it
  (`Finalization.CasesStay`).
- The repository's reservation grants a second lease while one is live after a retryable failure; the domain does not
  (`Idempotency.ReserveOverlapsIff`, `Idempotency.RepositoryDisjointIff`). No other repository code writes that state.
- The extraction-run trigger by itself would admit a second confirmed run; the unique index is needed
  (`Lineage.IndexIsNeeded`).
- The evidence trigger by itself would miss a sample of two results; the row check is needed
  (`Finalization.GuardAloneMissesASecondResult`).
- Adding a lot whose row is already merged keeps the forest but leaves that merge without approvals, and without
  agreement where the rows disagree (`Lots.RunsApprovedIff`, `Lots.RunsAgreeIff`); callers add other rows only.
- The ingestion loop reads the metadata of an ingested entry twice and judges the quiet period by the second answer
  only, so a change the first answer shows does not restart it (`Ingest.StableIsUnchangedIff`,
  `Ingest.TwoAnswersHideAChange`); malformed metadata of an ingested entry ends the run.

## Model

| member | source | states |
|---|---|---|
| Clipping.CrossingIsOnSegment | backend/src/hyc_evaluation/scoring.py:93-112 | when one end of a step is kept and the other is not, the crossing formula's denominator is not zero (so its fallback is never taken by the clipper) and the crossing is a point of the step, on the clip line |
| Clipping.ClipEdgeConfines | backend/src/hyc_evaluation/scoring.py:139-177 | every vertex a clip pass returns is on the kept side of its edge, and on every side that already held the whole input |
| Clipping.ClipConservesArea | backend/src/hyc_evaluation/scoring.py:76-178 | signed area kept by an edge plus signed area kept by the reversed edge is the signed area of the input, convex or not |
| Clipping.ConservationNeedsProperEdge | backend/src/hyc_evaluation/scoring.py:76-178 | the two parts add up exactly when the edge has two different ends or the input has no signed area |
| Clipping.AllInsideKeepsAll | backend/src/hyc_evaluation/scoring.py:139-177 | a pass over a list that is inside already returns it unchanged |
| ConvexRings.InsertKeepsConvex | backend/src/hyc_evaluation/scoring.py:93-112 | putting a point of a step into a convex list keeps it convex |
| ConvexRings.RemoveKeepsConvex | backend/src/hyc_evaluation/scoring.py:115-179 | dropping a vertex keeps a convex list convex |
| PolygonIoU.ClipByEdge | backend/src/hyc_evaluation/scoring.py:156-178 | the inner loop returns exactly the clip of the input by one edge |
| PolygonIoU.PolygonIntersection | backend/src/hyc_evaluation/scoring.py:115-179 | the nested loops return the successive clips by all edges of the closed clip polygon, also when they stop early on an empty list |
| PolygonIoU.ClipEdgeKeepsConvex | backend/src/hyc_evaluation/scoring.py:115-179 | a clip pass over a convex list returns a convex list |
| PolygonIoU.ClipEdgeShrinks | backend/src/hyc_evaluation/scoring.py:115-179 | a clip pass over a convex list never increases its area |
| PolygonIoU.ClipPathShrinks | backend/src/hyc_evaluation/scoring.py:115-179 | nor does the whole sequence of passes |
| PolygonIoU.ClipBoundsRing | backend/src/hyc_evaluation/scoring.py:115-179 | a convex list inside every edge of a strictly convex polygon encloses at most the polygon's area |
| PolygonIoU.IntersectionConfines | backend/src/hyc_evaluation/scoring.py:115-179 | every vertex of the intersection is inside every edge of the clip polygon: later passes never undo earlier ones |
| TriangleBound.UnitTriangleBound | backend/src/hyc_evaluation/scoring.py:76-90 | a list of points of the unit triangle on which no line is crossed more than twice has doubled area at most one |
| ConvexPolygons.AcceptedIsStrictlyConvex | backend/src/hyc_evaluation/schema.py:156-214 | a polygon with distinct vertices, proper turns and every vertex on one closed side of every edge turns properly at every three vertices in order |
| ConvexPolygons.StrictlyConvexIsConvex | backend/src/hyc_evaluation/schema.py:156-214 | a strictly convex polygon is convex in the sense the clip passes preserve |
| PolygonIoU.IntersectionIsBounded | backend/src/hyc_evaluation/scoring.py:115-179 | the clipped area is between zero and the area of either polygon |
| PolygonIoU.IdenticalScoresOne | backend/src/hyc_evaluation/scoring.py:182-194 | identical polygons score exactly one |
| PolygonIoU.DoubledTriangleScoresTwo | backend/src/hyc_evaluation/scoring.py:182-194 | turns and one-sidedness alone do not bound the score: a triangle listed twice meets both and scores two against itself |
| ClipMaximality.ClipEdgeKeepsConfined | backend/src/hyc_evaluation/scoring.py:139-177 | a clip pass loses nothing inside: what lay within every step of a convex input, and on the kept side, lies within every step of the output |
| ClipMaximality.ConvexListBounds | backend/src/hyc_evaluation/scoring.py:76-90 | a convex list of at least two different points encloses at least what any convex list within its steps encloses, repeated and collinear vertices included |
| ClipMaximality.BeyondEnclosesNothing | backend/src/hyc_evaluation/scoring.py:139-177 | what lies within a convex list but wholly across the clip line from it has no area, so a pass may return nothing |
| ClipMaximality.IntersectionIsLargest | backend/src/hyc_evaluation/scoring.py:115-179 | the clipper returns no too small overlap: nothing convex within both polygons has a larger area than its result |
| ClipMaximality.ScoreIsSymmetric | backend/src/hyc_evaluation/scoring.py:182-194 | the overlap area and the score do not depend on which polygon clips the other |
| OverlapUnion.PassesSplitArea | backend/src/hyc_evaluation/scoring.py:115-179 | what the passes leave of a convex subject and the pieces they cut off add up to its area |
| OverlapUnion.PiecesLieBeyond | backend/src/hyc_evaluation/scoring.py:139-177 | every edge cuts off one convex piece of the subject, which lies beyond that edge and within the edges before it, so the pieces lie outside the clip polygon and apart from each other |
| OverlapUnion.ScoreTimesUnion | backend/src/hyc_evaluation/scoring.py:186-194 | for accepted polygons of either winding the score times the area of the union is the area of the overlap, the union being the clip polygon and the pieces cut off the subject; it is positive, and the score between zero and one, as the evidence model demands |
| OverlapUnion.OverlapIsWholeIff | backend/src/hyc_evaluation/scoring.py:115-179 | the overlap is as large as the subject exactly when every vertex of the subject is inside every edge of the clip polygon |
| OverlapUnion.NestedScoresRatio | backend/src/hyc_evaluation/scoring.py:182-194 | a polygon within another scores the ratio of their areas, in either order |
| OverlapUnion.ScoreIsOneIff | backend/src/hyc_evaluation/scoring.py:182-194 | the score is one exactly when each polygon lies within the other |
| OverlapUnion.ScoreIsZeroIff | backend/src/hyc_evaluation/scoring.py:182-194 | the score is zero exactly when nothing convex of positive area lies within both polygons |
| PolygonSchema.Validate | backend/src/hyc_evaluation/schema.py:161-214 | the validator's loops refuse exactly the lists that are too short, repeat a vertex, have two meeting edges that are not adjacent, have no area, or turn unevenly |
| PolygonSchema.AcceptedIffPassesSchema | backend/src/hyc_evaluation/schema.py:161-214 | among lists with every vertex on one side of every edge, the polygons the clipper's bounds are proved for are exactly those the validator accepts |
| PolygonSchema.DistinctnessIsImplied | backend/src/hyc_evaluation/schema.py:163-179 | the edge loop and the turns already exclude a repeated vertex |
| PolygonSchema.DoubledTriangleIsRefused | backend/src/hyc_evaluation/schema.py:163-179 | the triangle listed twice is refused both for its repeated vertices and by the edge loop, though its turns and area pass |
| HeightSweep.Climb | backend/src/hyc_evaluation/schema.py:163-210 | of two rising chains whose edges do not meet, the one that starts left stays left: where the lower one ends, it still is on its side of the other |
| SimplePolygons.NextPeakIsLower | backend/src/hyc_evaluation/schema.py:163-210 | where a list turns left everywhere with edges apart, and rises, falls to a valley no deeper than its start and rises again within one round, the second rise ends below the first peak |
| SimplePolygons.WindsInwards | backend/src/hyc_evaluation/schema.py:163-210 | from then on every later vertex lies strictly between that valley and that peak, so the list could not close |
| SimplePolygons.TurnsAndEdgesSuffice | backend/src/hyc_evaluation/schema.py:163-210 | the edge loop and the local turns alone put every vertex on one side of every edge, for either winding |
| SimplePolygons.SchemaIffConvex | backend/src/hyc_evaluation/schema.py:161-214 | the validator accepts exactly the globally convex polygons |
| SimplePolygons.SchemaPolygonsScore | backend/src/hyc_evaluation/scoring.py:182-194 | for all polygons the validator accepts, the score times the union is the overlap, lies in [0, 1], does not depend on the order, is one exactly for polygons within each other, and for nested ones is the ratio of their areas |
| Segments.IntersectIffSharePoint | backend/src/hyc_evaluation/schema.py:54-87 | the orientation and box tests answer yes exactly when the closed segments share a point, degenerate and collinear ones included |
| Scoring.CountEligibility | backend/src/hyc_evaluation/scoring.py:408-446 | the branches on ignored, handwriting, required and missing move exactly the counters of the declarative step |
| Scoring.CompareLone | backend/src/hyc_evaluation/scoring.py:460-524 | comparing the only candidate gives the declared reasons, matches, page verdict and overlap, and counts them |
| Scoring.CompareCandidates | backend/src/hyc_evaluation/scoring.py:402-524 | the branches on no, one and several candidates give the declared reasons and counters |
| Scoring.ScoreField | backend/src/hyc_evaluation/scoring.py:398-562 | scoring one golden field emits its outcome and moves exactly its counters |
| Scoring.GroupPredictions | backend/src/hyc_evaluation/scoring.py:366-369 | grouping by key keeps, for each key, its values in source order, and nothing when the bindings failed |
| Scoring.ScoreCase | backend/src/hyc_evaluation/scoring.py:351-613 | the one-pass scorer accumulates the fold over all items of the case |
| Scoring.FoldSums | backend/src/hyc_evaluation/scoring.py:351-613 | that fold is: the outcomes in order, the sum of all steps, the sum of each kind's steps, and all reasons |
| MatchMeaning.ComparedIff | backend/src/hyc_evaluation/scoring.py:357-369 | a golden field has match verdicts exactly when it counts, the bindings hold and the run has one and only one value for its key |
| MatchMeaning.VerdictIff | backend/src/hyc_evaluation/scoring.py:460-488 | of a compared field, over the golden fields and the run's values only: it matches normalized exactly when kind, normalized text and unit are equal, the applied normalizations are allowed, and no missing value or unapproved normalization is declared; exactly when the raw texts are equal too; a value mismatch is emitted exactly when the value declares one, or the three differ and nothing is missing |
| MatchMeaning.PlaceIff | backend/src/hyc_evaluation/scoring.py:501-524 | of a compared field: the page verdict is the equality of the pages, a page mismatch is emitted exactly when they differ or the value declares one, and on one page the overlap times the area of the union is the area of the intersection |
| MatchMeaning.UncomparedReasons | backend/src/hyc_evaluation/scoring.py:448-459 | a counting field is not compared exactly when the bindings failed, no value has its key, or several have; its reasons then are those of its review and, in turn, a missing or a duplicate field |
| MatchMeaning.OrdersAreListed | backend/src/hyc_evaluation/scoring.py:366-369 | a field lists the orders of all values of its key, in the order of the run's values, and none when the bindings failed |
| MatchMeaning.MissingIff | backend/src/hyc_evaluation/scoring.py:407-417 | a field counts as predicted missing exactly when the bindings failed, no value has its key, or the only one that has is itself missing |
| MatchMeaning.MatchedIff | backend/src/hyc_evaluation/scoring.py:460-555 | a field's outcome is a match exactly when it agrees with the run's only value for it in kind, normalized text, unit, page and allowed normalizations, and neither has anything to review; it is a normalized match exactly when the raw texts then differ |
| MatchMeaning.NamedAfterWeightiest | backend/src/hyc_evaluation/scoring.py:318-329 | a field under review is named after the first of its reasons in the fixed order of weights, or a mismatch when it has none of them |
| MatchMeaning.CaseReasonsIff | backend/src/hyc_evaluation/scoring.py:359-365 | a case's reasons are exactly those of its run, a failed binding or document kind, and those of the fields it emits |
| MatchMeaning.UnmappedIff | backend/src/hyc_evaluation/scoring.py:564-596 | after the golden fields come exactly the values whose key no golden field has, each unmapped and for review under its own key |
| CaseAcceptance.ItemAccepted | backend/src/hyc_evaluation/artifacts.py:503-602 | the outcome emitted for a well-formed item passes the field model, and its re-derived counters cover what the scorer counted |
| CaseAcceptance.RowsBindIff | backend/src/hyc_evaluation/artifacts.py:743-761 | the row counters equal those of the re-derived row sets exactly when there are as many predicted rows as answered ones, and as many of either among the rows asked for |
| CaseAcceptance.RunCountsBind | backend/src/hyc_evaluation/artifacts.py:626-798 | the counters equal those re-derived from the emitted fields exactly when every item is well formed |
| CaseAcceptance.RunKindsBind | backend/src/hyc_evaluation/artifacts.py:763-798 | so do the counters of every kind |
| CaseAcceptance.MarkedRowsAgree | backend/src/hyc_evaluation/scoring.py:371-395 | the rows agree whenever values and fields of one key carry the same handwriting mark and bindings hold |
| CaseAcceptance.AcceptedIffWellFormed | backend/src/hyc_evaluation/artifacts.py:801-833 | for every valid run, the scorer's case outcome passes every check of the case model exactly when the run is well formed |
| Reporting.AddKinds | backend/src/hyc_evaluation/scoring.py:646-648 | adding per-kind counters adds kind by kind and keeps the rest |
| Reporting.ScoreRuns | backend/src/hyc_evaluation/scoring.py:616-684 | scoring several runs returns every case's pass, the sum of their counters, and the sum of each kind's |
| Reporting.ReportIsAccepted | backend/src/hyc_evaluation/artifacts.py:857-923 | summing counters and then forming metrics equals aggregating the case metrics: the report's metrics are accepted for every sequence of runs |
| JsonText.NatRoundTrip | backend/src/hyc_domain/snapshots.py:71-80 | decimal digits read back as the number they were written from |
| JsonText.StringRoundTrip | backend/src/hyc_domain/snapshots.py:71-80 | an escaped string reads back as itself, whatever follows |
| JsonText.TextStandsIff | backend/src/hyc_domain/snapshots.py:71-80 | a text is written as it stands exactly when it has no quote, backslash or control character; characters outside ASCII are not escaped |
| TextOrder.LessIff | backend/src/hyc_domain/snapshots.py:71-80 | the order of keys is lexicographic: a proper prefix, or smaller at the first difference |
| CanonicalJson.RoundTrip | backend/src/hyc_domain/snapshots.py:71-80 | the text of any normalised value whose dictionaries list no key twice, followed by anything that ends a value, reads back as that value, its entries in their order |
| CanonicalJson.LoadRendered | backend/src/hyc_domain/snapshots.py:105-110 | loading the whole text gives the value back |
| CanonicalJson.LoadedIsProper | backend/src/hyc_domain/snapshots.py:105-110 | whatever text is loaded, no dictionary in the value lists a key twice |
| CanonicalJson.CanonIsCanonical | backend/src/hyc_domain/snapshots.py:71-80 | sorting keys at every level gives a sorted value |
| Snapshots.NormaliseIsIdempotent | backend/src/hyc_domain/snapshots.py:45-68 | normalising a normalised value changes nothing |
| FrozenLeaves.DecimalReadsBack | backend/src/hyc_domain/snapshots.py:52-55 | the text of any finite decimal spells that decimal, sign and places included, a positive exponent written out in zeros |
| FrozenLeaves.DecimalParsesBack | backend/src/hyc_domain/snapshots.py:52-55 | accepting that text as a decimal gives the decimal's value, and the very decimal when it has no positive exponent; only a negative zero is refused |
| FrozenLeaves.DayReadsBack | backend/src/hyc_domain/snapshots.py:60-61 | year, month and day stand as four, two and two digits at fixed places of a date's text |
| FrozenLeaves.InstantReadsBack | backend/src/hyc_domain/snapshots.py:56-59 | the fields of an instant stand at fixed places of its text, the six digits of the microseconds exactly when there are any, closed by Z |
| FrozenLeaves.LeavesAgreeIff | backend/src/hyc_domain/snapshots.py:45-61 | two leaves are written alike exactly when they are the same, equal decimals up to the notation of a positive exponent, or a text and the leaf it spells |
| FrozenPayloads.TextsAgreeIff | backend/src/hyc_domain/snapshots.py:45-80 | two payloads freeze to one text exactly when they are alike: one structure up to key order and tuples for lists, with leaves that denote the same |
| Snapshots.TextRoundTrips | backend/src/hyc_domain/snapshots.py:71-110 | parsing a frozen payload's text and writing it again gives the identical text |
| Snapshots.TextIgnoresInsertionOrder | backend/src/hyc_domain/snapshots.py:71-80 | payloads that differ only in key order, at any depth, have the same text or are both refused |
| Snapshots.FrozenSnapshotsVerify | backend/src/hyc_domain/snapshots.py:125-158 | every snapshot frozen for approval passes verification, for any digest function |
| FrozenPayloads.VerifiedIff | backend/src/hyc_domain/snapshots.py:125-158 | a snapshot verifies exactly when its text decodes to a payload with every required value present, a candidate decision, and a canonical text with the stored hash |
| FrozenPayloads.NothingElseVerifies | backend/src/hyc_domain/snapshots.py:125-158 | under the hash of a frozen payload, every text that verifies decodes to a payload alike to the frozen one, unless the hash function gives two texts one hash |
| DatabaseJson.StoredIsCollated | backend/alembic/versions/20260731_0002_p2_domain_invariants.py:213-231 | the database's aggregated text is the canonical text of the value with every object sorted by the database's collation |
| DatabaseJson.StoredTextIff | backend/alembic/versions/20260731_0002_p2_domain_invariants.py:213-231 | for every collation, the database recomputes the domain's canonical text exactly when the collation orders the keys of every object in it as code points do |
| DatabaseJson.MarksChangeTheText | backend/alembic/versions/20260731_0002_p2_domain_invariants.py:213-231 | a collation that looks at underscores last changes the text of some objects, though of none the repository writes |
| DatabaseJson.FrozenRowAcceptedIff | backend/alembic/versions/20260731_0002_p2_domain_invariants.py:233-277 | every snapshot frozen for approval passes the insert check's required values and decision; the row is accepted exactly when no text holds a zero character and both hashes agree |
| DatabaseJson.FrozenRowAcceptance | backend/alembic/versions/20260731_0002_p2_domain_invariants.py:233-277 | under an agreeing collation the row is always accepted; under any other never, unless the hash function gives both texts one hash |
| AcceptedRows.AcceptedRowVerifiesIff | backend/alembic/versions/20260731_0002_p2_domain_invariants.py:233-277 | a row the insert check accepted, under an agreeing collation, verifies in the domain exactly when no required text in it is blank |
| SnapshotPayload.PayloadFreezesIff | backend/src/hyc_data/repositories.py:574-750 | the payload with the repository's keys at every level is frozen exactly when all its values are canonical: no required value is ever missing or empty |
| FrozenDecision.DecisionIsTold | backend/src/hyc_data/repositories.py:574-750 | decoding the frozen text gives, under their keys, the candidate and the final decision, the reason, the document hashes and the approver's role |
| FrozenDecision.RulesAreTold | backend/src/hyc_data/repositories.py:573-590 | under each key of each rule of the specification stands that rule's own value, in the normal form of the payload |
| SnapshotPayload.PayloadAgrees | backend/src/hyc_data/repositories.py:574-750 | whatever the persisted values, every collation that puts the repository's fixed lists of keys in code-point order agrees with the domain on the whole frozen payload |
| SnapshotPayload.PlainOrdersAgree | backend/src/hyc_data/repositories.py:574-750 | code points put all those lists in order, and so does the order that looks at underscores last |
| SnapshotPayload.ShorterFirstDisagrees | backend/src/hyc_data/repositories.py:574-750 | an order by length first disagrees on every such payload |
| Lots.ChainIsUnique | backend/src/hyc_data/repositories.py:67-86 | a lot leads to at most one chain of merges |
| Lots.ChainIsSimple | backend/src/hyc_data/repositories.py:67-86 | a chain never meets a lot twice |
| Lots.ChainAgrees | backend/src/hyc_data/repositories.py:204-224 | supplier, material and policy version are constant along a chain |
| Lots.LotRepository.SurvivingLot | backend/src/hyc_data/repositories.py:65-86 | the bounded walk answers with the root exactly when it is canonical, no later member is deleted and at most fifteen links precede it; it never reports a cycle or a missing reference |
| Lots.Survivor | backend/src/hyc_data/repositories.py:65-86 | when that walk finds a survivor |
| Lots.LotRepository.ApplyConflictEvidence | backend/src/hyc_data/repositories.py:88-96 | missing evidence is filled, contradicting evidence puts the lot under review, and only that lot changes |
| Lots.LotRepository.GetOrCreateCanonical | backend/src/hyc_data/repositories.py:98-126 | the candidate is added, or the survivor of the lot that holds its key takes the evidence, or nothing changes |
| Lots.LotRepository.PromoteProvisional | backend/src/hyc_data/repositories.py:128-173 | the lot gets its key, or goes under review while the survivor of the key's holder is answered, or nothing changes |
| Lots.LotRepository.GuardedMerge | backend/src/hyc_data/repositories.py:175-248 | the lot becomes merged with both approvals recorded, or nothing changes |
| Lots.MergeMovesTheSource | backend/src/hyc_data/repositories.py:175-248 | a merge moves exactly the lots rooted at its source to its target |
| Lots.CreateKeepsSound | backend/src/hyc_data/repositories.py:98-126 | adding any row keeps the table a forest with unique keys, also a row that is merged already |
| Lots.RunsStaySound | backend/src/hyc_data/repositories.py:98-248 | every table reached by adding any rows, promoting and merging is an acyclic forest with unique keys, whose approvals belong to merged lots and name two actors and a reason |
| Lots.RunsAgreeIff | backend/src/hyc_data/repositories.py:204-224 | merged lots and their parents agree on supplier, material and policy exactly when no request added a merged row that disagreed with its parent |
| Lots.RunsApprovedIff | backend/src/hyc_data/repositories.py:175-248 | every merged lot carries its two approvals exactly when no request added a row that was merged already |
| Lots.AddedMergeEscapes | backend/src/hyc_data/repositories.py:98-126 | a run of two additions whose merged lot has another supplier than its parent and no approvals |
| Lots.StepHasOneOutcome | backend/src/hyc_data/repositories.py:98-248 | every request has one outcome: the holder of a key and the survivor of a lot are unique |
| LotHistory.EvidenceIff | backend/src/hyc_data/repositories.py:88-96 | known evidence stays, missing evidence is filled, and a lot is under review afterwards exactly when it was or one of the two pieces of evidence contradicts |
| LotHistory.EvidenceSettles | backend/src/hyc_data/repositories.py:88-96 | the version rises by one exactly when something changes, and the same evidence again changes nothing |
| LotHistory.MergedIff | backend/src/hyc_data/repositories.py:175-248 | in a sound table a merge goes through exactly when two different actors give a reason, the source is live, under review and in the version seen, and the target is another live canonical lot of the same supplier, material and policy |
| LotHistory.PromotedIff | backend/src/hyc_data/repositories.py:128-173 | in a sound table a promotion gives a lot its key exactly when it is live, provisional, without key and in the version seen, the texts are not blank, and no other lot holds the key |
| LotHistory.RunsCountVersions | backend/src/hyc_data/repositories.py:98-248 | over every run versions never go back, and two rows of a lot with one version are the same row |
| LotHistory.OneWriterPerVersion | backend/src/hyc_data/repositories.py:128-248 | in every run, of two promotions or merges that saw one version of a lot, at most one changes anything |
| Lots.RunsKeepMerges | backend/src/hyc_data/repositories.py:98-248 | over every run a lot keeps supplier, material and policy, and a merged lot is never touched again |
| Lineage.LineageTables.AnyConfirmed | backend/alembic/versions/20260801_0004_p3_vertical_slice.py:232-241 | whether one of the touched documents has a confirmed run |
| Lineage.LineageTables.GuardRunMutation | backend/alembic/versions/20260801_0004_p3_vertical_slice.py:204-244 | the trigger raises exactly on inserting or updating a confirmed run, or touching a frozen document outside the terminal transition |
| Lineage.LineageTables.GuardReviewMutation | backend/alembic/versions/20260801_0004_p3_vertical_slice.py:246-272 | the trigger raises exactly when the review's run, before or after, is confirmed |
| Lineage.LineageTables.GuardSectionMutation | backend/alembic/versions/20260801_0004_p3_vertical_slice.py:274-300 | the trigger raises exactly when the section's document, before or after, is frozen |
| Lineage.LineageTables.GuardLinkMutation | backend/alembic/versions/20260801_0004_p3_vertical_slice.py:302-334 | the trigger raises exactly when the link's document, before or after, is frozen |
| Lineage.LineageTables.ChangeRun | backend/alembic/versions/20260801_0004_p3_vertical_slice.py:136-244 | an accepted statement writes its row, a refused one (trigger or unique index) changes nothing |
| Lineage.StatementKeepsLineage | backend/alembic/versions/20260801_0004_p3_vertical_slice.py:204-339 | no single statement touches the lineage of a document with a confirmed run |
| Lineage.ConfirmedLineageIsFrozen | backend/alembic/versions/20260801_0004_p3_vertical_slice.py:204-339 | once a document has a confirmed run, no sequence of inserts, updates, rebinds and deletes changes its runs, that run's reviews, its sections or their allocation links |
| Lineage.NeverTwoConfirmed | backend/alembic/versions/20260801_0004_p3_vertical_slice.py:144-151 | no sequence of statements ever gives a document two confirmed runs |
| Lineage.RefusedOnlyWhenFrozen | backend/alembic/versions/20260801_0004_p3_vertical_slice.py:204-339 | nothing else is refused: a refused statement inserts a confirmed run, or touches a document that has one |
| Lineage.ConfirmedIff | backend/alembic/versions/20260801_0004_p3_vertical_slice.py:144-241 | a run under review can be confirmed exactly while its document has no confirmed run |
| Lineage.IndexIsNeeded | backend/alembic/versions/20260801_0004_p3_vertical_slice.py:213-241 | the trigger alone lets a second confirmed run through exactly on the in-place confirmation of a run whose document already has one |
| Lineage.GuardAloneAdmitsASecondRun | backend/alembic/versions/20260801_0004_p3_vertical_slice.py:144-151 | that situation is reachable, and the unique index refuses it |
| SpecSelection.SelectionIsUniqueBest | backend/src/hyc_domain/specs.py:82-105 | domain and repository selection agree, and select a specification exactly when it is the one candidate more specific than all others |
| SpecSelection.SelectedIff | backend/src/hyc_domain/specs.py:36-105 | a version is selected exactly when it is active, of the material, of the supplier and model where it names them, effective from its first to its last day inclusive, and narrower than every other such version |
| SpecSelection.OverlapIffCommonDay | backend/src/hyc_domain/specs.py:64-79 | two versions whose days are in order overlap, by the check, exactly when they have one scope and some day on which both are effective |
| SpecSelection.RepositoryMeetsTrigger | backend/alembic/versions/20260731_0002_p2_domain_invariants.py:318-369 | the repository's bound specification check and the trigger's preferred-scope clause accept the same specifications, in any row order |
| SpecSelection.AmbiguousIffTorn | backend/src/hyc_domain/specs.py:70-105 | when active ranges of one scope do not overlap, selection is ambiguous exactly between a supplier-only and a model-only candidate |
| SpecTables.SpecificationTables.SaveVersion | backend/alembic/versions/20260731_0002_p2_domain_invariants.py:56-77 | an active version is saved exactly when its range meets no other active version of its scope |
| SpecTables.SpecificationTables.SaveProfile | backend/alembic/versions/20260731_0002_p2_domain_invariants.py:79-94 | a profile's scope changes only while no version is bound to it |
| SpecTables.ReachedScopesAreApart | backend/alembic/versions/20260731_0002_p2_domain_invariants.py:56-94 | in every state the guarded tables reach, active versions of one scope never share a day |
| SpecTables.VersionAcceptedIff | backend/alembic/versions/20260731_0002_p2_domain_invariants.py:56-77 | a version is refused exactly when writing it would make two active versions of one scope overlap |
| SpecTables.ProfileAcceptedIff | backend/alembic/versions/20260731_0002_p2_domain_invariants.py:79-94 | a profile is refused exactly when writing it would change the scope of a version bound to it |
| SpecTables.ReachedChoiceIsClear | backend/src/hyc_data/repositories.py:386-430 | so in every reached state a choice is ambiguous only between a supplier-only and a model-only scope |
| Rounding.RoundUnit | backend/src/hyc_domain/decimals.py:26-40 | the nearest integer, and the even one of two equally near |
| Rounding.RoundIsMonotone | backend/src/hyc_domain/judgment.py:380-382 | rounding keeps order |
| Rounding.RoundFixesTheGrid | backend/src/hyc_domain/decimals.py:141-155 | rounding leaves a value unchanged exactly when the scale holds it |
| DecimalValues.QuantaIsTen | backend/src/hyc_domain/decimals.py:151 | the quantum of a scale is one part in one followed by as many zeros |
| DecimalValues.GridIsWritten | backend/src/hyc_domain/decimals.py:151-155 | a value is on the grid of a scale exactly when an accepted decimal text with that many digits behind the point denotes it |
| DecimalValues.RoundIsNearest | backend/src/hyc_domain/decimals.py:151-155 | rounding gives a value some accepted text with that many digits behind the point denotes, and no such text denotes a nearer one |
| DecimalValues.RoundTiesToEven | backend/src/hyc_domain/decimals.py:26-40 | a value with that many digits that is as near as the rounded one, but not it, ends in an odd digit |
| DecimalText.CanonicalParses | backend/src/hyc_domain/decimals.py:55-70 | reading the canonical text of a decimal with places gives that decimal, unless it is a negative zero |
| DecimalText.WholeNumbersParse | backend/src/hyc_domain/decimals.py:55-70 | a positive exponent is written out; the value is read back |
| DecimalText.ParsedTextIsCanonical | backend/src/hyc_domain/decimals.py:55-70 | any accepted text is the canonical text of what it denotes |
| DecimalText.DecimalInputIff | backend/src/hyc_domain/decimals.py:55-67 | a decimal value is accepted as input exactly when its own text has no exponent and it is no negative zero |
| DecimalValues.AcceptedFromMillionth | backend/src/hyc_domain/decimals.py:55-67 | a decimal value other than zero is accepted exactly when it has no positive exponent and is at least one millionth in size; otherwise it is refused |
| DecimalText.StoredZeroIsRefused | backend/src/hyc_domain/decimals.py:55-67 | a zero with twelve places, as a numeric column returns it, is not accepted |
| UnitConversion.BuildRegistry | backend/src/hyc_domain/decimals.py:101-120 | the registry is built exactly when all units are valid and codes unique, and holds each unit under its code |
| UnitConversion.ConvertFailsIff | backend/src/hyc_domain/decimals.py:122-164 | a conversion fails exactly on invalid scale, version, unit or dimension, or when a negative result rounds to zero |
| DecimalValues.ConvertedIsNearest | backend/src/hyc_domain/decimals.py:141-155 | a conversion gives the value times the ratio of the two factors, rounded to what some accepted text with as many digits behind the point as the scale denotes, and no such text denotes a nearer value |
| UnitConversion.ThereAndBackErrs | backend/src/hyc_domain/decimals.py:122-164 | there and back errs by at most half a unit plus half a unit scaled by the factor ratio |
| UnitConversion.SmallerUnitRoundTrips | backend/src/hyc_domain/decimals.py:122-164 | to a unit no larger and back, both conversions succeed and give every on-grid value back |
| UnitConversion.RecoversIffNotLarger | backend/src/hyc_domain/decimals.py:122-164 | every on-grid value survives the way there and back exactly when the target unit is no larger |
| Rules.RuleAcceptsInterval | backend/src/hyc_domain/judgment.py:133-153 | a valid numeric rule accepts exactly an interval and never holds; any other rule always holds |
| Rules.OneSidedRelate | backend/src/hyc_domain/judgment.py:133-153 | at least is the order of the values; at most is its mirror image, and the strict rules are their opposites |
| Rules.TwoSidedSplit | backend/src/hyc_domain/judgment.py:133-153 | range, tolerance and equality rules accept exactly what two one-sided rules accept together |
| Rules.RoundingStaysIff | backend/src/hyc_domain/judgment.py:133-153 | rounding keeps every accepted value accepted exactly when it keeps both ends of the interval |
| Rules.StrictGridBoundsLeave | backend/src/hyc_domain/judgment.py:133-153 | a strict bound on the grid never has that property |
| Judgment.AllAcceptedIff | backend/src/hyc_domain/judgment.py:363-378 | all samples accepted means each sample accepted |
| Judgment.PolicyDecidesOn | backend/src/hyc_domain/judgment.py:353-418 | the average policy decides on the rounded value whose product with the number of samples is their sum, minimum and maximum on a least and a greatest sample, the worst case as all samples, and the manual policy on nothing |
| Judgment.SumIsAdditive | backend/src/hyc_domain/judgment.py:379-390 | the sum is that of the samples: one sample's is itself, and parts add up |
| Judgment.ExtremesDecideAll | backend/src/hyc_domain/judgment.py:391-410 | smallest and largest sample accepted is equivalent to all samples accepted |
| Judgment.AverageFollowsIff | backend/src/hyc_domain/judgment.py:379-390 | all samples accepted implies the rounded average accepted, for all sample sets, exactly when rounding keeps both ends of the rule's interval |
| Judgment.AverageFollowsOnGrid | backend/src/hyc_domain/judgment.py:379-390 | it does for every non-strict rule whose bounds are multiples of the scale's unit |
| Judgment.AggregateIgnoresOrder | backend/src/hyc_domain/judgment.py:353-418 | the order of samples decides nothing, under any policy |
| Judgment.NormaliseValues | backend/src/hyc_domain/judgment.py:300-328 | the loop returns all values parsed and converted in order, or nothing when one fails |
| Judgment.ReadInTargetUnit | backend/src/hyc_domain/judgment.py:300-328 | a value given in a unit is judged in the target unit: as the value times the ratio of the two factors, to half a unit of the scale |
| Judgment.EvaluateItemDetails | backend/src/hyc_domain/judgment.py:162-284 | the staged pipeline's overall decision is the declared one; its stages are a prefix of the fixed order, complete for every accepted or rejected item |
| Judgment.AcceptedIff | backend/src/hyc_domain/judgment.py:162-284 | for each source policy, exactly which sources must be there and accepted for an item to be accepted |
| Judgment.RejectedIff | backend/src/hyc_domain/judgment.py:162-284 | for each source and missing policy, exactly when an item is rejected; it is on hold otherwise |
| Judgment.AcceptedHasSamples | backend/src/hyc_domain/judgment.py:162-284 | an accepted item is mapped, confident, not manual, and has a non-empty sample set accepted under the HYC rule |
| Judgment.CaseAcceptedIff | backend/src/hyc_domain/judgment.py:340-351 | a case is accepted exactly when it has items and all are accepted, hence ready with accepted samples |
| Judgment.CaseFailsClosed | backend/src/hyc_domain/judgment.py:340-351 | a case is on hold exactly when it is empty or an item is on hold |
| Judgment.CaseIgnoresOrder | backend/src/hyc_domain/judgment.py:340-351 | the order of items decides nothing |
| Judgment.ItemIgnoresSampleOrder | backend/src/hyc_domain/judgment.py:162-284 | the order of an item's samples decides nothing |
| Judgment.SupplierRuleIsReferenceOnly | backend/src/hyc_domain/judgment.py:183-206 | one valid supplier rule is as good as another, or none |
| Finalization.CaseTables.EvidenceGuard | backend/alembic/versions/20260801_0004_p3_vertical_slice.py:181-199 | the trigger raises exactly when the case before or the case after is finalized |
| Finalization.CaseTables.GuardSample | backend/alembic/versions/20260801_0004_p3_vertical_slice.py:167-199 | for samples it asks for the case of the internal result, else of the supplier result |
| Finalization.CaseTables.Execute | backend/alembic/versions/20260731_0002_p2_domain_invariants.py:247-386 | a transaction commits exactly when no statement is refused, snapshot rows by their insert check included, and every finalization passes the deferred check, else nothing changes |
| Finalization.ReachedCasesAreSealed | backend/alembic/versions/20260731_0002_p2_domain_invariants.py:279-386 | in every reached database each finalized case has a snapshot of its candidate whose hash is that of its own canonical text, a LEAD approval by someone other than the submitter, no acceptance over a non-accepted candidate, and a reason for any deviation |
| Finalization.FinalizedEvidenceIsFrozen | backend/alembic/versions/20260801_0004_p3_vertical_slice.py:155-202 | once finalized, the case row, its results and their samples never change under any transactions |
| Finalization.ReachedEvidenceIsFrozen | backend/alembic/versions/20260801_0004_p3_vertical_slice.py:155-202 | so in every reached database: from a finalized state on, the case row, its results and samples are the same in all later states |
| Finalization.EvidenceRefusedIff | backend/alembic/versions/20260801_0004_p3_vertical_slice.py:155-202 | a change of a result or sample is refused exactly when it touches a finalized case; the evidence of every other case stays open |
| Finalization.CasesStay | backend/alembic/versions/20260731_0002_p2_domain_invariants.py:175-184 | no case row ever disappears: the guard skips the delete of a case that is not finalized and refuses that of one that is |
| Finalization.GuardAloneMissesASecondResult | backend/alembic/versions/20260801_0004_p3_vertical_slice.py:168-179 | the guard alone would miss a sample bound to two results; the row check is what excludes it |
| FinalApproval.MissingSupplierHolds | backend/src/hyc_data/repositories.py:502-567 | without a supplier result an item is on hold whatever its missing policy, because it counts as unmapped, unless its source policy is INTERNAL_ONLY |
| FinalApproval.MissingPolicyDecidesIff | backend/src/hyc_data/repositories.py:502-567 | the missing policy of a persisted item makes a difference exactly when a supplier result with a confirmed mapping has no numbers, the source policy is SUPPLIER_ONLY, BOTH_INTERNAL_PRIORITY, or SUPPLIER_REFERENCE_INTERNAL_FINAL with internal numbers, and neither unreadable internal numbers nor a manual sample policy holds the item |
| PersistedReading.InternalValuesAre | backend/src/hyc_data/repositories.py:432-567 | an item's internal numbers are those of the samples, in order, of the lowest live internal result of the case for that very item, or without samples that result's own number |
| PersistedReading.NoInternalValues | backend/src/hyc_data/repositories.py:432-567 | without such a result there are none |
| PersistedReading.SupplierValuesAre | backend/src/hyc_data/repositories.py:432-567 | an item's supplier numbers and mapping are those of the lowest live supplier result of the case mapped to the item's test |
| PersistedReading.NoSupplierValues | backend/src/hyc_data/repositories.py:432-567 | without such a result there are no numbers, and the item is mapped only if it is judged on internal results alone |
| PersistedReading.InternalIsReadIff | backend/src/hyc_data/repositories.py:511-514 | whenever the case has a live internal result for the item, such a lowest result and the list of its samples exist |
| PersistedReading.MissingInternalHolds | backend/src/hyc_data/repositories.py:511-567 | an item whose source policy needs an internal result and has none is on hold |
| PersistedReading.OthersDoNotCount | backend/src/hyc_data/repositories.py:432-567 | two databases that agree on the item's row, its live results in the case and their samples give it the same judgment input: other cases, items, deleted results and their samples do not bear on it |
| PersistedReading.CandidateIff | backend/src/hyc_data/repositories.py:458-572 | a case has a candidate decision exactly when its specification has live items, all with valid rules; it is accepted exactly when every item is judged accepted, and on hold exactly when one is |
| PersistedReading.AcceptedCaseIsJudged | backend/src/hyc_data/repositories.py:793-810 | a case finalized as accepted has items, and each is judged accepted on its own numbers as read above, ready and with non-empty accepted samples |
| FinalApproval.ApprovalRepository.Finalize | backend/src/hyc_data/repositories.py:751-874 | finalizing writes exactly the case, snapshot, approval, audit and event rows, or changes nothing; it succeeds exactly when no check refuses, the snapshot freezes, the case has no snapshot yet, and the database accepts the frozen row |
| FinalApproval.ChecksPassIff | backend/src/hyc_data/repositories.py:751-820 | the checks pass exactly when a lead other than the submitter decides on a live, open case of the version seen whose allocation, receipt and canonical lot are live and whose specification is the effective one, accepts only an accepted candidate, and gives a reason for anything else |
| FinalApproval.ReadyIff | backend/src/hyc_data/repositories.py:751-836 | a request goes on to be written exactly when there is a candidate, its checks pass and its payload freezes |
| FinalApproval.FinalizeMeetsTheTrigger | backend/alembic/versions/20260731_0002_p2_domain_invariants.py:279-386 | what the repository's checks let through satisfies every clause of the deferred trigger but the content hash, hence all of them exactly when the hash is that of the database's text |
| FinalApproval.FinalizeCommits | backend/src/hyc_data/repositories.py:751-874 | so its transaction commits, unless the case has a snapshot already or the insert check refuses the row |
| FinalApproval.RowAcceptance | backend/alembic/versions/20260731_0002_p2_domain_invariants.py:247-277 | for any collation the snapshot row is accepted if the collation agrees on its keys and no text holds a zero character, and else only if the hash function gives both texts one hash |
| FinalApproval.FinalizeSucceeds | backend/alembic/versions/20260731_0002_p2_domain_invariants.py:247-277 | on the keys the repository writes, under every collation that puts them in code-point order, the snapshot row is accepted exactly when no text in it holds a zero character |
| FinalApproval.UsualOrdersSuit | backend/alembic/versions/20260731_0002_p2_domain_invariants.py:213-231 | code points and the order that looks at underscores last are such collations |
| FinalApproval.LengthOrderRefuses | backend/alembic/versions/20260731_0002_p2_domain_invariants.py:247-277 | under an order by length first no case is finalized, unless both texts have one hash |
| FinalApproval.CandidateIsReproducible | backend/alembic/versions/20260801_0004_p3_vertical_slice.py:155-202 | the recorded candidate can be recomputed after any later transactions, while the specification's items stay |
| Traceability.IndexLots | backend/src/hyc_domain/traceability.py:50-52 | each identifier is represented by its first lot in key order |
| Traceability.IndexAllocations | backend/src/hyc_domain/traceability.py:46-48 | each material LOT lists exactly its allocations |
| Traceability.IndexConsumptions | backend/src/hyc_domain/traceability.py:54-66 | each allocation lists exactly the known production lots that consumed it |
| Traceability.DirectlyConsumed | backend/src/hyc_domain/traceability.py:69-78 | the lots that consumed the LOT itself, each once, in key order |
| Traceability.TraceForward | backend/src/hyc_domain/traceability.py:81-94 | the same, from the raw records |
| Traceability.ImpactScope | backend/src/hyc_domain/traceability.py:97-129 | terminates on every graph and returns exactly the production lots reachable from the LOT, each once, in key order |
| Traceability.RepresentativeIsEarliest | backend/src/hyc_domain/traceability.py:33-52 | the lot that stands for an identifier is one that no other lot of it precedes by production date, or by product on the same day |
| Traceability.AnswersComeByDate | backend/src/hyc_domain/traceability.py:33-38 | answers come by production date, those of one day by product, those of one product by identifier |
| Traceability.DirectIsImpacted | backend/src/hyc_domain/traceability.py:81-129 | the impact contains the forward trace |
| Traceability.ScopeIgnoresOrder | backend/src/hyc_domain/traceability.py:97-129 | the order of allocations, consumptions and lots decides nothing: the answers are equal |
| Idempotency.CompletedIsForever | backend/src/hyc_domain/idempotency.py:38-149 | a completed record never changes |
| Idempotency.CompletionRecordsTheResponse | backend/src/hyc_domain/idempotency.py:128-149 | a record completes only by a completing call on a pending record, and keeps that call's response for good |
| Idempotency.AnsweredIff | backend/src/hyc_domain/idempotency.py:63-125 | a stored record answers exactly a well-formed request for its own identity, before it expires, while nobody else holds its lease |
| Idempotency.ReplaysUntilExpiry | backend/src/hyc_domain/idempotency.py:95-101 | from a record's completion on, over all runs, every such request gets exactly the stored response and every other is refused |
| Idempotency.ExpiredNeverAnswers | backend/src/hyc_domain/idempotency.py:97-98 | over all runs, once the expiry given at the creation has come no request is answered |
| Idempotency.IdentityIsConstant | backend/src/hyc_domain/idempotency.py:38-149 | identity, creation time and expiry stay those of the creation |
| Idempotency.LeaseCovers | backend/src/hyc_domain/idempotency.py:38-125 | after a grant the record is completed or keeps a lease at least that long, through retryable failures too |
| Idempotency.GrantsAreDisjoint | backend/src/hyc_domain/idempotency.py:63-125 | a later lease starts when every earlier one has ended, whatever the clock does |
| Idempotency.IdempotencyRepository.ReserveRequest | backend/src/hyc_data/repositories.py:252-327 | reserving returns the stored record, renews its lease or creates it, and changes no other record; a conflict changes nothing |
| Idempotency.ReserveOverlapsIff | backend/src/hyc_data/repositories.py:263-303 | the repository's reservation grants over a live lease exactly after a retryable failure; the domain never does |
| Idempotency.RepositoryDisjointIff | backend/src/hyc_data/repositories.py:252-303 | over every run of reserving for positive lease times, completing and failing, the repository's leases are disjoint in time exactly when the stored request is never reserved while a retryable failure's lease still runs |
| Idempotency.RetryOverlaps | backend/src/hyc_data/repositories.py:252-303 | a run of three calls in which they overlap, though the domain refuses the second lease |
| Idempotency.ReserveMeetsResolve | backend/src/hyc_data/repositories.py:252-327 | apart from that case, the two answer alike for records without expiry |
| Ingest.IngestPipeline.Execute | backend/src/hyc_ingest/pipeline.py:54-200 | the loop over the entries leaves cursors, documents and counters as the fold over single entries; a disabled run changes nothing |
| Ingest.StatusIff | backend/src/hyc_ingest/pipeline.py:81-185 | the status an entry is left in, by the source's answers only: vanished without metadata, pending until it is due, failed when due but unreadable, and else ingested with the content it was read with |
| Ingest.StatusIsCounted | backend/src/hyc_ingest/pipeline.py:73-200 | handling an entry moves one counter by one, told by the status it is left in and by whether a document was added, and touches no other cursor |
| Ingest.RunsKeepReferenced | backend/src/hyc_ingest/pipeline.py:129-185 | every ingested cursor points at the one document with its checksum |
| Ingest.RunsKeepDocuments | backend/src/hyc_ingest/pipeline.py:155-185 | documents are only added and keep their content |
| Ingest.IngestedAreNewDocuments | backend/src/hyc_ingest/pipeline.py:155-185 | the ingested count is exactly the number of documents a run adds |
| Ingest.StableContentIsKept | backend/src/hyc_ingest/pipeline.py:139-185 | a stable, readable entry ends up at a document with its content, and a document is added exactly when none had it |
| Ingest.EveryEntryIsCounted | backend/src/hyc_ingest/pipeline.py:73-200 | ingested, deduplicated, pending, failed and vanished-after-ingest add up to the processed count exactly when the run did not raise |
| Ingest.StableMeansQuiet | backend/src/hyc_ingest/stabilization.py:31-70 | over every run, an entry is found stable only if, since the iteration its first-seen time comes from, a quiet period ago, every iteration that saw it settled on the size and time seen now |
| Ingest.PassesTrack | backend/src/hyc_ingest/pipeline.py:54-200 | over any runs over any entries, an entry's cursor, but for the number of its document, is what its own looks alone make of it |
| Ingest.StableAmongOthersMeansQuiet | backend/src/hyc_ingest/pipeline.py:54-200 | so the quiet period holds of every entry in every interleaved run |
| Ingest.StableIsUnchangedIff | backend/src/hyc_ingest/pipeline.py:81-115 | no answer at all showed another size or time since that iteration exactly when no first look at the ingested entry did |
| Ingest.QuietMeansStable | backend/src/hyc_ingest/stabilization.py:31-70 | conversely, with a clock that does not go back, an entry on which every iteration of a quiet period settled alike is found stable, unless it is ingested already |
| Ingest.TwoAnswersHideAChange | backend/src/hyc_ingest/pipeline.py:81-106 | a run that finds an entry stable and reads it again although the same iteration saw it changed: since no iteration were all answers alike |

## Left out

- Decimal contexts: the 28-digit scoring context and the 96-digit arithmetic context are abstracted to exact reals, so
  inexact division, overflow and quantize failures on too many digits do not occur in the model.
- Scoring counters: the scorer's mutable counter object is a value that each step replaces; its unused error list and
  the decimal quotient of a metric are not modelled.
- Stage manifests, run-level grouping errors, report digests and operational metrics of the evaluation artifacts.
- The comparison of a run's version bindings is one boolean.
- Golden dataset validation other than polygons and segments; the missing-polygon and invalid-polygon counters, which
  stay zero.
- The JSON reader's NaN and infinity constants, surrogate pairs and limits on digits; snapshot rows with fractional
  numbers, which no frozen payload holds and the model's insert check refuses.
- FinalApproval.ApprovalRepository.Finalize: the snapshot payload's persisted values (rows of rules, results, decisions,
  lot and allocation) are inputs; that they repeat the judged evidence is not modelled.
- Lots.LotRepository.PromoteProvisional: a failing survivor search rolls the promotion back, as the surrounding
  transaction does.
- Row locks, advisory locks and sessions: steps are atomic and one at a time.
- Lineage.LineageTables.ChangeRun: statements that change a primary key are not modelled.
- Audit and approval rows of a lot merge are one record per merged lot.
- Finalization.CaseTables.Execute: lock versions of results and samples, revision numbering of corrections and soft
  deletion are not checked there; such checks refuse more statements.
- Judgment.EvaluateItemDetails: failure codes and the recorded aggregations of an evaluation are not part of its result.
- Negative rounding scales in judgment, and non-finite decimals.
- Ingest.IngestPipeline.Execute: mirror copies, storage files, error texts, media types and the last-seen time are not
  modelled.
- Idempotency responses: the response body is any text.
- Unit codes and conversion versions as non-string objects, and units of other dimensions than the four declared.
- API routes, worker, frontend, OCR, report rendering and workbook import: they would add plumbing or easy members.
