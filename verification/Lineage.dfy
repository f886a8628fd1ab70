/** The tables behind a document's extraction, and the guards that freeze them once a run is confirmed. */
module Lineage {
  import opened Options
  import opened RowChanges

  type DocumentId = nat
  type RunId = nat
  type ReviewId = nat
  type SectionId = nat
  type LinkId = nat

  datatype RunStatus = ReviewRequired | Confirmed

  datatype Run = Run(document: DocumentId, status: RunStatus, payload: string)
  datatype Review = Review(run: RunId, text: string)
  datatype Section = Section(document: DocumentId, pages: string)
  datatype Link = Link(section: SectionId, allocation: nat, status: string)

  datatype Tables = Tables(runs: map<RunId, Run>, reviews: map<ReviewId, Review>,
                           sections: map<SectionId, Section>, links: map<LinkId, Link>)

  datatype Statement =
    | OnRun(run: RunId, runChange: Change<Run>)
    | OnReview(review: ReviewId, reviewChange: Change<Review>)
    | OnSection(section: SectionId, sectionChange: Change<Section>)
    | OnLink(link: LinkId, linkChange: Change<Link>)

  // ----- what the guards refuse --------------------------------------------------------

  predicate HasConfirmed(runs: map<RunId, Run>, document: DocumentId) {
    exists run :: run in runs && runs[run].document == document && runs[run].status == Confirmed
  }

  predicate Frozen(runs: map<RunId, Run>, document: Option<DocumentId>) {
    document.Some? && HasConfirmed(runs, document.value)
  }

  predicate IsConfirmed(runs: map<RunId, Run>, run: Option<RunId>) {
    run.Some? && run.value in runs && runs[run.value].status == Confirmed
  }

  predicate Terminal(before: Option<Run>, after: Option<Run>) {
    && before.Some? && after.Some? && before.value.status == ReviewRequired && after.value.status == Confirmed
    && before.value.document == after.value.document
  }

  function RunDocument(run: Option<Run>): Option<DocumentId> {
    if run.Some? then Some(run.value.document) else None
  }

  predicate RunGuardRaises(runs: map<RunId, Run>, before: Option<Run>, after: Option<Run>) {
    || (before.None? && after.Some? && after.value.status == Confirmed)
    || (before.Some? && after.Some? && before.value.status == Confirmed)
    || (!Terminal(before, after) && (Frozen(runs, RunDocument(before)) || Frozen(runs, RunDocument(after))))
  }

  /** The unique index lets a document have one confirmed run. */
  predicate IndexRefuses(runs: map<RunId, Run>, id: RunId, after: Option<Run>) {
    after.Some? && after.value.status == Confirmed && HasConfirmed(runs - {id}, after.value.document)
  }

  function ReviewRun(review: Option<Review>): Option<RunId> {
    if review.Some? then Some(review.value.run) else None
  }

  predicate ReviewGuardRaises(runs: map<RunId, Run>, before: Option<Review>, after: Option<Review>) {
    IsConfirmed(runs, ReviewRun(before)) || IsConfirmed(runs, ReviewRun(after))
  }

  function SectionDocument(section: Option<Section>): Option<DocumentId> {
    if section.Some? then Some(section.value.document) else None
  }

  predicate SectionGuardRaises(runs: map<RunId, Run>, before: Option<Section>, after: Option<Section>) {
    Frozen(runs, SectionDocument(before)) || Frozen(runs, SectionDocument(after))
  }

  function LinkDocument(sections: map<SectionId, Section>, link: Option<Link>): Option<DocumentId> {
    if link.Some? && link.value.section in sections then Some(sections[link.value.section].document) else None
  }

  predicate LinkGuardRaises(t: Tables, before: Option<Link>, after: Option<Link>) {
    Frozen(t.runs, LinkDocument(t.sections, before)) || Frozen(t.runs, LinkDocument(t.sections, after))
  }

  predicate Accepts(t: Tables, s: Statement) {
    match s
    case OnRun(id, change) =>
      && Applies(t.runs, id, change)
      && !RunGuardRaises(t.runs, Before(t.runs, id, change), After(change))
      && !IndexRefuses(t.runs, id, After(change))
    case OnReview(id, change) =>
      Applies(t.reviews, id, change) && !ReviewGuardRaises(t.runs, Before(t.reviews, id, change), After(change))
    case OnSection(id, change) =>
      Applies(t.sections, id, change) && !SectionGuardRaises(t.runs, Before(t.sections, id, change), After(change))
    case OnLink(id, change) =>
      Applies(t.links, id, change) && !LinkGuardRaises(t, Before(t.links, id, change), After(change))
  }

  function Written(t: Tables, s: Statement): Tables {
    match s
    case OnRun(id, change) => t.(runs := Apply(t.runs, id, change))
    case OnReview(id, change) => t.(reviews := Apply(t.reviews, id, change))
    case OnSection(id, change) => t.(sections := Apply(t.sections, id, change))
    case OnLink(id, change) => t.(links := Apply(t.links, id, change))
  }

  /** A refused statement changes nothing. */
  function Execute(t: Tables, s: Statement): Tables {
    if Accepts(t, s) then Written(t, s) else t
  }

  function ExecuteAll(t: Tables, statements: seq<Statement>): Tables {
    if statements == [] then t
    else Execute(ExecuteAll(t, statements[..|statements| - 1]), statements[|statements| - 1])
  }

  // ----- the tables --------------------------------------------------------------------

  class LineageTables {
    var runs: map<RunId, Run>
    var reviews: map<ReviewId, Review>
    var sections: map<SectionId, Section>
    var links: map<LinkId, Link>

    constructor ()
      ensures State() == Tables(map[], map[], map[], map[])
    {
      runs, reviews, sections, links := map[], map[], map[], map[];
    }

    function State(): Tables
      reads this
    {
      Tables(runs, reviews, sections, links)
    }

    /** Whether one of the documents has a confirmed run. */
    method AnyConfirmed(documents: set<DocumentId>) returns (found: bool)
      ensures found <==> exists document :: document in documents && HasConfirmed(runs, document)
    {
      found := exists run :: run in runs && runs[run].document in documents && runs[run].status == Confirmed;
      if found {
        ghost var run :| run in runs && runs[run].document in documents && runs[run].status == Confirmed;
        assert HasConfirmed(runs, runs[run].document);
      }
    }

    method GuardRunMutation(before: Option<Run>, after: Option<Run>) returns (raised: bool)
      ensures raised == RunGuardRaises(runs, before, after)
    {
      var documents: set<DocumentId> := {};
      if before.Some? {
        documents := documents + {before.value.document};
      }
      if after.Some? {
        documents := documents + {after.value.document};
      }
      if before.None? && after.Some? && after.value.status == Confirmed {
        return true;
      }
      var terminal := false;
      if before.Some? && after.Some? {
        if before.value.status == Confirmed {
          return true;
        }
        terminal := before.value.status == ReviewRequired && after.value.status == Confirmed
                    && before.value.document == after.value.document;
      }
      var confirmed := AnyConfirmed(documents);
      return !terminal && confirmed;
    }

    method GuardReviewMutation(before: Option<Review>, after: Option<Review>) returns (raised: bool)
      ensures raised == ReviewGuardRaises(runs, before, after)
    {
      var runIds: set<RunId> := {};
      if before.Some? {
        runIds := runIds + {before.value.run};
      }
      if after.Some? {
        runIds := runIds + {after.value.run};
      }
      return exists run :: run in runIds && run in runs && runs[run].status == Confirmed;
    }

    method GuardSectionMutation(before: Option<Section>, after: Option<Section>) returns (raised: bool)
      ensures raised == SectionGuardRaises(runs, before, after)
    {
      var documents: set<DocumentId> := {};
      if before.Some? {
        documents := documents + {before.value.document};
      }
      if after.Some? {
        documents := documents + {after.value.document};
      }
      raised := AnyConfirmed(documents);
    }

    method GuardLinkMutation(before: Option<Link>, after: Option<Link>) returns (raised: bool)
      ensures raised == LinkGuardRaises(State(), before, after)
    {
      var documents: set<DocumentId> := {};
      if before.Some? && before.value.section in sections {
        documents := documents + {sections[before.value.section].document};
      }
      if after.Some? && after.value.section in sections {
        documents := documents + {sections[after.value.section].document};
      }
      raised := AnyConfirmed(documents);
    }

    method ChangeRun(id: RunId, change: Change<Run>) returns (ok: bool)
      modifies this`runs
      ensures ok == Accepts(old(State()), OnRun(id, change))
      ensures State() == Execute(old(State()), OnRun(id, change))
    {
      if !Applies(runs, id, change) {
        return false;
      }
      var raised := GuardRunMutation(Before(runs, id, change), After(change));
      if raised || IndexRefuses(runs, id, After(change)) {
        return false;
      }
      runs := Apply(runs, id, change);
      return true;
    }

    method ChangeReview(id: ReviewId, change: Change<Review>) returns (ok: bool)
      modifies this`reviews
      ensures ok == Accepts(old(State()), OnReview(id, change))
      ensures State() == Execute(old(State()), OnReview(id, change))
    {
      if !Applies(reviews, id, change) {
        return false;
      }
      var raised := GuardReviewMutation(Before(reviews, id, change), After(change));
      if !raised {
        reviews := Apply(reviews, id, change);
      }
      return !raised;
    }

    method ChangeSection(id: SectionId, change: Change<Section>) returns (ok: bool)
      modifies this`sections
      ensures ok == Accepts(old(State()), OnSection(id, change))
      ensures State() == Execute(old(State()), OnSection(id, change))
    {
      if !Applies(sections, id, change) {
        return false;
      }
      var raised := GuardSectionMutation(Before(sections, id, change), After(change));
      if !raised {
        sections := Apply(sections, id, change);
      }
      return !raised;
    }

    method ChangeLink(id: LinkId, change: Change<Link>) returns (ok: bool)
      modifies this`links
      ensures ok == Accepts(old(State()), OnLink(id, change))
      ensures State() == Execute(old(State()), OnLink(id, change))
    {
      if !Applies(links, id, change) {
        return false;
      }
      var raised := GuardLinkMutation(Before(links, id, change), After(change));
      if !raised {
        links := Apply(links, id, change);
      }
      return !raised;
    }
  }

  // ----- what stays frozen -------------------------------------------------------------

  function RunsOf(t: Tables, document: DocumentId): map<RunId, Run> {
    map run | run in t.runs && t.runs[run].document == document :: t.runs[run]
  }

  predicate IsConfirmedRunOf(t: Tables, document: DocumentId, run: RunId) {
    run in t.runs && t.runs[run].document == document && t.runs[run].status == Confirmed
  }

  function ConfirmedReviewsOf(t: Tables, document: DocumentId): map<ReviewId, Review> {
    map review | review in t.reviews && IsConfirmedRunOf(t, document, t.reviews[review].run) :: t.reviews[review]
  }

  function SectionsOf(t: Tables, document: DocumentId): map<SectionId, Section> {
    map section | section in t.sections && t.sections[section].document == document :: t.sections[section]
  }

  function LinksOf(t: Tables, document: DocumentId): map<LinkId, Link> {
    map link | link in t.links && t.links[link].section in SectionsOf(t, document) :: t.links[link]
  }

  predicate SameLineage(a: Tables, b: Tables, document: DocumentId) {
    && RunsOf(a, document) == RunsOf(b, document)
    && ConfirmedReviewsOf(a, document) == ConfirmedReviewsOf(b, document)
    && SectionsOf(a, document) == SectionsOf(b, document) && LinksOf(a, document) == LinksOf(b, document)
  }

  ghost predicate OneConfirmed(runs: map<RunId, Run>) {
    forall a, b | a in runs && b in runs && runs[a].status == runs[b].status == Confirmed ::
      runs[a].document == runs[b].document ==> a == b
  }

  lemma RunStatementKeepsRuns(t: Tables, id: RunId, change: Change<Run>, document: DocumentId)
    requires HasConfirmed(t.runs, document) && Accepts(t, OnRun(id, change))
    ensures id !in RunsOf(t, document) && id !in RunsOf(Written(t, OnRun(id, change)), document)
  {
    var before, after := Before(t.runs, id, change), After(change);
    if Terminal(before, after) && after.value.document == document {
      var run :| run in t.runs && t.runs[run].document == document && t.runs[run].status == Confirmed;
      assert run in t.runs - {id};
      assert HasConfirmed(t.runs - {id}, document);
    }
  }

  lemma RunStatementKeepsLineage(t: Tables, id: RunId, change: Change<Run>, document: DocumentId)
    requires HasConfirmed(t.runs, document) && Accepts(t, OnRun(id, change))
    ensures SameLineage(t, Written(t, OnRun(id, change)), document)
  {
    RunStatementKeepsRuns(t, id, change, document);
    var w := Written(t, OnRun(id, change));
    assert RunsOf(t, document) == RunsOf(w, document);
    forall run ensures IsConfirmedRunOf(t, document, run) <==> IsConfirmedRunOf(w, document, run) {
      assert IsConfirmedRunOf(t, document, run) <==> run in RunsOf(t, document) && RunsOf(t, document)[run].status == Confirmed;
      assert IsConfirmedRunOf(w, document, run) <==> run in RunsOf(w, document) && RunsOf(w, document)[run].status == Confirmed;
    }
  }

  lemma SectionStatementKeepsLineage(t: Tables, id: SectionId, change: Change<Section>, document: DocumentId)
    requires HasConfirmed(t.runs, document) && Accepts(t, OnSection(id, change))
    ensures SameLineage(t, Written(t, OnSection(id, change)), document)
  {
    assert SectionsOf(t, document) == SectionsOf(Written(t, OnSection(id, change)), document);
  }

  lemma ReviewStatementKeepsLineage(t: Tables, id: ReviewId, change: Change<Review>, document: DocumentId)
    requires Accepts(t, OnReview(id, change))
    ensures SameLineage(t, Written(t, OnReview(id, change)), document)
  {
  }

  lemma LinkStatementKeepsLineage(t: Tables, id: LinkId, change: Change<Link>, document: DocumentId)
    requires HasConfirmed(t.runs, document) && Accepts(t, OnLink(id, change))
    ensures SameLineage(t, Written(t, OnLink(id, change)), document)
  {
  }

  /** No statement touches the lineage of a document with a confirmed run. */
  lemma StatementKeepsLineage(t: Tables, s: Statement, document: DocumentId)
    requires HasConfirmed(t.runs, document)
    ensures SameLineage(t, Execute(t, s), document) && HasConfirmed(Execute(t, s).runs, document)
  {
    if Accepts(t, s) {
      match s {
        case OnRun(id, change) => RunStatementKeepsLineage(t, id, change, document);
        case OnReview(id, change) => ReviewStatementKeepsLineage(t, id, change, document);
        case OnSection(id, change) => SectionStatementKeepsLineage(t, id, change, document);
        case OnLink(id, change) => LinkStatementKeepsLineage(t, id, change, document);
      }
      SameRunsStayConfirmed(t, Written(t, s), document);
    }
  }

  lemma SameRunsStayConfirmed(a: Tables, b: Tables, document: DocumentId)
    requires HasConfirmed(a.runs, document) && RunsOf(a, document) == RunsOf(b, document)
    ensures HasConfirmed(b.runs, document)
  {
    var run :| run in a.runs && a.runs[run].document == document && a.runs[run].status == Confirmed;
    assert run in RunsOf(a, document);
    assert run in b.runs && b.runs[run] == RunsOf(b, document)[run];
  }

  /** Once a document has a confirmed run, no sequence of statements changes its lineage. */
  lemma {:induction false} ConfirmedLineageIsFrozen(t: Tables, statements: seq<Statement>, document: DocumentId)
    requires HasConfirmed(t.runs, document)
    ensures SameLineage(t, ExecuteAll(t, statements), document)
    ensures HasConfirmed(ExecuteAll(t, statements).runs, document)
  {
    if statements != [] {
      var first := statements[..|statements| - 1];
      ConfirmedLineageIsFrozen(t, first, document);
      StatementKeepsLineage(ExecuteAll(t, first), statements[|statements| - 1], document);
    }
  }

  lemma StatementKeepsOneConfirmed(t: Tables, s: Statement)
    requires OneConfirmed(t.runs)
    ensures OneConfirmed(Execute(t, s).runs)
  {
    if s.OnRun? && Accepts(t, s) {
      var after, id := After(s.runChange), s.run;
      if after.Some? && after.value.status == Confirmed {
        forall run | run in t.runs && run != id && t.runs[run].status == Confirmed
          ensures t.runs[run].document != after.value.document
        {
          assert run in t.runs - {id};
        }
      }
    }
  }

  /** No run of the tables ever has two confirmed extraction runs for one document. */
  lemma {:induction false} NeverTwoConfirmed(t: Tables, statements: seq<Statement>)
    requires OneConfirmed(t.runs)
    ensures OneConfirmed(ExecuteAll(t, statements).runs)
  {
    if statements != [] {
      var first := statements[..|statements| - 1];
      NeverTwoConfirmed(t, first);
      StatementKeepsOneConfirmed(ExecuteAll(t, first), statements[|statements| - 1]);
    }
  }

  /** The guard alone admits a second confirmed run exactly when a run under review is confirmed in place
      although its document already has a confirmed run; only the unique index refuses that. */
  lemma IndexIsNeeded(runs: map<RunId, Run>, id: RunId, change: Change<Run>)
    requires OneConfirmed(runs) && Applies(runs, id, change)
    requires !RunGuardRaises(runs, Before(runs, id, change), After(change))
    ensures !OneConfirmed(Apply(runs, id, change)) <==>
              Terminal(Before(runs, id, change), After(change)) && HasConfirmed(runs, runs[id].document)
  {
    var after := After(change);
    var next := Apply(runs, id, change);
    if Terminal(Before(runs, id, change), after) && HasConfirmed(runs, runs[id].document) {
      var other :| other in runs && runs[other].document == runs[id].document && runs[other].status == Confirmed;
      assert other in next && id in next && other != id;
    }
    if !OneConfirmed(next) {
      var a, b :| a in next && b in next && next[a].status == next[b].status == Confirmed
                  && next[a].document == next[b].document && a != b;
      var other := if a == id then b else a;
      assert other in runs && runs[other] == next[other];
    }
  }

  /** Such a run is reachable: two runs under review, one confirmed, then the other. */
  lemma GuardAloneAdmitsASecondRun()
    ensures var pending, confirmed := Run(1, ReviewRequired, ""), Run(1, Confirmed, "");
      var t := ExecuteAll(Tables(map[], map[], map[], map[]),
                          [OnRun(1, Insert(pending)), OnRun(2, Insert(pending)), OnRun(1, Update(confirmed))]);
      && t.runs == map[1 := confirmed, 2 := pending]
      && !RunGuardRaises(t.runs, Some(pending), Some(confirmed))
      && !OneConfirmed(Apply(t.runs, 2, Update(confirmed)))
      && !Accepts(t, OnRun(2, Update(confirmed)))
  {
    var pending, confirmed := Run(1, ReviewRequired, ""), Run(1, Confirmed, "");
    var none := Tables(map[], map[], map[], map[]);
    var a, b, c := OnRun(1, Insert(pending)), OnRun(2, Insert(pending)), OnRun(1, Update(confirmed));
    assert [a][..0] == [] && [a, b][..1] == [a] && [a, b, c][..2] == [a, b];
    var one := Execute(none, a);
    assert one.runs == map[1 := pending];
    var two := Execute(one, b);
    assert two.runs == map[1 := pending, 2 := pending];
    assert !HasConfirmed(two.runs, 1);
    assert !HasConfirmed(two.runs - {1}, 1);
    var three := Execute(two, c);
    assert three.runs == map[1 := confirmed, 2 := pending];
    assert ExecuteAll(none, [a]) == one;
    assert ExecuteAll(none, [a, b]) == two;
    assert ExecuteAll(none, [a, b, c]) == three;
    var next := Apply(three.runs, 2, Update(confirmed));
    assert 1 in next && 2 in next && next[1] == next[2] == confirmed;
    assert 1 in three.runs - {2} && (three.runs - {2})[1] == confirmed;
  }

  // ----- what stays open ---------------------------------------------------------------

  predicate AppliesTo(t: Tables, s: Statement) {
    match s
    case OnRun(id, change) => Applies(t.runs, id, change)
    case OnReview(id, change) => Applies(t.reviews, id, change)
    case OnSection(id, change) => Applies(t.sections, id, change)
    case OnLink(id, change) => Applies(t.links, id, change)
  }

  /** The row the statement finds, or the one it leaves, belongs to the document; a review does through its run. */
  predicate Touches(t: Tables, s: Statement, document: DocumentId) {
    match s
    case OnRun(id, change) =>
      RunDocument(Before(t.runs, id, change)) == Some(document) || RunDocument(After(change)) == Some(document)
    case OnReview(id, change) =>
      var (before, after) := (ReviewRun(Before(t.reviews, id, change)), ReviewRun(After(change)));
      || (before.Some? && before.value in t.runs && t.runs[before.value].document == document)
      || (after.Some? && after.value in t.runs && t.runs[after.value].document == document)
    case OnSection(id, change) =>
      SectionDocument(Before(t.sections, id, change)) == Some(document) || SectionDocument(After(change)) == Some(document)
    case OnLink(id, change) =>
      || LinkDocument(t.sections, Before(t.links, id, change)) == Some(document)
      || LinkDocument(t.sections, After(change)) == Some(document)
  }

  /** Nothing else is refused: a refused statement inserts a confirmed run, or touches a document that has one. */
  lemma RefusedOnlyWhenFrozen(t: Tables, s: Statement)
    requires AppliesTo(t, s) && !Accepts(t, s)
    ensures (s.OnRun? && s.runChange.Insert? && s.runChange.row.status == Confirmed)
            || exists document :: HasConfirmed(t.runs, document) && Touches(t, s, document)
  {
    match s
    case OnReview(id, change) =>
      var (before, after) := (ReviewRun(Before(t.reviews, id, change)), ReviewRun(After(change)));
      var run := if IsConfirmed(t.runs, before) then before.value else after.value;
      assert HasConfirmed(t.runs, t.runs[run].document) && Touches(t, s, t.runs[run].document);
    case OnRun(id, change) =>
      var before, after := Before(t.runs, id, change), After(change);
      assert before.Some? && before.value.status == Confirmed ==> t.runs[id] == before.value;
      if IndexRefuses(t.runs, id, after) {
        var run :| run in t.runs - {id} && t.runs[run].document == after.value.document && t.runs[run].status == Confirmed;
        assert HasConfirmed(t.runs, after.value.document);
      }
      if before.Some? && HasConfirmed(t.runs, before.value.document) {
        assert Touches(t, s, before.value.document);
      } else if !change.Insert? || change.row.status != Confirmed {
        assert after.Some? && HasConfirmed(t.runs, after.value.document) && Touches(t, s, after.value.document);
      }
    case OnSection(id, change) =>
      var before, after := SectionDocument(Before(t.sections, id, change)), SectionDocument(After(change));
      assert Touches(t, s, if Frozen(t.runs, before) then before.value else after.value);
    case OnLink(id, change) =>
      var before, after := LinkDocument(t.sections, Before(t.links, id, change)), LinkDocument(t.sections, After(change));
      assert Touches(t, s, if Frozen(t.runs, before) then before.value else after.value);
  }

  /** A run under review is confirmed exactly when its document has no confirmed run yet. */
  lemma ConfirmedIff(t: Tables, id: RunId, payload: string)
    requires id in t.runs && t.runs[id].status == ReviewRequired
    ensures var document := t.runs[id].document;
      var s := OnRun(id, Update(Run(document, Confirmed, payload)));
      && (Accepts(t, s) <==> !HasConfirmed(t.runs, document))
      && (Accepts(t, s) ==> HasConfirmed(Execute(t, s).runs, document))
  {
    var document := t.runs[id].document;
    var s := OnRun(id, Update(Run(document, Confirmed, payload)));
    if run :| run in t.runs && t.runs[run].document == document && t.runs[run].status == Confirmed {
      assert run in t.runs - {id};
    }
    if Accepts(t, s) {
      assert Execute(t, s).runs[id] == Run(document, Confirmed, payload);
    }
  }
}
