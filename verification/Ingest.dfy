/** Ingesting a source's entries: waiting until they are quiet, reading them once, and keeping one document each. */
module Ingest {
  import opened Options

  type Time = int
  type EntryId = string
  type Digest = string
  type DocumentId = nat

  /** One answer of the source about an entry: gone, unreadable metadata, or its size and modification time. */
  datatype Observation = Seen(size: int, modified: Time) | Gone | Malformed

  datatype Status = PendingStability | Ingested | Failed | Vanished

  datatype Cursor = Cursor(status: Status, size: Option<int>, modified: Option<Time>, firstSeen: Time,
                           checksum: Option<Digest>, document: Option<DocumentId>)

  // ----- stability ---------------------------------------------------------------------

  datatype Reason = Settled | VanishedEntry | InvalidSize | UnstableChanging | QuietPeriodPending

  datatype Verdict = Verdict(stable: bool, seen: Observation, firstSeen: Time, reason: Reason)

  /** Stable when the entry looks as last time and has done so for the quiet period. */
  function EvaluateEntry(quiet: Time, now: Time, seen: Observation, last: Option<Cursor>): Verdict {
    if !seen.Seen? then Verdict(false, Gone, now, VanishedEntry)
    else if seen.size < 0 then Verdict(false, seen, now, InvalidSize)
    else if last.None? || last.value.size != Some(seen.size) || last.value.modified != Some(seen.modified) then
      if quiet == 0 then Verdict(true, seen, now, Settled) else Verdict(false, seen, now, UnstableChanging)
    else if now - last.value.firstSeen >= quiet then Verdict(true, seen, last.value.firstSeen, Settled)
    else Verdict(false, seen, last.value.firstSeen, QuietPeriodPending)
  }

  // ----- one entry ---------------------------------------------------------------------

  /** What the source answers while an entry is handled: a look at an ingested entry, the evaluation's look, the content. */
  datatype Look = Look(now: Time, first: Observation, second: Observation, content: Option<Digest>)

  datatype Counts = Counts(processed: nat, ingested: nat, deduplicated: nat, pending: nat, failed: nat,
                           vanishedAfterIngest: nat)

  datatype State = State(cursors: map<EntryId, Cursor>, documents: map<DocumentId, Digest>, nextDocument: DocumentId,
                         counts: Counts)

  function CursorOf(s: State, entry: EntryId): Option<Cursor> {
    if entry in s.cursors then Some(s.cursors[entry]) else None
  }

  function DocumentWith(documents: map<DocumentId, Digest>, digest: Digest): (d: Option<DocumentId>)
    ensures d.Some? ==> d.value in documents && documents[d.value] == digest
    ensures d.None? ==> forall id :: id in documents ==> documents[id] != digest
  {
    if exists id :: id in documents && documents[id] == digest then Some(Lowest(documents, digest)) else None
  }

  predicate IsLowest(documents: map<DocumentId, Digest>, digest: Digest, id: DocumentId) {
    id in documents && documents[id] == digest
    && forall other :: other in documents && documents[other] == digest ==> id <= other
  }

  lemma {:induction false} LowestExists(documents: map<DocumentId, Digest>, digest: Digest, id: DocumentId)
    requires id in documents && documents[id] == digest
    ensures exists low :: IsLowest(documents, digest, low)
    decreases id
  {
    if other :| other in documents && documents[other] == digest && other < id {
      LowestExists(documents, digest, other);
    } else {
      assert IsLowest(documents, digest, id);
    }
  }

  function Lowest(documents: map<DocumentId, Digest>, digest: Digest): (id: DocumentId)
    requires exists id :: id in documents && documents[id] == digest
    ensures IsLowest(documents, digest, id)
  {
    LowestExists(documents, digest, var id :| id in documents && documents[id] == digest; id);
    var id :| id in documents && IsLowest(documents, digest, id);
    id
  }

  /** An ingested entry that still looks as it did. */
  predicate Unchanged(c: Option<Cursor>, look: Look) {
    c.Some? && c.value.status == Ingested && look.first.Seen? && c.value.size == Some(look.first.size)
    && c.value.modified == Some(look.first.modified)
  }

  predicate VanishedAfterIngest(c: Option<Cursor>, look: Look) {
    c.Some? && c.value.status == Ingested && look.first.Gone?
  }

  /** Malformed metadata of an ingested entry ends the run with an error. */
  predicate Raises(c: Option<Cursor>, look: Look) {
    c.Some? && c.value.status == Ingested && look.first.Malformed?
  }

  /** The cursor with what the evaluation saw; status, checksum and document stay for now. */
  function Observed(c: Option<Cursor>, v: Verdict): Cursor {
    var size := if v.seen.Seen? then Some(v.seen.size) else None;
    var modified := if v.seen.Seen? then Some(v.seen.modified) else None;
    if c.None? then Cursor(if v.stable then Ingested else PendingStability, size, modified, v.firstSeen, None, None)
    else c.value.(size := size, modified := modified, firstSeen := v.firstSeen)
  }

  /** What handling one entry leaves, when it does not raise. */
  function Handle(quiet: Time, s: State, entry: EntryId, look: Look): State {
    var c, n := CursorOf(s, entry), s.counts;
    if Unchanged(c, look) then s.(counts := n.(deduplicated := n.deduplicated + 1))
    else if VanishedAfterIngest(c, look) then
      s.(cursors := s.cursors[entry := c.value.(status := Vanished)],
         counts := n.(vanishedAfterIngest := n.vanishedAfterIngest + 1))
    else
      var v := EvaluateEntry(quiet, look.now, look.second, c);
      var seen := Observed(c, v);
      if !v.stable then
        if v.reason == VanishedEntry then
          s.(cursors := s.cursors[entry := seen.(status := Vanished)], counts := n.(failed := n.failed + 1))
        else s.(cursors := s.cursors[entry := seen.(status := PendingStability)], counts := n.(pending := n.pending + 1))
      else if look.content.None? then
        s.(cursors := s.cursors[entry := seen.(status := Failed)], counts := n.(failed := n.failed + 1))
      else
        var digest := look.content.value;
        var known := DocumentWith(s.documents, digest);
        var document := if known.Some? then known.value else s.nextDocument;
        var kept := seen.(status := Ingested, checksum := Some(digest), document := Some(document));
        if known.Some? then
          s.(cursors := s.cursors[entry := kept], counts := n.(deduplicated := n.deduplicated + 1))
        else
          s.(cursors := s.cursors[entry := kept], documents := s.documents[document := digest],
             nextDocument := s.nextDocument + 1, counts := n.(ingested := n.ingested + 1))
  }

  /** The entries handled in order; an entry that raises ends the run. */
  function HandleAll(quiet: Time, s: State, entries: seq<EntryId>, looks: seq<Look>): (State, bool)
    requires |looks| == |entries|
  {
    if entries == [] then (s, false)
    else
      var n := |entries| - 1;
      var (before, raised) := HandleAll(quiet, s, entries[..n], looks[..n]);
      if raised || Raises(CursorOf(before, entries[n]), looks[n]) then (before, true)
      else (Handle(quiet, before, entries[n], looks[n]), false)
  }

  // ----- the pipeline ------------------------------------------------------------------

  class IngestPipeline {
    const quiet: Time
    var cursors: map<EntryId, Cursor>
    var documents: map<DocumentId, Digest>
    var nextDocument: DocumentId

    constructor (quiet: Time)
      ensures this.quiet == quiet && cursors == map[] && documents == map[] && nextDocument == 0
    {
      this.quiet := quiet;
      cursors, documents, nextDocument := map[], map[], 0;
    }

    function Started(processed: nat): State
      reads this
    {
      State(cursors, documents, nextDocument, Counts(processed, 0, 0, 0, 0, 0))
    }

    /** Runs over the listed entries; a run that is not enabled does nothing. */
    method Execute(entries: seq<EntryId>, looks: seq<Look>, enabled: bool) returns (counts: Counts, raised: bool)
      requires |looks| == |entries|
      modifies this
      ensures !enabled ==> !raised && counts == Counts(0, 0, 0, 0, 0, 0)
                           && (cursors, documents, nextDocument) == old((cursors, documents, nextDocument))
      ensures enabled ==> (State(cursors, documents, nextDocument, counts), raised)
                          == HandleAll(quiet, old(Started(|entries|)), entries, looks)
    {
      hide EvaluateEntry, Observed, DocumentWith, Lowest, HandleAll;
      raised := false;
      if !enabled {
        return Counts(0, 0, 0, 0, 0, 0), false;
      }
      ghost var start := Started(|entries|);
      counts := Counts(|entries|, 0, 0, 0, 0, 0);
      HandleNone(quiet, start);
      assert entries[..0] == [] && looks[..0] == [];
      for i := 0 to |entries|
        invariant (State(cursors, documents, nextDocument, counts), false)
                  == HandleAll(quiet, start, entries[..i], looks[..i])
      {
        var entry, look := entries[i], looks[i];
        HandleOneMore(quiet, start, entries, looks, i);
        var cursor := if entry in cursors then Some(cursors[entry]) else None;
        if Raises(cursor, look) {
          RaisedForGood(quiet, start, entries, looks, i + 1);
          return counts, true;
        }
        if cursor.Some? && cursor.value.status == Ingested {
          if look.first.Gone? {
            cursors := cursors[entry := cursor.value.(status := Vanished)];
            counts := counts.(vanishedAfterIngest := counts.vanishedAfterIngest + 1);
            continue;
          }
          if cursor.value.size == Some(look.first.size) && cursor.value.modified == Some(look.first.modified) {
            counts := counts.(deduplicated := counts.deduplicated + 1);
            continue;
          }
        }
        var verdict := EvaluateEntry(quiet, look.now, look.second, cursor);
        var updated := Observed(cursor, verdict);
        if !verdict.stable {
          if verdict.reason == VanishedEntry {
            updated := updated.(status := Vanished);
            counts := counts.(failed := counts.failed + 1);
          } else {
            updated := updated.(status := PendingStability);
            counts := counts.(pending := counts.pending + 1);
          }
          cursors := cursors[entry := updated];
          continue;
        }
        if look.content.None? {
          cursors := cursors[entry := updated.(status := Failed)];
          counts := counts.(failed := counts.failed + 1);
          continue;
        }
        var digest := look.content.value;
        updated := updated.(checksum := Some(digest));
        var known := DocumentWith(documents, digest);
        if known.Some? {
          updated := updated.(document := known, status := Ingested);
          counts := counts.(deduplicated := counts.deduplicated + 1);
        } else {
          documents := documents[nextDocument := digest];
          updated := updated.(document := Some(nextDocument), status := Ingested);
          nextDocument := nextDocument + 1;
          counts := counts.(ingested := counts.ingested + 1);
        }
        cursors := cursors[entry := updated];
      }
      assert entries[..|entries|] == entries && looks[..|looks|] == looks;
    }
  }

  lemma HandleNone(quiet: Time, s: State)
    ensures HandleAll(quiet, s, [], []) == (s, false)
  {
  }

  lemma HandleOneMore(quiet: Time, s: State, entries: seq<EntryId>, looks: seq<Look>, i: nat)
    requires |looks| == |entries| && i < |entries|
    ensures HandleAll(quiet, s, entries[..i + 1], looks[..i + 1]) ==
              var (before, raised) := HandleAll(quiet, s, entries[..i], looks[..i]);
              if raised || Raises(CursorOf(before, entries[i]), looks[i]) then (before, true)
              else (Handle(quiet, before, entries[i], looks[i]), false)
  {
    hide Handle, Raises;
    assert entries[..i + 1][..i] == entries[..i] && looks[..i + 1][..i] == looks[..i];
  }

  lemma {:induction false} RaisedForGood(quiet: Time, s: State, entries: seq<EntryId>, looks: seq<Look>, i: nat)
    requires |looks| == |entries| && i <= |entries| && HandleAll(quiet, s, entries[..i], looks[..i]).1
    ensures HandleAll(quiet, s, entries, looks) == HandleAll(quiet, s, entries[..i], looks[..i])
    decreases |entries|
  {
    if i == |entries| {
      assert entries[..i] == entries && looks[..i] == looks;
    } else {
      var n := |entries| - 1;
      assert entries[..n][..i] == entries[..i] && looks[..n][..i] == looks[..i];
      RaisedForGood(quiet, s, entries[..n], looks[..n], i);
    }
  }

  // ----- what becomes of one entry -----------------------------------------------------

  /** Nothing is asked beyond the first look: an ingested entry is as it was, or gone. */
  predicate SettledAtOnce(c: Option<Cursor>, first: Observation) {
    && c.Some? && c.value.status == Ingested
    && (first == Gone || (first.Seen? && c.value.size == Some(first.size) && c.value.modified == Some(first.modified)))
  }

  /** The entry is to be read: there, as it was seen before for the quiet period, or anything at all without one. */
  predicate Due(quiet: Time, c: Option<Cursor>, look: Look) {
    && look.second.Seen? && look.second.size >= 0
    && if c.Some? && c.value.size == Some(look.second.size) && c.value.modified == Some(look.second.modified)
       then look.now >= c.value.firstSeen + quiet else quiet == 0
  }

  /** The status an entry is left in, by what the source answered and nothing else. */
  lemma StatusIff(quiet: Time, s: State, entry: EntryId, look: Look)
    requires !Raises(CursorOf(s, entry), look)
    ensures var c, after := CursorOf(s, entry), Handle(quiet, s, entry, look);
      && entry in after.cursors
      && var status := after.cursors[entry].status;
      if SettledAtOnce(c, look.first) then status == (if look.first == Gone then Vanished else Ingested)
      else
        && (status == Vanished <==> !look.second.Seen?)
        && (status == PendingStability <==> look.second.Seen? && !Due(quiet, c, look))
        && (status == Failed <==> Due(quiet, c, look) && look.content.None?)
        && (status == Ingested <==> Due(quiet, c, look) && look.content.Some?)
        && (status == Ingested ==> after.cursors[entry].checksum == look.content
                                   && PointsAtDocument(after, after.cursors[entry]))
  {
    hide Lowest;
  }

  /** One counter moves by one, told by the status the entry is left in and by whether a document was added. */
  lemma StatusIsCounted(quiet: Time, s: State, entry: EntryId, look: Look)
    requires !Raises(CursorOf(s, entry), look) && forall id :: id in s.documents ==> id < s.nextDocument
    ensures var c, after := CursorOf(s, entry), Handle(quiet, s, entry, look);
      && entry in after.cursors
      && var status, n, m := after.cursors[entry].status, s.counts, after.counts;
      && m.processed == n.processed
      && m.pending - n.pending == (if status == PendingStability then 1 else 0)
      && m.failed - n.failed == (if status == Failed || (status == Vanished && !SettledAtOnce(c, look.first)) then 1 else 0)
      && m.vanishedAfterIngest - n.vanishedAfterIngest == (if status == Vanished && SettledAtOnce(c, look.first) then 1 else 0)
      && m.ingested - n.ingested == (if after.documents != s.documents then 1 else 0)
      && m.deduplicated - n.deduplicated == (if status == Ingested && after.documents == s.documents then 1 else 0)
      && (after.documents != s.documents ==>
            status == Ingested && look.content.Some? && (forall id :: id in s.documents ==> s.documents[id] != look.content.value)
            && after.documents == s.documents[s.nextDocument := look.content.value])
      && forall other :: other != entry ==> CursorOf(after, other) == CursorOf(s, other)
  {
    hide Lowest;
    var after := Handle(quiet, s, entry, look);
    assert s.nextDocument !in s.documents;
    assert after.nextDocument != s.nextDocument ==> s.nextDocument in after.documents;
  }

  // ----- what every run keeps ----------------------------------------------------------

  /** Every ingested cursor points at the one document with its checksum. */
  ghost predicate Referenced(s: State) {
    && (forall id :: id in s.documents ==> id < s.nextDocument)
    && (forall a, b :: a in s.documents && b in s.documents && s.documents[a] == s.documents[b] ==> a == b)
    && forall e :: e in s.cursors && s.cursors[e].status == Ingested ==> PointsAtDocument(s, s.cursors[e])
  }

  predicate PointsAtDocument(s: State, c: Cursor) {
    c.document.Some? && c.document.value in s.documents && c.checksum == Some(s.documents[c.document.value])
  }

  lemma HandleKeepsReferenced(quiet: Time, s: State, entry: EntryId, look: Look)
    requires Referenced(s)
    ensures Referenced(Handle(quiet, s, entry, look))
  {
    var after := Handle(quiet, s, entry, look);
    forall e | e in after.cursors && after.cursors[e].status == Ingested ensures PointsAtDocument(after, after.cursors[e]) {
      if e != entry {
        assert PointsAtDocument(s, s.cursors[e]);
      }
    }
  }

  lemma {:induction false} RunsKeepReferenced(quiet: Time, s: State, entries: seq<EntryId>, looks: seq<Look>)
    requires |looks| == |entries| && Referenced(s)
    ensures Referenced(HandleAll(quiet, s, entries, looks).0)
  {
    if entries != [] {
      var n := |entries| - 1;
      RunsKeepReferenced(quiet, s, entries[..n], looks[..n]);
      var (before, raised) := HandleAll(quiet, s, entries[..n], looks[..n]);
      HandleKeepsReferenced(quiet, before, entries[n], looks[n]);
    }
  }

  /** Documents are only added, and never change their content. */
  lemma {:induction false} RunsKeepDocuments(quiet: Time, s: State, entries: seq<EntryId>, looks: seq<Look>, id: DocumentId)
    requires |looks| == |entries| && Referenced(s) && id in s.documents
    ensures var after := HandleAll(quiet, s, entries, looks).0;
      id in after.documents && after.documents[id] == s.documents[id]
  {
    if entries != [] {
      var n := |entries| - 1;
      RunsKeepDocuments(quiet, s, entries[..n], looks[..n], id);
      RunsKeepReferenced(quiet, s, entries[..n], looks[..n]);
    }
  }

  /** A run counts as ingested exactly the documents it adds. */
  lemma {:induction false} IngestedAreNewDocuments(quiet: Time, s: State, entries: seq<EntryId>, looks: seq<Look>)
    requires |looks| == |entries| && Referenced(s)
    ensures var after := HandleAll(quiet, s, entries, looks).0;
      |after.documents| - |s.documents| == after.counts.ingested - s.counts.ingested >= 0
  {
    if entries != [] {
      var n := |entries| - 1;
      IngestedAreNewDocuments(quiet, s, entries[..n], looks[..n]);
      RunsKeepReferenced(quiet, s, entries[..n], looks[..n]);
      var before := HandleAll(quiet, s, entries[..n], looks[..n]).0;
      assert before.nextDocument !in before.documents;
    }
  }

  /** Handling a stable, readable entry leaves its cursor at a document with its content, new only if there was none. */
  lemma StableContentIsKept(quiet: Time, s: State, entry: EntryId, look: Look)
    requires Referenced(s) && look.content.Some?
    requires var c := CursorOf(s, entry);
      !Unchanged(c, look) && !VanishedAfterIngest(c, look) && EvaluateEntry(quiet, look.now, look.second, c).stable
    ensures var after, digest := Handle(quiet, s, entry, look), look.content.value;
      && after.cursors[entry].status == Ingested && after.cursors[entry].document.Some?
      && after.cursors[entry].document.value in after.documents
      && after.documents[after.cursors[entry].document.value] == digest
      && (after.documents == s.documents <==> exists id :: id in s.documents && s.documents[id] == digest)
  {
    var known := DocumentWith(s.documents, look.content.value);
    if known.None? {
      assert s.nextDocument in Handle(quiet, s, entry, look).documents && s.nextDocument !in s.documents;
    }
  }

  function Counted(n: Counts): nat {
    n.ingested + n.deduplicated + n.pending + n.failed + n.vanishedAfterIngest
  }

  lemma {:induction false} RunsCount(quiet: Time, s: State, entries: seq<EntryId>, looks: seq<Look>)
    requires |looks| == |entries|
    ensures var (after, raised) := HandleAll(quiet, s, entries, looks);
      && after.counts.processed == s.counts.processed
      && (if raised then Counted(after.counts) < Counted(s.counts) + |entries|
          else Counted(after.counts) == Counted(s.counts) + |entries|)
  {
    if entries != [] {
      var n := |entries| - 1;
      RunsCount(quiet, s, entries[..n], looks[..n]);
    }
  }

  /** Every listed entry is counted once: the counters add up to the processed count unless the run raised. */
  lemma EveryEntryIsCounted(quiet: Time, s: State, entries: seq<EntryId>, looks: seq<Look>)
    requires |looks| == |entries| && s.counts == Counts(|entries|, 0, 0, 0, 0, 0)
    ensures var (after, raised) := HandleAll(quiet, s, entries, looks);
      !raised <==> after.counts.processed == Counted(after.counts)
  {
    RunsCount(quiet, s, entries, looks);
  }

  // ----- quiet entries -----------------------------------------------------------------

  /** The cursor of an entry after its first `n` iterations; one that raises changes nothing. */
  function TrackedAt(quiet: Time, s: State, entry: EntryId, looks: seq<Look>, n: nat): State
    requires n <= |looks|
  {
    if n == 0 then s
    else
      var before := TrackedAt(quiet, s, entry, looks, n - 1);
      if Raises(CursorOf(before, entry), looks[n - 1]) then before else Handle(quiet, before, entry, looks[n - 1])
  }

  /** The answers an iteration asks for, in order: a second one only if the first did not settle the entry. */
  function Asked(c: Option<Cursor>, look: Look): (os: seq<Observation>)
    ensures os != []
  {
    if c.None? || c.value.status != Ingested then [look.second]
    else if Unchanged(c, look) || !look.first.Seen? then [look.first]
    else [look.first, look.second]
  }

  /** The answers asked for in each of the first `n` iterations. */
  function AskedUntil(quiet: Time, s: State, entry: EntryId, looks: seq<Look>, n: nat): (asked: seq<seq<Observation>>)
    requires n <= |looks|
    ensures |asked| == n && forall k :: 0 <= k < n ==> asked[k] != []
  {
    if n == 0 then []
    else
      AskedUntil(quiet, s, entry, looks, n - 1)
      + [Asked(CursorOf(TrackedAt(quiet, s, entry, looks, n - 1), entry), looks[n - 1])]
  }

  /** The iteration evaluates the entry and finds it stable. */
  predicate FoundStable(quiet: Time, s: State, entry: EntryId, looks: seq<Look>, n: nat)
    requires n < |looks|
  {
    var c := CursorOf(TrackedAt(quiet, s, entry, looks, n), entry);
    && !Raises(c, looks[n]) && !Unchanged(c, looks[n]) && !VanishedAfterIngest(c, looks[n])
    && EvaluateEntry(quiet, looks[n].now, looks[n].second, c).stable
  }

  /** The answer an iteration settles on: the last it asked for. */
  function Settling(asked: seq<Observation>): Observation
    requires asked != []
  {
    asked[|asked| - 1]
  }

  /** The iteration at `i` settled on `seen`, and so did every later one that settled on a size and time. */
  predicate SettledSince(asked: seq<seq<Observation>>, i: nat, seen: Observation)
    requires forall k :: 0 <= k < |asked| ==> asked[k] != []
  {
    && i < |asked| && Settling(asked[i]) == seen
    && forall k :: i <= k < |asked| && Settling(asked[k]).Seen? ==> Settling(asked[k]) == seen
  }

  /** The iteration at `i` settled on `seen`, and from it on no answer showed another size or time. */
  predicate UnchangedSince(asked: seq<seq<Observation>>, i: nat, seen: Observation)
    requires forall k :: 0 <= k < |asked| ==> asked[k] != []
  {
    && i < |asked| && Settling(asked[i]) == seen
    && forall k, j :: i <= k < |asked| && 0 <= j < |asked[k]| && asked[k][j].Seen? ==> asked[k][j] == seen
  }

  /** The cursor's size and time were first seen when it says, and every iteration since settled on them. */
  ghost predicate Remembers(looks: seq<Look>, asked: seq<seq<Observation>>, c: Option<Cursor>)
    requires |asked| <= |looks| && forall k :: 0 <= k < |asked| ==> asked[k] != []
  {
    c.Some? && c.value.size.Some? ==>
      && c.value.modified.Some?
      && exists i: nat :: SettledSince(asked, i, Seen(c.value.size.value, c.value.modified.value)) && looks[i].now == c.value.firstSeen
  }

  lemma SettledGrows(asked: seq<seq<Observation>>, i: nat, seen: Observation, next: seq<Observation>)
    requires next != [] && forall k :: 0 <= k < |asked| ==> asked[k] != []
    requires SettledSince(asked, i, seen) && (Settling(next).Seen? ==> Settling(next) == seen)
    ensures SettledSince(asked + [next], i, seen)
  {
  }

  lemma TrackingRemembers(quiet: Time, before: State, entry: EntryId, looks: seq<Look>, asked: seq<seq<Observation>>)
    requires |asked| < |looks| && (forall k :: 0 <= k < |asked| ==> asked[k] != [])
    requires Remembers(looks, asked, CursorOf(before, entry))
    ensures var c, look := CursorOf(before, entry), looks[|asked|];
      var after := if Raises(c, look) then before else Handle(quiet, before, entry, look);
      Remembers(looks, asked + [Asked(c, look)], CursorOf(after, entry))
  {
    var c, look := CursorOf(before, entry), looks[|asked|];
    var next := Asked(c, look);
    if Settling(next).Seen? {
      assert SettledSince(asked + [next], |asked|, Settling(next));
    }
    if c.Some? && c.value.size.Some? {
      var seen := Seen(c.value.size.value, c.value.modified.value);
      var i: nat :| SettledSince(asked, i, seen) && looks[i].now == c.value.firstSeen;
      if !Settling(next).Seen? || Settling(next) == seen {
        SettledGrows(asked, i, seen, next);
      }
    }
  }

  lemma {:induction false} CursorRemembers(quiet: Time, s: State, entry: EntryId, looks: seq<Look>, n: nat)
    requires n <= |looks| && entry !in s.cursors
    ensures Remembers(looks, AskedUntil(quiet, s, entry, looks, n), CursorOf(TrackedAt(quiet, s, entry, looks, n), entry))
  {
    hide Handle, EvaluateEntry, Asked, Raises, SettledSince;
    if n > 0 {
      CursorRemembers(quiet, s, entry, looks, n - 1);
      TrackingRemembers(quiet, TrackedAt(quiet, s, entry, looks, n - 1), entry, looks, AskedUntil(quiet, s, entry, looks, n - 1));
    }
  }

  /**
   An entry is stable only if, since an iteration a quiet period ago, every iteration that saw the entry settled on
   what this one sees; that iteration is the one the evaluation counts from.
   */
  lemma StableMeansQuiet(quiet: Time, s: State, entry: EntryId, looks: seq<Look>, n: nat) returns (i: nat)
    requires n < |looks| && entry !in s.cursors && FoundStable(quiet, s, entry, looks, n)
    ensures SettledSince(AskedUntil(quiet, s, entry, looks, n + 1), i, looks[n].second)
    ensures looks[n].now - looks[i].now >= quiet
    ensures var c := CursorOf(TrackedAt(quiet, s, entry, looks, n), entry);
      looks[i].now == EvaluateEntry(quiet, looks[n].now, looks[n].second, c).firstSeen
  {
    CursorRemembers(quiet, s, entry, looks, n);
    var c := CursorOf(TrackedAt(quiet, s, entry, looks, n), entry);
    var seen, asked, next := looks[n].second, AskedUntil(quiet, s, entry, looks, n), Asked(c, looks[n]);
    if c.Some? && c.value.size == Some(seen.size) && c.value.modified == Some(seen.modified) {
      i :| SettledSince(asked, i, seen) && looks[i].now == c.value.firstSeen;
      SettledGrows(asked, i, seen, next);
    } else {
      i := n;
    }
  }

  // ----- one entry among others --------------------------------------------------------

  /** The looks a run spends on one entry; nothing more once some entry has raised. */
  function OwnLooks(quiet: Time, s: State, entries: seq<EntryId>, looks: seq<Look>, entry: EntryId): seq<Look>
    requires |looks| == |entries|
  {
    if entries == [] then []
    else
      var n := |entries| - 1;
      OwnLooks(quiet, s, entries[..n], looks[..n], entry)
      + if entries[n] == entry && !HandleAll(quiet, s, entries[..n], looks[..n]).1 then [looks[n]] else []
  }

  /** A run of the pipeline: what it lists and what the source answers. */
  datatype Pass = Pass(entries: seq<EntryId>, looks: seq<Look>)

  predicate PassesOk(passes: seq<Pass>) {
    forall i :: 0 <= i < |passes| ==> |passes[i].looks| == |passes[i].entries|
  }

  function StateAfter(quiet: Time, s: State, passes: seq<Pass>): State
    requires PassesOk(passes)
  {
    if passes == [] then s
    else
      var n := |passes| - 1;
      HandleAll(quiet, StateAfter(quiet, s, passes[..n]), passes[n].entries, passes[n].looks).0
  }

  function LooksAt(quiet: Time, s: State, passes: seq<Pass>, entry: EntryId): seq<Look>
    requires PassesOk(passes)
  {
    if passes == [] then []
    else
      var n := |passes| - 1;
      LooksAt(quiet, s, passes[..n], entry)
      + OwnLooks(quiet, StateAfter(quiet, s, passes[..n]), passes[n].entries, passes[n].looks, entry)
  }

  /** All of a cursor but the number of its document. */
  function Watched(c: Option<Cursor>): Option<Cursor> {
    if c.None? then None else Some(c.value.(document := None))
  }

  /** The evaluation in this state finds the entry stable. */
  predicate StableNow(quiet: Time, c: Option<Cursor>, look: Look) {
    !Raises(c, look) && !Unchanged(c, look) && !VanishedAfterIngest(c, look)
    && EvaluateEntry(quiet, look.now, look.second, c).stable
  }

  lemma StabilityIsWatched(quiet: Time, c: Option<Cursor>, d: Option<Cursor>, look: Look)
    requires Watched(c) == Watched(d)
    ensures StableNow(quiet, c, look) == StableNow(quiet, d, look)
    ensures EvaluateEntry(quiet, look.now, look.second, c) == EvaluateEntry(quiet, look.now, look.second, d)
  {
  }

  lemma ObservedIsWatched(c: Option<Cursor>, d: Option<Cursor>, v: Verdict)
    requires Watched(c) == Watched(d)
    ensures Watched(Some(Observed(c, v))) == Watched(Some(Observed(d, v)))
  {
  }

  /** What one entry's handling leaves of its cursor depends on nothing else in the state. */
  lemma HandlingIsOwn(quiet: Time, a: State, b: State, entry: EntryId, look: Look)
    requires Watched(CursorOf(a, entry)) == Watched(CursorOf(b, entry))
    ensures Raises(CursorOf(a, entry), look) == Raises(CursorOf(b, entry), look)
    ensures Watched(CursorOf(Handle(quiet, a, entry, look), entry)) == Watched(CursorOf(Handle(quiet, b, entry, look), entry))
  {
    hide DocumentWith, Lowest, EvaluateEntry, Observed;
    var c, d := CursorOf(a, entry), CursorOf(b, entry);
    StabilityIsWatched(quiet, c, d, look);
    ObservedIsWatched(c, d, EvaluateEntry(quiet, look.now, look.second, c));
  }

  lemma HandlingOthers(quiet: Time, s: State, entry: EntryId, look: Look, other: EntryId)
    requires other != entry
    ensures CursorOf(Handle(quiet, s, entry, look), other) == CursorOf(s, other)
  {
    hide DocumentWith, Lowest, EvaluateEntry, Observed;
  }

  /** Tracking goes on from where it stands. */
  lemma {:induction false} TrackingJoins(quiet: Time, s: State, entry: EntryId, looks: seq<Look>, more: seq<Look>, n: nat)
    requires n <= |more|
    ensures TrackedAt(quiet, s, entry, looks + more, |looks| + n)
            == TrackedAt(quiet, TrackedAt(quiet, s, entry, looks, |looks|), entry, more, n)
    decreases n
  {
    hide Handle, Raises, CursorOf;
    if n == 0 {
      TrackingPrefix(quiet, s, entry, looks, more, |looks|);
    } else {
      TrackingJoins(quiet, s, entry, looks, more, n - 1);
    }
  }

  lemma {:induction false} TrackingPrefix(quiet: Time, s: State, entry: EntryId, looks: seq<Look>, more: seq<Look>, n: nat)
    requires n <= |looks|
    ensures TrackedAt(quiet, s, entry, looks + more, n) == TrackedAt(quiet, s, entry, looks, n)
  {
    hide Handle, Raises, CursorOf;
    if n > 0 {
      TrackingPrefix(quiet, s, entry, looks, more, n - 1);
    }
  }

  /** Within one run an entry's cursor is what its own looks make of it. */
  lemma {:induction false} RunTracks(quiet: Time, a: State, b: State, entries: seq<EntryId>, looks: seq<Look>, entry: EntryId)
    requires |looks| == |entries| && Watched(CursorOf(a, entry)) == Watched(CursorOf(b, entry))
    ensures var own := OwnLooks(quiet, a, entries, looks, entry);
      Watched(CursorOf(HandleAll(quiet, a, entries, looks).0, entry)) == Watched(CursorOf(TrackedAt(quiet, b, entry, own, |own|), entry))
    decreases entries
  {
    hide Handle, Raises, CursorOf, Watched;
    if entries != [] {
      var n := |entries| - 1;
      var before := OwnLooks(quiet, a, entries[..n], looks[..n], entry);
      var (mid, raised) := HandleAll(quiet, a, entries[..n], looks[..n]);
      RunTracks(quiet, a, b, entries[..n], looks[..n], entry);
      var tracked := TrackedAt(quiet, b, entry, before, |before|);
      if entries[n] == entry && !raised {
        TrackingPrefix(quiet, b, entry, before, [looks[n]], |before|);
        HandlingIsOwn(quiet, mid, tracked, entry, looks[n]);
      } else {
        assert before + [] == before;
        if !raised {
          HandlingOthers(quiet, mid, entries[n], looks[n], entry);
        }
      }
    }
  }

  /** Over any runs, whatever other entries are handled in between, so it is: the cursor follows from the entry's own looks. */
  lemma {:induction false} PassesTrack(quiet: Time, s: State, passes: seq<Pass>, entry: EntryId)
    requires PassesOk(passes)
    ensures var own := LooksAt(quiet, s, passes, entry);
      Watched(CursorOf(StateAfter(quiet, s, passes), entry)) == Watched(CursorOf(TrackedAt(quiet, s, entry, own, |own|), entry))
    decreases passes
  {
    hide Handle, Raises, CursorOf, Watched, HandleAll, OwnLooks, TrackedAt;
    if passes != [] {
      var n := |passes| - 1;
      var before := LooksAt(quiet, s, passes[..n], entry);
      var mid := StateAfter(quiet, s, passes[..n]);
      var more := OwnLooks(quiet, mid, passes[n].entries, passes[n].looks, entry);
      PassesTrack(quiet, s, passes[..n], entry);
      RunTracks(quiet, mid, TrackedAt(quiet, s, entry, before, |before|), passes[n].entries, passes[n].looks, entry);
      TrackingJoins(quiet, s, entry, before, more, |more|);
    } else {
      StartTracks(quiet, s, entry);
    }
  }

  lemma StartTracks(quiet: Time, s: State, entry: EntryId)
    ensures TrackedAt(quiet, s, entry, [], 0) == s
  {
  }

  /**
   In whatever runs over whatever entries (a run in progress is a run over its entries so far): an entry is found stable
   only if, since one of its own iterations a quiet period ago, each of its iterations that saw it settled on what this
   one sees.
   */
  lemma StableAmongOthersMeansQuiet(quiet: Time, s: State, passes: seq<Pass>, entry: EntryId, look: Look) returns (i: nat)
    requires PassesOk(passes) && entry !in s.cursors
    requires StableNow(quiet, CursorOf(StateAfter(quiet, s, passes), entry), look)
    ensures var looks := LooksAt(quiet, s, passes, entry) + [look];
      && SettledSince(AskedUntil(quiet, s, entry, looks, |looks|), i, look.second) && look.now - looks[i].now >= quiet
      && looks[i].now == EvaluateEntry(quiet, look.now, look.second, CursorOf(StateAfter(quiet, s, passes), entry)).firstSeen
  {
    hide Handle, HandleAll, OwnLooks, TrackedAt, AskedUntil, SettledSince, CursorOf, Watched, StateAfter, LooksAt;
    var own := LooksAt(quiet, s, passes, entry);
    var looks := own + [look];
    PassesTrack(quiet, s, passes, entry);
    TrackingPrefix(quiet, s, entry, own, [look], |own|);
    StabilityIsWatched(quiet, CursorOf(StateAfter(quiet, s, passes), entry),
                       CursorOf(TrackedAt(quiet, s, entry, own, |own|), entry), look);
    i := StableMeansQuiet(quiet, s, entry, looks, |own|);
  }

  /** The first look at an ingested entry saw something else than `seen`. */
  predicate SawOther(quiet: Time, s: State, entry: EntryId, looks: seq<Look>, k: nat, seen: Observation)
    requires k < |looks|
  {
    var c := CursorOf(TrackedAt(quiet, s, entry, looks, k), entry);
    c.Some? && c.value.status == Ingested && looks[k].first.Seen? && looks[k].first != seen
  }

  lemma {:induction false} AskedAt(quiet: Time, s: State, entry: EntryId, looks: seq<Look>, n: nat, k: nat)
    requires k < n <= |looks|
    ensures AskedUntil(quiet, s, entry, looks, n)[k] == Asked(CursorOf(TrackedAt(quiet, s, entry, looks, k), entry), looks[k])
  {
    hide Handle, EvaluateEntry, Asked, TrackedAt, CursorOf;
    if k < n - 1 {
      AskedAt(quiet, s, entry, looks, n - 1, k);
    }
  }

  /**
   When no answer at all showed another size or time since the iteration a stable entry counts from: exactly when no
   first look at the ingested entry did.
   */
  lemma StableIsUnchangedIff(quiet: Time, s: State, entry: EntryId, looks: seq<Look>, n: nat, i: nat)
    requires n < |looks| && looks[n].second.Seen?
    requires SettledSince(AskedUntil(quiet, s, entry, looks, n + 1), i, looks[n].second)
    ensures UnchangedSince(AskedUntil(quiet, s, entry, looks, n + 1), i, looks[n].second)
            <==> forall k :: i <= k <= n ==> !SawOther(quiet, s, entry, looks, k, looks[n].second)
  {
    var asked: seq<seq<Observation>>, seen := AskedUntil(quiet, s, entry, looks, n + 1), looks[n].second;
    forall k | i <= k <= n
      ensures SawOther(quiet, s, entry, looks, k, seen)
              <==> exists j :: 0 <= j < |asked[k]| && asked[k][j].Seen? && asked[k][j] != seen
    {
      AskedAt(quiet, s, entry, looks, n + 1, k);
      var c := CursorOf(TrackedAt(quiet, s, entry, looks, k), entry);
      assert asked[k] == Asked(c, looks[k]);
      assert Settling(asked[k]).Seen? ==> Settling(asked[k]) == seen;
      if SawOther(quiet, s, entry, looks, k, seen) {
        assert asked[k][0] == looks[k].first;
      }
    }
  }

  /** The clock never goes back. */
  predicate Monotone(looks: seq<Look>) {
    forall i, j :: 0 <= i <= j < |looks| ==> looks[i].now <= looks[j].now
  }

  /** The cursor an iteration leaves says what it settled on, and counts from now unless it was seen before. */
  lemma HandledCursor(quiet: Time, before: State, entry: EntryId, look: Look)
    requires !Raises(CursorOf(before, entry), look)
    ensures var c, d := CursorOf(before, entry), CursorOf(Handle(quiet, before, entry, look), entry);
      var seen := Settling(Asked(c, look));
      && d.Some? && (d.value.firstSeen == look.now || (c.Some? && d.value.firstSeen == c.value.firstSeen))
      && (seen.Seen? ==>
            && d.value.size == Some(seen.size) && d.value.modified == Some(seen.modified)
            && (c.Some? && c.value.size == d.value.size && c.value.modified == d.value.modified && seen.size >= 0 ==>
                  d.value.firstSeen == c.value.firstSeen))
  {
  }

  lemma {:induction false} FirstSeenIsPast(quiet: Time, s: State, entry: EntryId, looks: seq<Look>, n: nat)
    requires 0 < n <= |looks| && entry !in s.cursors && Monotone(looks)
    ensures var c := CursorOf(TrackedAt(quiet, s, entry, looks, n), entry); c.Some? ==> c.value.firstSeen <= looks[n - 1].now
  {
    hide Handle, EvaluateEntry, Asked;
    if n > 1 {
      FirstSeenIsPast(quiet, s, entry, looks, n - 1);
    }
    var before := TrackedAt(quiet, s, entry, looks, n - 1);
    if !Raises(CursorOf(before, entry), looks[n - 1]) {
      HandledCursor(quiet, before, entry, looks[n - 1]);
    }
  }

  /** Every iteration from `i` up to `n` settled on `seen`. */
  ghost predicate SettledThrough(quiet: Time, s: State, entry: EntryId, looks: seq<Look>, i: nat, n: nat, seen: Observation)
    requires n <= |looks|
  {
    forall k :: i <= k < n ==> Settling(Asked(CursorOf(TrackedAt(quiet, s, entry, looks, k), entry), looks[k])) == seen
  }

  lemma SettledDoesNotRaise(c: Option<Cursor>, look: Look)
    ensures Settling(Asked(c, look)).Seen? ==> !Raises(c, look)
  {
  }

  /** Since `i` every iteration settled on the same, so the cursor says so and counts from no later. */
  lemma {:induction false} QuietIsTracked(quiet: Time, s: State, entry: EntryId, looks: seq<Look>, i: nat, n: nat, seen: Observation)
    requires i < n <= |looks| && entry !in s.cursors && Monotone(looks) && seen.Seen? && seen.size >= 0
    requires SettledThrough(quiet, s, entry, looks, i, n, seen)
    ensures var c := CursorOf(TrackedAt(quiet, s, entry, looks, n), entry);
      c.Some? && c.value.size == Some(seen.size) && c.value.modified == Some(seen.modified) && c.value.firstSeen <= looks[i].now
  {
    hide Handle, EvaluateEntry, Asked, Settling;
    var before := TrackedAt(quiet, s, entry, looks, n - 1);
    if n > i + 1 {
      QuietIsTracked(quiet, s, entry, looks, i, n - 1, seen);
    } else if i > 0 {
      FirstSeenIsPast(quiet, s, entry, looks, i);
    }
    assert Settling(Asked(CursorOf(before, entry), looks[n - 1])) == seen;
    SettledDoesNotRaise(CursorOf(before, entry), looks[n - 1]);
    HandledCursor(quiet, before, entry, looks[n - 1]);
  }

  /** An entry on which every iteration of a quiet period settled alike is found stable, unless it is ingested already. */
  lemma QuietMeansStable(quiet: Time, s: State, entry: EntryId, looks: seq<Look>, i: nat, n: nat, seen: Observation)
    requires i <= n < |looks| && entry !in s.cursors && Monotone(looks) && quiet >= 0
    requires seen.Seen? && seen.size >= 0 && looks[n].now - looks[i].now >= quiet
    requires SettledThrough(quiet, s, entry, looks, i, n + 1, seen)
    ensures FoundStable(quiet, s, entry, looks, n) || Unchanged(CursorOf(TrackedAt(quiet, s, entry, looks, n), entry), looks[n])
  {
    assert Settling(Asked(CursorOf(TrackedAt(quiet, s, entry, looks, n), entry), looks[n])) == seen;
    if i < n {
      QuietIsTracked(quiet, s, entry, looks, i, n, seen);
    } else if n > 0 {
      FirstSeenIsPast(quiet, s, entry, looks, n);
    }
  }

  /**
   The quiet period does not hold of every answer: an ingested entry that changes and changes back between the two looks
   of one iteration is found stable and read again, though no quiet period without a change has passed.
   */
  lemma TwoAnswersHideAChange()
    ensures var s, looks := State(map[], map[], 0, Counts(0, 0, 0, 0, 0, 0)),
                            [Look(0, Gone, Seen(1, 1), Some("a")), Look(10, Gone, Seen(1, 1), Some("a")),
                             Look(11, Seen(2, 2), Seen(1, 1), Some("b"))];
      && FoundStable(10, s, "x", looks, 2)
      && forall i: nat :: !UnchangedSince(AskedUntil(10, s, "x", looks, 3), i, looks[2].second)
  {
    var looks := [Look(0, Gone, Seen(1, 1), Some("a")), Look(10, Gone, Seen(1, 1), Some("a")),
                  Look(11, Seen(2, 2), Seen(1, 1), Some("b"))];
    var s := State(map[], map[], 0, Counts(0, 0, 0, 0, 0, 0));
    var one := Handle(10, s, "x", looks[0]);
    assert one.cursors["x"] == Cursor(PendingStability, Some(1), Some(1), 0, None, None);
    var two := Handle(10, one, "x", looks[1]);
    assert two.cursors["x"] == Cursor(Ingested, Some(1), Some(1), 0, Some("a"), Some(0));
    assert TrackedAt(10, s, "x", looks, 1) == one;
    assert TrackedAt(10, s, "x", looks, 2) == two;
    var asked := AskedUntil(10, s, "x", looks, 3);
    AskedAt(10, s, "x", looks, 3, 2);
    assert asked[2][0] == Seen(2, 2);
  }
}
