/** What the domain makes of a snapshot row the database accepted. */
module AcceptedRows {
  import opened Options
  import opened JsonText
  import opened CanonicalJson
  import opened DatabaseJson
  import Snapshots
  import Whitespace

  /** A required value is a text of whitespace, though not of spaces only. */
  predicate BlankThere(es: Entries, key: string) {
    match Lookup(es, StrKey(key))
    case Some(Str(s)) => Whitespace.IsBlankText(s)
    case _ => false
  }

  lemma RequiredStays(payload: Value, i: nat)
    requires payload.Dict? && Normal(payload) && ProperDicts(payload) && i < |Snapshots.REQUIRED_KEYS|
    requires RequiredNonempty(payload.entries, Snapshots.REQUIRED_KEYS[i])
    ensures var tree, key := Canon(payload), StrKey(Snapshots.REQUIRED_KEYS[i]);
      && tree.Dict? && HasKey(tree.entries, key) && Lookup(tree.entries, key).Some?
      && (Snapshots.IsEmptyValue(Lookup(tree.entries, key).value) <==> BlankThere(payload.entries, Snapshots.REQUIRED_KEYS[i]))
  {
    var key := StrKey(Snapshots.REQUIRED_KEYS[i]);
    Snapshots.NormaliseFixesNormal(payload);
    Snapshots.TreeLookup(payload, key);
    Snapshots.LookupHasKey(Canon(payload).entries, key);
    var v := Lookup(payload.entries, key).value;
    NormalAt(payload.entries, key);
    Snapshots.NormaliseFixesNormal(v);
    if v.Dict? || v.List? {
      Snapshots.CanonKeepsPresence(v);
    }
  }

  lemma {:induction false} NormalAt(es: Entries, key: Key)
    requires EntriesNormal(es) && Lookup(es, key).Some?
    ensures Normal(Lookup(es, key).value)
  {
    if es.key != key {
      NormalAt(es.rest, key);
    }
  }

  lemma OverallStays(payload: Value)
    requires Normal(payload) && ProperDicts(payload)
    requires OverallOf(payload).Some? && Snapshots.IsCandidateDecision(OverallOf(payload).value)
    ensures OverallOf(Canon(payload)) == OverallOf(payload)
  {
    Snapshots.NormaliseFixesNormal(payload);
    Snapshots.TreeLookup(payload, StrKey("overall_decision"));
    Snapshots.NormaliseFixesNormal(OverallOf(payload).value);
  }

  lemma FreezesIff(payload: Value, digest: string -> string)
    requires payload.Dict? && Normal(payload) && ProperDicts(payload)
    requires forall i :: 0 <= i < |Snapshots.REQUIRED_KEYS| ==> RequiredNonempty(payload.entries, Snapshots.REQUIRED_KEYS[i])
    requires OverallOf(payload).Some? && Snapshots.IsCandidateDecision(OverallOf(payload).value)
    ensures Snapshots.FreezeForApproval(Canon(payload), digest).Ok? <==>
              forall i :: 0 <= i < |Snapshots.REQUIRED_KEYS| ==> !BlankThere(payload.entries, Snapshots.REQUIRED_KEYS[i])
  {
    hide Canon, Normal, ProperDicts, RequiredNonempty, BlankThere, Snapshots.IsEmptyValue, Snapshots.REQUIRED_KEYS;
    var tree := Canon(payload);
    OverallStays(payload);
    TreeFreezes(payload, digest);
    forall i: nat | i < |Snapshots.REQUIRED_KEYS|
      ensures HasKey(tree.entries, StrKey(Snapshots.REQUIRED_KEYS[i]))
      ensures var found := Lookup(tree.entries, StrKey(Snapshots.REQUIRED_KEYS[i]));
        found.Some? && (Snapshots.IsEmptyValue(found.value) <==> BlankThere(payload.entries, Snapshots.REQUIRED_KEYS[i]))
    {
      RequiredStays(payload, i);
    }
  }

  lemma TreeFreezes(payload: Value, digest: string -> string)
    requires payload.Dict? && Normal(payload) && ProperDicts(payload)
    ensures var tree := Canon(payload);
      && tree.Dict? && Normal(tree) && Snapshots.CanonicalText(payload) == Some(Render(tree))
      && Load(Render(tree)) == Some(tree) && Snapshots.CanonicalText(tree) == Some(Render(tree))
      && Snapshots.Freeze(tree, digest) == Snapshots.Ok(Snapshots.Snapshot(Render(tree), digest(Render(tree))))
  {
    Snapshots.NormaliseFixesNormal(payload);
    Snapshots.CanonIsNormal(payload);
    Snapshots.TextRoundTrips(payload);
  }

  /**
   A row the database accepted, under a collation that orders its keys as code points do: read back in canonical form,
   the domain verifies it exactly when no required text in it is blank. Blanks other than spaces pass the database.
   */
  lemma AcceptedRowVerifiesIff(setup: Setup, row: Row)
    requires IsOrder(setup.before) && RowAccepted(setup, row) && Agrees(row.payload, setup.before)
    ensures Normal(Canon(row.payload)) && row.payload.Dict?
    ensures Snapshots.Verify(Snapshots.Snapshot(Render(Canon(row.payload)), row.hash), setup.digest) == Snapshots.Ok(())
      <==> forall i :: 0 <= i < |Snapshots.REQUIRED_KEYS| ==> !BlankThere(row.payload.entries, Snapshots.REQUIRED_KEYS[i])
  {
    hide Canon, Agrees, RequiredNonempty, BlankThere, Snapshots.REQUIRED_KEYS, Snapshots.CanonicalText, Load, Render, StoredText;
    TreeFreezes(row.payload, setup.digest);
    StoredTextIff(row.payload, setup.before);
    FreezesIff(row.payload, setup.digest);
  }
}
