/** Two payloads freeze to one text exactly when they are alike: the text loses nothing that a reader could want. */
module FrozenPayloads {
  import opened Options
  import opened JsonText
  import opened CanonicalJson
  import opened Snapshots
  import opened FrozenLeaves
  import Whitespace

  /** Alike up to the order of dictionary keys, lists for tuples, and leaves that denote the same. */
  ghost predicate Alike(a: Value, b: Value) {
    match (a, b)
    case (Dict(x), Dict(y)) => EntriesAlike(x, y) && forall key :: HasKey(y, key) ==> HasKey(x, key)
    case (List(x), List(y)) => AllAlike(x, y)
    case (List(x), Tuple(y)) => AllAlike(x, y)
    case (Tuple(x), List(y)) => AllAlike(x, y)
    case (Tuple(x), Tuple(y)) => AllAlike(x, y)
    case _ => IsLeaf(a) && IsLeaf(b) && LeavesAlike(a, b)
  }

  ghost predicate AllAlike(x: Values, y: Values) {
    if x.Nil? then y.Nil? else y.Cons? && Alike(x.head, y.head) && AllAlike(x.tail, y.tail)
  }

  ghost predicate EntriesAlike(x: Entries, y: Entries) {
    x.Entry? ==>
      var found := Lookup(y, x.key);
      found.Some? && Alike(x.value, found.value) && EntriesAlike(x.rest, y)
  }

  /** The two have normal forms, and one canonical form. */
  predicate OneForm(a: Value, b: Value) {
    Normalise(a).Some? && Normalise(b).Some? && Canon(Normalise(a).value) == Canon(Normalise(b).value)
  }

  lemma LeafForm(v: Value)
    requires Normalise(v).Some?
    ensures IsLeaf(v) <==> IsLeaf(Canon(Normalise(v).value))
    ensures IsLeaf(v) ==> Canon(Normalise(v).value) == Normalise(v).value
    ensures v.Dict? <==> Canon(Normalise(v).value).Dict?
  {
  }

  lemma {:induction false} AlikeIff(a: Value, b: Value)
    requires ProperDicts(a) && ProperDicts(b) && Normalise(a).Some? && Normalise(b).Some?
    ensures OneForm(a, b) <==> Alike(a, b)
    decreases a, 1
  {
    hide LeavesAlike, EntriesAlike, AllAlike, FixedText, DayText, InstantText, HasKey;
    LeafForm(a);
    LeafForm(b);
    if IsLeaf(a) && IsLeaf(b) {
      LeavesAgreeIff(a, b);
    } else if a.Dict? && b.Dict? {
      DictsAlikeIff(a.entries, b.entries);
    } else if !IsLeaf(a) && !IsLeaf(b) && !a.Dict? && !b.Dict? {
      AllAlikeIff(a.items, b.items);
    }
  }

  lemma {:induction false} AllAlikeIff(x: Values, y: Values)
    requires AllProper(x) && AllProper(y) && NormaliseAll(x).Some? && NormaliseAll(y).Some?
    ensures CanonAll(NormaliseAll(x).value) == CanonAll(NormaliseAll(y).value) <==> AllAlike(x, y)
    decreases x, 0
  {
    if x.Cons? && y.Cons? {
      AlikeIff(x.head, y.head);
      AllAlikeIff(x.tail, y.tail);
    }
  }

  /** Both dictionaries have the key, with values of one form. */
  predicate OneFormAt(x: Entries, y: Entries, key: Key) {
    Lookup(x, key).Some? && Lookup(y, key).Some? && OneForm(Lookup(x, key).value, Lookup(y, key).value)
  }

  lemma {:induction false} EntriesAlikeIff(x: Entries, y: Entries)
    requires DistinctKeys(x) && EntriesProper(x) && NormaliseEntries(x).Some?
    requires EntriesProper(y) && NormaliseEntries(y).Some?
    ensures EntriesAlike(x, y) <==> forall key :: HasKey(x, key) ==> OneFormAt(x, y, key)
    decreases x, 0
  {
    if x.Entry? {
      EntriesAlikeIff(x.rest, y);
      FirstIsBound(x);
      var found := Lookup(y, x.key);
      if found.Some? {
        LookupHasKey(y, x.key);
        EntryIsProper(y, x.key);
        NormaliseEntriesLookup(y, x.key);
        AlikeIff(x.value, found.value);
      }
      forall key
        ensures HasKey(x, key) <==> key == x.key || HasKey(x.rest, key)
        ensures OneFormAt(x, y, key) <==> if key == x.key then found.Some? && OneForm(x.value, found.value)
                                          else OneFormAt(x.rest, y, key)
      {
      }
      if forall key :: HasKey(x, key) ==> OneFormAt(x, y, key) {
        assert HasKey(x, x.key) && OneFormAt(x, y, x.key);
        forall key | HasKey(x.rest, key) ensures OneFormAt(x.rest, y, key) {
          assert HasKey(x, key) && key != x.key;
        }
      }
    }
  }

  lemma DictsHaveOneForm(x: Entries, y: Entries)
    requires ProperDicts(Dict(x)) && ProperDicts(Dict(y)) && Normalise(Dict(x)).Some? && Normalise(Dict(y)).Some?
    ensures OneForm(Dict(x), Dict(y)) <==> forall key :: AgreeAt(x, y, key)
  {
    if OneForm(Dict(x), Dict(y)) {
      forall key ensures AgreeAt(x, y, key) {
        TreeLookup(Dict(x), key);
        TreeLookup(Dict(y), key);
      }
    }
    if forall key :: AgreeAt(x, y, key) {
      AgreeingDicts(x, y);
    }
  }

  lemma {:induction false} DictsAlikeIff(x: Entries, y: Entries)
    requires ProperDicts(Dict(x)) && ProperDicts(Dict(y)) && Normalise(Dict(x)).Some? && Normalise(Dict(y)).Some?
    ensures OneForm(Dict(x), Dict(y)) <==> Alike(Dict(x), Dict(y))
    decreases x, 1
  {
    hide Normalise, Canon, OneForm, EntriesAlike;
    DictsHaveOneForm(x, y);
    DictParts(x);
    DictParts(y);
    EntriesAlikeIff(x, y);
    forall key
      ensures AgreeAt(x, y, key) <==> (HasKey(x, key) ==> OneFormAt(x, y, key)) && (HasKey(y, key) ==> HasKey(x, key))
    {
      LookupHasKey(x, key);
      LookupHasKey(y, key);
      if Lookup(x, key).Some? && Lookup(y, key).Some? {
        AgreeingIsOneForm(x, y, key);
      }
    }
  }

  lemma DictParts(x: Entries)
    requires ProperDicts(Dict(x)) && Normalise(Dict(x)).Some?
    ensures DistinctKeys(x) && EntriesProper(x) && NormaliseEntries(x).Some?
  {
  }

  lemma AgreeingIsOneForm(x: Entries, y: Entries, key: Key)
    requires NormaliseEntries(x).Some? && NormaliseEntries(y).Some?
    requires Lookup(x, key).Some? && Lookup(y, key).Some?
    ensures AgreeAt(x, y, key) <==> OneFormAt(x, y, key)
  {
    NormaliseEntriesLookup(x, key);
    NormaliseEntriesLookup(y, key);
  }

  /** Two payloads have one canonical text exactly when they are alike. */
  lemma TextsAgreeIff(a: Value, b: Value)
    requires ProperDicts(a) && ProperDicts(b) && CanonicalText(a).Some? && CanonicalText(b).Some?
    ensures CanonicalText(a) == CanonicalText(b) <==> Alike(a, b)
  {
    AlikeIff(a, b);
    TextRoundTrips(a);
    TextRoundTrips(b);
  }

  // ----- verification ------------------------------------------------------------------

  /** The payload names a candidate decision, and every required key has a value that is not empty. */
  predicate Complete(payload: Value) {
    && payload.Dict?
    && (forall i :: 0 <= i < |REQUIRED_KEYS| ==> ValueAt(payload.entries, REQUIRED_KEYS[i]).Some?)
    && (ValueAt(payload.entries, "overall_decision") == Some(Str("ACCEPTED"))
        || ValueAt(payload.entries, "overall_decision") == Some(Str("REJECTED"))
        || ValueAt(payload.entries, "overall_decision") == Some(Str("ON_HOLD")))
  }

  /** The value under a key unless it is empty. */
  function ValueAt(es: Entries, key: string): Option<Value> {
    match Lookup(es, StrKey(key))
    case None => None
    case Some(v) => if IsEmptyValue(v) then None else Some(v)
  }

  lemma FrozenIff(payload: Value, digest: string -> string)
    ensures FreezeForApproval(payload, digest).Ok? <==> Complete(payload) && CanonicalText(payload).Some?
    ensures FreezeForApproval(payload, digest) != Failed(HashMismatch)
    ensures FreezeForApproval(payload, digest).Ok? ==>
      var text := CanonicalText(payload).value; FreezeForApproval(payload, digest).value == Snapshot(text, digest(text))
  {
    hide CanonicalText, IsEmptyValue, REQUIRED_KEYS;
    if payload.Dict? {
      KeysAndValues(payload.entries);
      DecisionIsThere(payload.entries);
    }
  }

  lemma KeysAndValues(es: Entries)
    ensures HasRequiredKeys(es) && RequiredValuesPresent(es) <==>
            forall i :: 0 <= i < |REQUIRED_KEYS| ==> ValueAt(es, REQUIRED_KEYS[i]).Some?
  {
    hide IsEmptyValue, REQUIRED_KEYS;
    forall i | 0 <= i < |REQUIRED_KEYS| {
      LookupHasKey(es, StrKey(REQUIRED_KEYS[i]));
    }
    if forall i :: 0 <= i < |REQUIRED_KEYS| ==> ValueAt(es, REQUIRED_KEYS[i]).Some? {
      forall i | 0 <= i < |REQUIRED_KEYS|
        ensures HasKey(es, StrKey(REQUIRED_KEYS[i]))
        ensures var found := Lookup(es, StrKey(REQUIRED_KEYS[i])); found.Some? && !IsEmptyValue(found.value)
      {
        assert ValueAt(es, REQUIRED_KEYS[i]).Some?;
        LookupHasKey(es, StrKey(REQUIRED_KEYS[i]));
      }
    }
  }

  lemma DecisionIsThere(es: Entries)
    ensures var found := Lookup(es, StrKey("overall_decision"));
      found.Some? && IsCandidateDecision(found.value) <==>
        || ValueAt(es, "overall_decision") == Some(Str("ACCEPTED"))
        || ValueAt(es, "overall_decision") == Some(Str("REJECTED"))
        || ValueAt(es, "overall_decision") == Some(Str("ON_HOLD"))
  {
    assert !IsEmptyValue(Str("ACCEPTED")) by {
      DigitOrLetter("ACCEPTED");
    }
    assert !IsEmptyValue(Str("REJECTED")) by {
      DigitOrLetter("REJECTED");
    }
    assert !IsEmptyValue(Str("ON_HOLD")) by {
      DigitOrLetter("ON_HOLD");
    }
  }

  lemma DigitOrLetter(s: string)
    requires s != [] && 'A' <= s[0] <= 'Z'
    ensures !IsEmptyValue(Str(s))
  {
    assert !Whitespace.IsSpace(s[0]);
  }

  /** A snapshot verifies exactly when its text decodes to a complete payload whose own text has the stored hash. */
  lemma VerifiedIff(snapshot: Snapshot, digest: string -> string)
    ensures Verify(snapshot, digest) == Ok(()) <==>
      && Load(snapshot.text).Some? && Complete(Load(snapshot.text).value)
      && CanonicalText(Load(snapshot.text).value).Some?
      && snapshot.hash == digest(CanonicalText(Load(snapshot.text).value).value)
    ensures Verify(snapshot, digest) == Failed(HashMismatch) <==>
      && Load(snapshot.text).Some? && CanonicalText(Load(snapshot.text).value).Some?
      && snapshot.hash != digest(CanonicalText(Load(snapshot.text).value).value)
  {
    hide CanonicalText, Complete, FreezeForApproval, Load;
    if Load(snapshot.text).Some? {
      FrozenIff(Load(snapshot.text).value, digest);
    }
  }

  /**
   Under the hash of a frozen payload nothing else verifies: unless the hash function gives two texts one hash, every
   text that does decodes to a payload alike to the frozen one.
   */
  lemma NothingElseVerifies(payload: Value, text: string, digest: string -> string)
    requires ProperDicts(payload) && FreezeForApproval(payload, digest).Ok?
    requires Verify(Snapshot(text, FreezeForApproval(payload, digest).value.hash), digest) == Ok(())
    ensures Load(text).Some? && CanonicalText(Load(text).value).Some? && CanonicalText(payload).Some?
    ensures var other := CanonicalText(Load(text).value).value;
      && digest(other) == digest(CanonicalText(payload).value)
      && (other == CanonicalText(payload).value ==> Alike(Load(text).value, payload))
  {
    hide CanonicalText, Complete, FreezeForApproval, Load, Verify, Alike;
    FrozenIff(payload, digest);
    VerifiedIff(Snapshot(text, FreezeForApproval(payload, digest).value.hash), digest);
    LoadedIsProper(text);
    if CanonicalText(Load(text).value) == CanonicalText(payload) {
      TextsAgreeIff(Load(text).value, payload);
    }
  }
}
