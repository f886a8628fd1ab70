/** What can be read out of a frozen decision snapshot: the decision, its documents, and the rules it was made under. */
module FrozenDecision {
  import opened Options
  import opened JsonText
  import opened CanonicalJson
  import opened SnapshotPayload
  import Snapshots

  /** The value under a key. */
  function At(v: Option<Value>, key: string): Option<Value> {
    if v.Some? && v.value.Dict? then Lookup(v.value.entries, StrKey(key)) else None
  }

  /** The element of a list at a place. */
  function Nth(v: Option<Value>, i: nat): Option<Value> {
    if v.Some? && v.value.List? then ItemAt(v.value.items, i) else None
  }

  function ItemAt(items: Values, i: nat): Option<Value> {
    if items.Nil? then None else if i == 0 then Some(items.head) else ItemAt(items.tail, i - 1)
  }

  /** The value as it is read back from the text. */
  function Form(v: Value): Option<Value> {
    match Snapshots.Normalise(v)
    case None => None
    case Some(n) => Some(Canon(n))
  }

  // ----- reading one level -------------------------------------------------------------

  lemma ObjectTells(l: nat, values: seq<Value>, j: nat)
    requires l < |KEY_LISTS| && |values| == |KEY_LISTS[l]| && j < |values|
    requires ProperDicts(Object(KEY_LISTS[l], values)) && Form(Object(KEY_LISTS[l], values)).Some?
    ensures Form(values[j]).Some? && At(Form(Object(KEY_LISTS[l], values)), KEY_LISTS[l][j]) == Form(values[j])
  {
    hide Snapshots.Normalise, Canon, ProperDicts;
    ListedOnce(l);
    BindLookup(KEY_LISTS[l], values, j);
    Snapshots.TreeLookup(Object(KEY_LISTS[l], values), StrKey(KEY_LISTS[l][j]));
  }

  lemma {:induction false} ItemsTell(values: seq<Value>, i: nat)
    requires i < |values| && Snapshots.NormaliseAll(Items(values)).Some?
    ensures Form(values[i]).Some? && ItemAt(CanonAll(Snapshots.NormaliseAll(Items(values)).value), i) == Form(values[i])
    decreases i
  {
    hide Snapshots.Normalise, Canon;
    if i > 0 {
      ItemsTell(values[1..], i - 1);
    }
  }

  lemma ListTells(values: seq<Value>, i: nat)
    requires i < |values| && Form(List(Items(values))).Some?
    ensures Form(values[i]).Some? && Nth(Form(List(Items(values))), i) == Form(values[i])
  {
    ItemsTell(values, i);
  }

  lemma {:induction false} TextItemsStay(texts: seq<string>)
    ensures var items := Items(Texts(texts)); Snapshots.NormaliseAll(items) == Some(items) && CanonAll(items) == items
  {
    if texts != [] {
      TextItemsStay(texts[1..]);
      assert Texts(texts)[1..] == Texts(texts[1..]);
    }
  }

  lemma TextsStay(texts: seq<string>)
    ensures Form(TextList(texts)) == Some(TextList(texts))
  {
    hide Items, Texts;
    TextItemsStay(texts);
  }

  lemma ProperParts(l: nat, values: seq<Value>, j: nat)
    requires l < |KEY_LISTS| && |values| == |KEY_LISTS[l]| && j < |values| && ProperDicts(Object(KEY_LISTS[l], values))
    ensures ProperDicts(values[j])
  {
    ListedOnce(l);
    BindLookup(KEY_LISTS[l], values, j);
    Snapshots.LookupHasKey(Bind(KEY_LISTS[l], values), StrKey(KEY_LISTS[l][j]));
    Snapshots.EntryIsProper(Bind(KEY_LISTS[l], values), StrKey(KEY_LISTS[l][j]));
  }

  lemma {:induction false} ProperItems(values: seq<Value>, i: nat)
    requires i < |values| && AllProper(Items(values))
    ensures ProperDicts(values[i])
    decreases i
  {
    if i > 0 {
      ProperItems(values[1..], i - 1);
    }
  }

  // ----- reading a decision snapshot ---------------------------------------------------

  /** What decoding the frozen text gives. */
  function Decoded(f: Facts, candidate: string, final: string, reason: string, documents: seq<string>): Option<Value>
    requires FactsOk(f)
  {
    match Snapshots.CanonicalText(Payload(f, candidate, final, reason, documents))
    case None => None
    case Some(text) => Load(text)
  }

  lemma DecodedIsForm(f: Facts, candidate: string, final: string, reason: string, documents: seq<string>)
    requires FactsOk(f) && Decoded(f, candidate, final, reason, documents).Some?
    ensures var payload := Payload(f, candidate, final, reason, documents);
      ProperDicts(payload) && Decoded(f, candidate, final, reason, documents) == Form(payload)
  {
    hide FactsOk, Parts, Object, Load;
    PayloadIsGood(f, candidate, final, reason, documents);
    Snapshots.TextRoundTrips(Payload(f, candidate, final, reason, documents));
  }

  lemma PartTells(f: Facts, candidate: string, final: string, reason: string, documents: seq<string>, j: nat)
    requires FactsOk(f) && Decoded(f, candidate, final, reason, documents).Some? && j < |SNAPSHOT_KEYS|
    ensures var part := Parts(f, candidate, final, reason, documents)[j];
      ProperDicts(part) && Form(part).Some?
      && At(Decoded(f, candidate, final, reason, documents), SNAPSHOT_KEYS[j]) == Form(part)
  {
    hide FactsOk, Parts, Decoded, Form, At;
    DecodedIsForm(f, candidate, final, reason, documents);
    assert KEY_LISTS[0] == SNAPSHOT_KEYS;
    ObjectTells(0, Parts(f, candidate, final, reason, documents), j);
    ProperParts(0, Parts(f, candidate, final, reason, documents), j);
  }

  /** The frozen text tells the candidate decision, the final one, the reason, the documents and the approver's role. */
  lemma DecisionIsTold(f: Facts, candidate: string, final: string, reason: string, documents: seq<string>)
    requires FactsOk(f) && Decoded(f, candidate, final, reason, documents).Some?
    ensures var told := Decoded(f, candidate, final, reason, documents);
      && At(told, "overall_decision") == Some(Str(candidate))
      && At(At(told, "decision_reasons"), "candidate") == Some(Str(candidate))
      && At(At(told, "decision_reasons"), "final") == Some(Str(final))
      && At(At(told, "decision_reasons"), "reason") == Some(Str(reason))
      && At(told, "document_hashes") == Some(TextList(documents))
      && At(At(told, "approver"), "role") == Some(Str("LEAD"))
  {
    hide FactsOk, Decoded, At, Object, TextList, OrStatus, Items, Mappings, Suppliers, Internals, RuleObjects, DecisionObjects,
      ProperDicts, Form;
    PartTells(f, candidate, final, reason, documents, 11);
    PartTells(f, candidate, final, reason, documents, 3);
    PartTells(f, candidate, final, reason, documents, 4);
    PartTells(f, candidate, final, reason, documents, 1);
    TextsStay(documents);
    TextForm(candidate);
    TextForm(final);
    TextForm(reason);
    TextForm("LEAD");
    assert KEY_LISTS[12] == REASON_KEYS && KEY_LISTS[9] == APPROVER_KEYS;
    ObjectTells(12, Reasons(candidate, final, reason), 0);
    ObjectTells(12, Reasons(candidate, final, reason), 1);
    ObjectTells(12, Reasons(candidate, final, reason), 3);
    ObjectTells(9, [f.actor, Str("LEAD")], 1);
  }

  lemma TextForm(s: string)
    ensures Form(Str(s)) == Some(Str(s))
  {
  }

  /** Under the rule's own key stands the rule's own value: a lower bound as lower bound, an upper as upper. */
  lemma RulesAreTold(f: Facts, candidate: string, final: string, reason: string, documents: seq<string>, i: nat, j: nat)
    requires FactsOk(f) && Decoded(f, candidate, final, reason, documents).Some? && i < |f.rules| && 0 < j < |RULE_KEYS|
    ensures Fills(RULE_KEYS[1..], f.rules[i].rest)
    ensures var rule := Nth(At(Decoded(f, candidate, final, reason, documents), "spec_items"), i);
      At(rule, RULE_KEYS[j]) == Snapshots.Normalise(f.rules[i].rest[j - 1]) && At(rule, RULE_KEYS[j]).Some?
  {
    hide Decoded, At, Nth, Parts, Object, TextList, Items, Form, ProperDicts, Snapshots.Normalise;
    PartTells(f, candidate, final, reason, documents, 16);
    RulePart(f, candidate, final, reason, documents);
    ListTells(RuleObjects(f), i);
    RuleTells(f, i, j);
  }

  lemma RulePart(f: Facts, candidate: string, final: string, reason: string, documents: seq<string>)
    requires FactsOk(f)
    ensures Parts(f, candidate, final, reason, documents)[16] == List(Items(RuleObjects(f)))
    ensures SNAPSHOT_KEYS[16] == "spec_items"
  {
  }

  lemma RuleTells(f: Facts, i: nat, j: nat)
    requires FactsOk(f) && i < |f.rules| && 0 < j < |RULE_KEYS| && Form(RuleObjects(f)[i]).Some?
    ensures Fills(RULE_KEYS[1..], f.rules[i].rest)
    ensures At(Form(RuleObjects(f)[i]), RULE_KEYS[j]) == Snapshots.Normalise(f.rules[i].rest[j - 1])
    ensures At(Form(RuleObjects(f)[i]), RULE_KEYS[j]).Some?
  {
    hide At, Object, TextList, ProperDicts, Form, Snapshots.Normalise;
    var r := f.rules[i];
    var values := [if r.allowed.Some? then TextList(r.allowed.value) else Null] + r.rest;
    RuleIsGood(r);
    assert KEY_LISTS[2] == RULE_KEYS;
    ObjectTells(2, values, j);
    LeafForm(r.rest[j - 1]);
  }

  lemma LeafForm(v: Value)
    requires IsLeaf(v)
    ensures Form(v) == Snapshots.Normalise(v)
  {
  }
}
