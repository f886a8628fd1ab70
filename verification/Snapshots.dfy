/** Decision snapshots: normalising a payload, freezing it as canonical text, and verifying it. */
module Snapshots {
  import opened Options
  import opened JsonText
  import opened CanonicalJson
  import opened TextOrder
  import opened Whitespace

  // ----- formatting --------------------------------------------------------------------

  function Zeros(n: nat): string {
    seq(n, _ => '0')
  }

  /** The digits before the point, when it stands after the first `point` of them. */
  function WholePart(digits: string, point: int): string {
    if point <= 0 then "0" else if point > |digits| then digits + Zeros(point - |digits|) else digits[..point]
  }

  function FractionPart(digits: string, point: int): string {
    if point < 0 then Zeros(-point) + digits else if point >= |digits| then "" else digits[point..]
  }

  function Pointed(negative: bool, digits: string, point: int): string {
    var whole, part := WholePart(digits, point), FractionPart(digits, point);
    var body := whole + if part == [] then [] else ['.'] + part;
    if negative then ['-'] + body else body
  }

  /** Fixed-point text of a finite decimal; a zero with a positive exponent is written without it. */
  function FixedText(negative: bool, coefficient: nat, exponent: int): string {
    var digits := NatText(coefficient);
    Pointed(negative, digits, if coefficient == 0 && exponent > 0 then |digits| else |digits| + exponent)
  }

  lemma PointedHasDigit(negative: bool, digits: string, point: int) returns (i: nat)
    requires digits != [] && AllDigits(digits)
    ensures var s := Pointed(negative, digits, point); i < |s| && IsDigit(s[i])
  {
    i := if negative then 1 else 0;
    assert IsDigit(WholePart(digits, point)[0]);
    assert Pointed(negative, digits, point)[i] == WholePart(digits, point)[0];
  }

  function Padded(n: nat, width: nat): (s: string)
    ensures s != [] && AllDigits(s)
  {
    var digits := NatText(n);
    Zeros(if |digits| < width then width - |digits| else 0) + digits
  }

  function DayText(year: nat, month: nat, day: nat): (s: string)
    ensures s != [] && IsDigit(s[0])
  {
    Padded(year, 4) + "-" + Padded(month, 2) + "-" + Padded(day, 2)
  }

  /** ISO text of an instant in UTC, with the zone written as Z. */
  function InstantText(t: Instant): (s: string)
    ensures s != [] && IsDigit(s[0])
  {
    DayText(t.year, t.month, t.day) + "T" + Padded(t.hour, 2) + ":" + Padded(t.minute, 2) + ":" + Padded(t.second, 2)
    + (if t.micro == 0 then "" else "." + Padded(t.micro, 6)) + "Z"
  }

  // ----- normalising -------------------------------------------------------------------

  /** The value in JSON terms; nothing where the snapshot contract refuses it. */
  function Normalise(v: Value): Option<Value> {
    match v
    case Null => Some(v)
    case Bool(_) => Some(v)
    case Int(_) => Some(v)
    case Str(_) => Some(v)
    case Float => None
    case Dec(NonFinite) => None
    case Dec(Finite(negative, coefficient, exponent)) => Some(Str(FixedText(negative, coefficient, exponent)))
    case Timestamp(t) => if t.aware then Some(Str(InstantText(t))) else None
    case Date(d) => Some(Str(DayText(d.year, d.month, d.day)))
    case Dict(entries) =>
      if !StringKeys(entries) then None
      else (match NormaliseEntries(entries) case None => None case Some(es) => Some(Dict(es)))
    case List(items) => (match NormaliseAll(items) case None => None case Some(xs) => Some(List(xs)))
    case Tuple(items) => (match NormaliseAll(items) case None => None case Some(xs) => Some(List(xs)))
    case Other => None
  }

  function NormaliseAll(items: Values): Option<Values> {
    if items.Nil? then Some(Nil)
    else
      match (Normalise(items.head), NormaliseAll(items.tail))
      case (Some(x), Some(xs)) => Some(Cons(x, xs))
      case _ => None
  }

  function NormaliseEntries(es: Entries): Option<Entries> {
    if es.Empty? then Some(Empty)
    else
      match (Normalise(es.value), NormaliseEntries(es.rest))
      case (Some(x), Some(xs)) => Some(Entry(es.key, x, xs))
      case _ => None
  }

  /** The canonical JSON text of a payload; only mappings have one. */
  function CanonicalText(payload: Value): Option<string> {
    if !payload.Dict? then None
    else
      match Normalise(payload)
      case None => None
      case Some(n) => NormalIsNormal(payload); CanonIsNormal(n); Some(Render(Canon(n)))
  }

  // ----- snapshots ---------------------------------------------------------------------

  const REQUIRED_KEYS: seq<string> := [
    "spec_version", "spec_items", "mapping", "supplier_results", "internal_results", "unit_conversions",
    "item_decisions", "source_policy", "missing_policy", "overall_decision", "document_hashes",
    "engine_version", "policy_version", "rounding_version", "conversion_version", "approver",
    "sample_policy", "lot_reference", "allocation_reference", "decision_reasons"]

  datatype Snapshot = Snapshot(text: string, hash: string)

  datatype Error = NotCanonical | MissingKeys | EmptyValues | BadDecision | HashMismatch

  datatype Result<+T> = Ok(value: T) | Failed(error: Error)

  predicate IsEmptyValue(v: Value) {
    match v
    case Null => true
    case Str(s) => IsBlankText(s)
    case Dict(entries) => entries.Empty?
    case List(items) => items.Nil?
    case Tuple(items) => items.Nil?
    case _ => false
  }

  predicate IsCandidateDecision(v: Value) {
    v == Str("ACCEPTED") || v == Str("REJECTED") || v == Str("ON_HOLD")
  }

  predicate HasRequiredKeys(es: Entries) {
    forall i :: 0 <= i < |REQUIRED_KEYS| ==> HasKey(es, StrKey(REQUIRED_KEYS[i]))
  }

  predicate RequiredValuesPresent(es: Entries) {
    forall i :: 0 <= i < |REQUIRED_KEYS| ==>
      var found := Lookup(es, StrKey(REQUIRED_KEYS[i])); found.Some? && !IsEmptyValue(found.value)
  }

  function Freeze(payload: Value, digest: string -> string): Result<Snapshot> {
    match CanonicalText(payload)
    case None => Failed(NotCanonical)
    case Some(text) => Ok(Snapshot(text, digest(text)))
  }

  function FreezeForApproval(payload: Value, digest: string -> string): Result<Snapshot> {
    if !payload.Dict? then Failed(NotCanonical)
    else if !HasRequiredKeys(payload.entries) then Failed(MissingKeys)
    else if !RequiredValuesPresent(payload.entries) then Failed(EmptyValues)
    else
      var decision := Lookup(payload.entries, StrKey("overall_decision"));
      if decision.None? || !IsCandidateDecision(decision.value) then Failed(BadDecision)
      else Freeze(payload, digest)
  }

  /** Decodes the stored text, recomputes its hash, and freezes the decoded payload again. */
  function Verify(snapshot: Snapshot, digest: string -> string): Result<()> {
    match Load(snapshot.text)
    case None => Failed(NotCanonical)
    case Some(payload) =>
      match CanonicalText(payload)
      case None => Failed(NotCanonical)
      case Some(text) =>
        if snapshot.hash != digest(text) then Failed(HashMismatch)
        else
          match FreezeForApproval(payload, digest)
          case Failed(error) => Failed(error)
          case Ok(again) => if again.hash != snapshot.hash then Failed(NotCanonical) else Ok(())
  }

  // ----- normalising is sound and idempotent -------------------------------------------

  lemma {:induction false} NormalIsNormal(v: Value)
    ensures Normalise(v).Some? ==> Normal(Normalise(v).value)
    decreases v, 1
  {
    match v
    case Dict(entries) => NormalEntriesAreNormal(entries);
    case List(items) => NormalAllAreNormal(items);
    case Tuple(items) => NormalAllAreNormal(items);
    case _ =>
  }

  lemma {:induction false} NormalAllAreNormal(items: Values)
    ensures NormaliseAll(items).Some? ==> AllNormal(NormaliseAll(items).value)
    decreases items, 0
  {
    if items.Cons? {
      NormalIsNormal(items.head);
      NormalAllAreNormal(items.tail);
    }
  }

  lemma {:induction false} NormalEntriesAreNormal(es: Entries)
    ensures StringKeys(es) && NormaliseEntries(es).Some? ==> EntriesNormal(NormaliseEntries(es).value)
    decreases es, 0
  {
    if es.Entry? {
      NormalIsNormal(es.value);
      NormalEntriesAreNormal(es.rest);
    }
  }

  lemma {:induction false} CanonIsNormal(v: Value)
    requires Normal(v)
    ensures Normal(Canon(v))
    decreases v, 1
  {
    match v
    case List(items) => CanonAllNormal(items);
    case Dict(entries) =>
      CanonEntriesNormal(entries);
      SortNormal(CanonEntries(entries));
    case _ =>
  }

  lemma {:induction false} CanonAllNormal(items: Values)
    requires AllNormal(items)
    ensures AllNormal(CanonAll(items))
    decreases items, 0
  {
    if items.Cons? {
      CanonIsNormal(items.head);
      CanonAllNormal(items.tail);
    }
  }

  lemma {:induction false} CanonEntriesNormal(es: Entries)
    requires EntriesNormal(es)
    ensures EntriesNormal(CanonEntries(es))
    decreases es, 0
  {
    if es.Entry? {
      CanonIsNormal(es.value);
      CanonEntriesNormal(es.rest);
    }
  }

  lemma {:induction false} InsertNormal(key: Key, value: Value, es: Entries)
    requires key.StrKey? && Normal(value) && EntriesNormal(es)
    ensures EntriesNormal(InsertEntry(key, value, es))
  {
    if es.Entry? {
      InsertNormal(key, value, es.rest);
    }
  }

  lemma {:induction false} SortNormal(es: Entries)
    requires EntriesNormal(es)
    ensures EntriesNormal(SortEntries(es))
  {
    if es.Entry? {
      SortNormal(es.rest);
      InsertNormal(es.key, es.value, SortEntries(es.rest));
    }
  }

  /** A normal value is left as it is. */
  lemma {:induction false} NormaliseFixesNormal(v: Value)
    requires Normal(v)
    ensures Normalise(v) == Some(v)
    decreases v, 1
  {
    match v
    case List(items) => NormaliseFixesAll(items);
    case Dict(entries) => NormaliseFixesEntries(entries);
    case _ =>
  }

  lemma {:induction false} NormaliseFixesAll(items: Values)
    requires AllNormal(items)
    ensures NormaliseAll(items) == Some(items)
    decreases items, 0
  {
    if items.Cons? {
      NormaliseFixesNormal(items.head);
      NormaliseFixesAll(items.tail);
    }
  }

  lemma {:induction false} NormaliseFixesEntries(es: Entries)
    requires EntriesNormal(es)
    ensures NormaliseEntries(es) == Some(es) && StringKeys(es)
    decreases es, 0
  {
    if es.Entry? {
      NormaliseFixesNormal(es.value);
      NormaliseFixesEntries(es.rest);
    }
  }

  /** Normalising twice is normalising once. */
  lemma NormaliseIsIdempotent(v: Value)
    requires Normalise(v).Some?
    ensures Normalise(Normalise(v).value) == Normalise(v)
  {
    NormalIsNormal(v);
    NormaliseFixesNormal(Normalise(v).value);
  }

  lemma {:induction false} NormaliseEntriesLookup(es: Entries, key: Key)
    requires NormaliseEntries(es).Some?
    ensures var n := NormaliseEntries(es).value;
            && (HasKey(n, key) <==> HasKey(es, key))
            && (match Lookup(es, key)
                case None => Lookup(n, key) == None
                case Some(v) => Normalise(v).Some? && Lookup(n, key) == Normalise(v))
  {
    if es.Entry? {
      NormaliseEntriesLookup(es.rest, key);
    }
  }

  lemma {:induction false} NormaliseKeepsProper(v: Value)
    requires ProperDicts(v)
    ensures Normalise(v).Some? ==> ProperDicts(Normalise(v).value)
    decreases v, 1
  {
    match v
    case Dict(entries) => NormaliseKeepsEntriesProper(entries);
    case List(items) => NormaliseKeepsAllProper(items);
    case Tuple(items) => NormaliseKeepsAllProper(items);
    case _ =>
  }

  lemma {:induction false} NormaliseKeepsAllProper(items: Values)
    requires AllProper(items)
    ensures NormaliseAll(items).Some? ==> AllProper(NormaliseAll(items).value)
    decreases items, 0
  {
    if items.Cons? {
      NormaliseKeepsProper(items.head);
      NormaliseKeepsAllProper(items.tail);
    }
  }

  lemma {:induction false} NormaliseKeepsEntriesProper(es: Entries)
    requires DistinctKeys(es) && EntriesProper(es)
    ensures NormaliseEntries(es).Some? ==>
              DistinctKeys(NormaliseEntries(es).value) && EntriesProper(NormaliseEntries(es).value)
    decreases es, 0
  {
    if es.Entry? {
      NormaliseKeepsProper(es.value);
      NormaliseKeepsEntriesProper(es.rest);
      if NormaliseEntries(es).Some? {
        NormaliseEntriesLookup(es.rest, es.key);
      }
    }
  }

  // ----- reading and reprinting --------------------------------------------------------

  /** The tree a frozen payload stands for. */
  lemma FrozenTree(payload: Value) returns (tree: Value)
    requires ProperDicts(payload) && CanonicalText(payload).Some?
    ensures Normalise(payload).Some? && tree == Canon(Normalise(payload).value)
    ensures tree.Dict? && Canonical(tree) && Normal(tree) && CanonicalText(payload) == Some(Render(tree))
  {
    var n := Normalise(payload).value;
    NormalIsNormal(payload);
    NormaliseKeepsProper(payload);
    CanonIsCanonical(n);
    tree := Canon(n);
    CanonFixesCanonical(tree);
  }

  /**
   Reading the canonical text returns the normalised tree with its keys in order, and printing
   that tree again gives the identical text.
   */
  lemma TextRoundTrips(payload: Value)
    requires ProperDicts(payload) && CanonicalText(payload).Some?
    ensures var text := CanonicalText(payload).value;
            && Load(text) == Some(Canon(Normalise(payload).value))
            && CanonicalText(Load(text).value) == Some(text)
  {
    var tree := FrozenTree(payload);
    CanonicalIsProper(tree);
    LoadRendered(tree);
    NormaliseFixesNormal(tree);
    CanonFixesCanonical(tree);
  }

  lemma DigitIsPresent(s: string, i: nat)
    requires i < |s| && IsDigit(s[i])
    ensures !IsEmptyValue(Str(s))
  {
    assert !IsSpace(s[i]);
  }

  lemma CanonKeepsPresence(v: Value)
    requires Normal(v) && !IsEmptyValue(v)
    ensures !IsEmptyValue(Canon(v))
  {
    match v
    case Dict(entries) => assert CanonEntries(entries).Entry? && SortEntries(CanonEntries(entries)).Entry?;
    case List(items) => assert CanonAll(items).Cons?;
    case _ =>
  }

  lemma NormaliseKeepsPresence(v: Value)
    requires Normalise(v).Some? && !IsEmptyValue(v)
    ensures !IsEmptyValue(Normalise(v).value)
  {
    match v
    case Dec(Finite(negative, coefficient, exponent)) =>
      var digits := NatText(coefficient);
      var i := PointedHasDigit(negative, digits,
                               if coefficient == 0 && exponent > 0 then |digits| else |digits| + exponent);
      DigitIsPresent(FixedText(negative, coefficient, exponent), i);
    case Timestamp(t) => DigitIsPresent(InstantText(t), 0);
    case Date(d) => DigitIsPresent(DayText(d.year, d.month, d.day), 0);
    case Dict(entries) => assert entries.Entry?;
    case List(items) => assert items.Cons?;
    case Tuple(items) => assert items.Cons?;
    case _ =>
  }

  lemma TreeLookup(payload: Value, key: Key)
    requires payload.Dict? && ProperDicts(payload) && Normalise(payload).Some?
    ensures var tree := Canon(Normalise(payload).value);
            tree.Dict? && match Lookup(payload.entries, key)
                          case None => Lookup(tree.entries, key) == None
                          case Some(v) => Normalise(v).Some? && Lookup(tree.entries, key) == Some(Canon(Normalise(v).value))
  {
    var n := NormaliseEntries(payload.entries).value;
    NormaliseEntriesLookup(payload.entries, key);
    NormaliseKeepsEntriesProper(payload.entries);
    CanonEntriesKeys(n, key);
    CanonKeepsDistinct(n);
    SortLookup(CanonEntries(n), key);
  }

  lemma {:induction false} LookupHasKey(es: Entries, key: Key)
    ensures Lookup(es, key).Some? <==> HasKey(es, key)
  {
    if es.Entry? {
      LookupHasKey(es.rest, key);
    }
  }

  /** The frozen tree has the required keys and values and the overall decision of the payload. */
  lemma FrozenKeepsRequired(payload: Value, tree: Value)
    requires payload.Dict? && ProperDicts(payload) && Normalise(payload).Some? && tree == Canon(Normalise(payload).value)
    requires RequiredValuesPresent(payload.entries)
    ensures tree.Dict? && HasRequiredKeys(tree.entries) && RequiredValuesPresent(tree.entries)
    ensures var decision := Lookup(payload.entries, StrKey("overall_decision"));
      decision.Some? && decision.value.Str? ==> Lookup(tree.entries, StrKey("overall_decision")) == decision
  {
    TreeLookup(payload, StrKey("overall_decision"));
    forall i | 0 <= i < |REQUIRED_KEYS|
      ensures HasKey(tree.entries, StrKey(REQUIRED_KEYS[i]))
      ensures var found := Lookup(tree.entries, StrKey(REQUIRED_KEYS[i])); found.Some? && !IsEmptyValue(found.value)
    {
      var key := StrKey(REQUIRED_KEYS[i]);
      var v := Lookup(payload.entries, key).value;
      TreeLookup(payload, key);
      LookupHasKey(tree.entries, key);
      NormalIsNormal(v);
      NormaliseKeepsPresence(v);
      CanonKeepsPresence(Normalise(v).value);
    }
  }

  /** Whatever the hash function, every snapshot frozen for approval passes verification. */
  lemma FrozenSnapshotsVerify(payload: Value, digest: string -> string)
    requires ProperDicts(payload) && FreezeForApproval(payload, digest).Ok?
    ensures Verify(FreezeForApproval(payload, digest).value, digest) == Ok(())
  {
    var tree := FrozenTree(payload);
    TextRoundTrips(payload);
    FrozenKeepsRequired(payload, tree);
  }

  // ----- insertion order does not matter -----------------------------------------------

  /** The same value up to the order in which dictionaries were filled, at every level. */
  ghost predicate Reordered(a: Value, b: Value) {
    match (a, b)
    case (Dict(x), Dict(y)) => EntriesFound(x, y) && forall key :: HasKey(y, key) ==> HasKey(x, key)
    case (List(x), List(y)) => AllReordered(x, y)
    case (Tuple(x), Tuple(y)) => AllReordered(x, y)
    case _ => a == b && !a.Dict? && !a.List? && !a.Tuple?
  }

  ghost predicate AllReordered(x: Values, y: Values) {
    if x.Nil? then y.Nil? else y.Cons? && Reordered(x.head, y.head) && AllReordered(x.tail, y.tail)
  }

  ghost predicate EntriesFound(x: Entries, y: Entries) {
    x.Entry? ==>
      var found := Lookup(y, x.key);
      found.Some? && Reordered(x.value, found.value) && EntriesFound(x.rest, y)
  }

  lemma FirstIsBound(es: Entries)
    requires es.Entry?
    ensures Lookup(es, es.key) == Some(es.value)
  {
  }

  /** Two sorted dictionaries with the same bindings are the same list. */
  lemma {:induction false} SortedIsUnique(x: Entries, y: Entries)
    requires Sorted(x) && Sorted(y) && forall key :: Lookup(x, key) == Lookup(y, key)
    ensures x == y
    decreases x
  {
    if x.Entry? {
      FirstIsBound(x);
    }
    if y.Entry? {
      FirstIsBound(y);
    }
    if x.Entry? && y.Entry? {
      assert x.key == y.key by {
        LookupHasKey(x, y.key);
        LookupHasKey(y, x.key);
        assert Lookup(x, x.key).Some? && Lookup(y, y.key).Some?;
        LessIsTotal(x.key.s, y.key.s);
        if KeyLess(x.key, y.key) {
          SortedKeysDiffer(x.key, y);
        } else if KeyLess(y.key, x.key) {
          SortedKeysDiffer(y.key, x);
        }
      }
      assert x.value == y.value by {
        assert Lookup(x, x.key) == Lookup(y, x.key);
      }
      SortedIsDistinct(x);
      SortedIsDistinct(y);
      forall key
        ensures Lookup(x.rest, key) == Lookup(y.rest, key)
      {
        LookupHasKey(x.rest, key);
        LookupHasKey(y.rest, key);
        assert Lookup(x, key) == Lookup(y, key);
      }
      SortedIsUnique(x.rest, y.rest);
    }
  }

  /** Both refused, or both with the same canonical form. */
  predicate SameCanon(a: Value, b: Value) {
    match (Normalise(a), Normalise(b))
    case (Some(m), Some(n)) => Canon(m) == Canon(n)
    case (None, None) => true
    case _ => false
  }

  lemma {:induction false} FoundLookup(x: Entries, y: Entries, key: Key)
    requires EntriesFound(x, y) && HasKey(x, key)
    ensures Lookup(x, key).Some? && Lookup(y, key).Some? && Reordered(Lookup(x, key).value, Lookup(y, key).value)
    ensures Lookup(x, key).value < x
    decreases x
  {
    if x.key != key {
      FoundLookup(x.rest, y, key);
    }
  }

  lemma {:induction false} ReorderedSameCanon(a: Value, b: Value)
    requires Reordered(a, b) && ProperDicts(a) && ProperDicts(b)
    ensures SameCanon(a, b)
    decreases a, 1
  {
    match (a, b)
    case (Dict(x), Dict(y)) => DictsSameCanon(x, y);
    case (List(x), List(y)) => AllSameCanon(x, y);
    case (Tuple(x), Tuple(y)) => AllSameCanon(x, y);
    case _ =>
  }

  lemma {:induction false} AllSameCanon(x: Values, y: Values)
    requires AllReordered(x, y) && AllProper(x) && AllProper(y)
    ensures match (NormaliseAll(x), NormaliseAll(y))
            case (Some(m), Some(n)) => CanonAll(m) == CanonAll(n)
            case (None, None) => true
            case _ => false
    decreases x, 0
  {
    if x.Cons? {
      ReorderedSameCanon(x.head, y.head);
      AllSameCanon(x.tail, y.tail);
    }
  }

  predicate NormalisesAt(es: Entries, key: Key) {
    match Lookup(es, key)
    case None => true
    case Some(v) => Normalise(v).Some?
  }

  /** A dictionary is refused for a key that is no string, or for the value of some key. */
  lemma {:induction false} EntriesRefused(es: Entries)
    requires DistinctKeys(es)
    ensures StringKeys(es) <==> forall key :: HasKey(es, key) ==> key.StrKey?
    ensures NormaliseEntries(es).Some? <==> forall key :: NormalisesAt(es, key)
    decreases es
  {
    if es.Entry? {
      EntriesRefused(es.rest);
      assert HasKey(es, es.key);
      FirstIsBound(es);
      LookupHasKey(es.rest, es.key);
      assert NormalisesAt(es.rest, es.key);
      forall key
        ensures NormalisesAt(es, key) <==> if key == es.key then Normalise(es.value).Some? else NormalisesAt(es.rest, key)
        ensures HasKey(es, key) <==> key == es.key || HasKey(es.rest, key)
      {
      }
      if forall key :: NormalisesAt(es, key) {
        assert NormalisesAt(es, es.key);
      }
    }
  }

  lemma {:induction false} EntryIsProper(es: Entries, key: Key)
    requires EntriesProper(es) && HasKey(es, key)
    ensures Lookup(es, key).Some? && ProperDicts(Lookup(es, key).value)
  {
    if es.key != key {
      EntryIsProper(es.rest, key);
    }
  }

  /** Both dictionaries lack the key, or bind it to values with the same canonical form. */
  predicate AgreeAt(x: Entries, y: Entries, key: Key) {
    match (Lookup(x, key), Lookup(y, key))
    case (Some(v), Some(w)) => SameCanon(v, w)
    case (None, None) => true
    case _ => false
  }

  lemma {:induction false} DictsSameCanon(x: Entries, y: Entries)
    requires Reordered(Dict(x), Dict(y)) && ProperDicts(Dict(x)) && ProperDicts(Dict(y))
    ensures SameCanon(Dict(x), Dict(y))
    decreases x, 0
  {
    forall key
      ensures AgreeAt(x, y, key)
    {
      LookupHasKey(x, key);
      LookupHasKey(y, key);
      if HasKey(x, key) {
        FoundLookup(x, y, key);
        EntryIsProper(x, key);
        EntryIsProper(y, key);
        ReorderedSameCanon(Lookup(x, key).value, Lookup(y, key).value);
      }
    }
    AgreeingDicts(x, y);
  }

  lemma AgreeingDicts(x: Entries, y: Entries)
    requires ProperDicts(Dict(x)) && ProperDicts(Dict(y))
    requires forall key :: AgreeAt(x, y, key)
    ensures SameCanon(Dict(x), Dict(y))
  {
    EntriesRefused(x);
    EntriesRefused(y);
    forall key
      ensures HasKey(x, key) <==> HasKey(y, key)
      ensures NormalisesAt(x, key) <==> NormalisesAt(y, key)
    {
      LookupHasKey(x, key);
      LookupHasKey(y, key);
      assert AgreeAt(x, y, key);
    }
    if NormaliseEntries(x).Some? {
      forall key ensures NormalisesAt(y, key) {
        assert NormalisesAt(x, key);
      }
    }
    if NormaliseEntries(y).Some? {
      forall key ensures NormalisesAt(x, key) {
        assert NormalisesAt(y, key);
      }
    }
    if Normalise(Dict(x)).Some? {
      SortedFormsAgree(x, y);
    }
  }

  lemma SortedFormsAgree(x: Entries, y: Entries)
    requires ProperDicts(Dict(x)) && ProperDicts(Dict(y))
    requires Normalise(Dict(x)).Some? && Normalise(Dict(y)).Some?
    requires forall key :: AgreeAt(x, y, key)
    ensures Canon(Normalise(Dict(x)).value) == Canon(Normalise(Dict(y)).value)
  {
    var a, b := Canon(Normalise(Dict(x)).value), Canon(Normalise(Dict(y)).value);
    NormalIsNormal(Dict(x));
    NormalIsNormal(Dict(y));
    NormaliseKeepsProper(Dict(x));
    NormaliseKeepsProper(Dict(y));
    CanonIsCanonical(Normalise(Dict(x)).value);
    CanonIsCanonical(Normalise(Dict(y)).value);
    forall key
      ensures Lookup(a.entries, key) == Lookup(b.entries, key)
    {
      assert AgreeAt(x, y, key);
      TreeLookup(Dict(x), key);
      TreeLookup(Dict(y), key);
    }
    SortedIsUnique(a.entries, b.entries);
  }

  /** The canonical text does not depend on the order in which any dictionary was filled. */
  lemma TextIgnoresInsertionOrder(a: Value, b: Value)
    requires Reordered(a, b) && ProperDicts(a) && ProperDicts(b)
    ensures CanonicalText(a) == CanonicalText(b)
  {
    ReorderedSameCanon(a, b);
  }
}
