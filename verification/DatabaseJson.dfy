/** The database's own canonical text of a JSON value, and its check of every decision snapshot row. */
module DatabaseJson {
  import opened Options
  import opened JsonText
  import opened TextOrder
  import opened CanonicalJson
  import Snapshots
  import Whitespace

  // ----- the database's canonical text -------------------------------------------------

  /** How the database orders texts: `before(a, b)` when `a` sorts before `b`. */
  type Collation = (string, string) -> bool

  ghost predicate IsOrder(before: Collation) {
    && (forall a, b :: a == b || before(a, b) || before(b, a))
    && (forall a, b :: !(before(a, b) && before(b, a)))
    && forall a, b, c :: before(a, b) && before(b, c) ==> before(a, c)
  }

  /** An entry's text under its key. */
  datatype Piece = Piece(key: string, text: string)

  /** The texts joined with commas. */
  function Joined(texts: seq<string>): string {
    if texts == [] then "" else if |texts| == 1 then texts[0] else texts[0] + "," + Joined(texts[1..])
  }

  function Texts(pieces: seq<Piece>): seq<string> {
    if pieces == [] then [] else [pieces[0].text] + Texts(pieces[1..])
  }

  function InsertPiece(piece: Piece, pieces: seq<Piece>, before: Collation): seq<Piece> {
    if pieces == [] || before(piece.key, pieces[0].key) then [piece] + pieces
    else [pieces[0]] + InsertPiece(piece, pieces[1..], before)
  }

  function SortPieces(pieces: seq<Piece>, before: Collation): seq<Piece> {
    if pieces == [] then [] else InsertPiece(pieces[0], SortPieces(pieces[1..], before), before)
  }

  /** Objects by aggregating their rendered entries in the order of their keys, arrays in their own order. */
  function StoredText(v: Value, before: Collation): string
    requires Normal(v)
  {
    match v
    case Null => "null"
    case Bool(b) => if b then "true" else "false"
    case Int(n) => IntText(n)
    case Str(s) => StringText(s)
    case List(items) => "[" + Joined(ItemTexts(items, before)) + "]"
    case Dict(entries) => "{" + Joined(Texts(SortPieces(EntryPieces(entries, before), before))) + "}"
  }

  function ItemTexts(items: Values, before: Collation): seq<string>
    requires AllNormal(items)
  {
    if items.Nil? then [] else [StoredText(items.head, before)] + ItemTexts(items.tail, before)
  }

  function EntryPieces(es: Entries, before: Collation): seq<Piece>
    requires EntriesNormal(es)
  {
    if es.Empty? then []
    else [Piece(es.key.s, StringText(es.key.s) + ":" + StoredText(es.value, before))] + EntryPieces(es.rest, before)
  }

  // ----- it is the text of the value sorted by the collation ---------------------------

  function InsertBy(key: Key, value: Value, es: Entries, before: Collation): Entries {
    if es.Empty? || (key.StrKey? && es.key.StrKey? && before(key.s, es.key.s)) then Entry(key, value, es)
    else Entry(es.key, es.value, InsertBy(key, value, es.rest, before))
  }

  function SortBy(es: Entries, before: Collation): Entries {
    if es.Empty? then Empty else InsertBy(es.key, es.value, SortBy(es.rest, before), before)
  }

  /** The value with every dictionary's entries in the collation's order. */
  function Collated(v: Value, before: Collation): Value {
    match v
    case List(items) => List(CollatedItems(items, before))
    case Dict(entries) => Dict(SortBy(CollatedEntries(entries, before), before))
    case _ => v
  }

  function CollatedItems(items: Values, before: Collation): Values {
    if items.Nil? then Nil else Cons(Collated(items.head, before), CollatedItems(items.tail, before))
  }

  function CollatedEntries(es: Entries, before: Collation): Entries {
    if es.Empty? then Empty else Entry(es.key, Collated(es.value, before), CollatedEntries(es.rest, before))
  }

  function RenderedPieces(es: Entries): seq<Piece>
    requires EntriesNormal(es)
  {
    if es.Empty? then [] else [Piece(es.key.s, StringText(es.key.s) + ":" + Render(es.value))] + RenderedPieces(es.rest)
  }

  function RenderedItems(items: Values): seq<string>
    requires AllNormal(items)
  {
    if items.Nil? then [] else [Render(items.head)] + RenderedItems(items.tail)
  }

  lemma {:induction false} JoinedItems(items: Values)
    requires AllNormal(items)
    ensures Joined(RenderedItems(items)) == RenderItems(items)
  {
    if items.Cons? {
      JoinedItems(items.tail);
      assert RenderedItems(items)[1..] == RenderedItems(items.tail);
    }
  }

  lemma {:induction false} JoinedEntries(es: Entries)
    requires EntriesNormal(es)
    ensures Joined(Texts(RenderedPieces(es))) == RenderEntries(es)
  {
    if es.Entry? {
      JoinedEntries(es.rest);
      assert RenderedPieces(es)[1..] == RenderedPieces(es.rest);
      assert Texts(RenderedPieces(es))[1..] == Texts(RenderedPieces(es.rest));
    }
  }

  lemma {:induction false} InsertPieceIsInsertBy(key: Key, value: Value, es: Entries, before: Collation)
    requires key.StrKey? && Normal(value) && EntriesNormal(es)
    ensures EntriesNormal(InsertBy(key, value, es, before))
    ensures InsertPiece(Piece(key.s, StringText(key.s) + ":" + Render(value)), RenderedPieces(es), before)
            == RenderedPieces(InsertBy(key, value, es, before))
  {
    if es.Entry? {
      InsertPieceIsInsertBy(key, value, es.rest, before);
      assert RenderedPieces(es)[1..] == RenderedPieces(es.rest);
    }
  }

  lemma {:induction false} SortPiecesIsSortBy(es: Entries, before: Collation)
    requires EntriesNormal(es)
    ensures EntriesNormal(SortBy(es, before))
    ensures SortPieces(RenderedPieces(es), before) == RenderedPieces(SortBy(es, before))
  {
    if es.Entry? {
      SortPiecesIsSortBy(es.rest, before);
      assert RenderedPieces(es)[1..] == RenderedPieces(es.rest);
      InsertPieceIsInsertBy(es.key, es.value, SortBy(es.rest, before), before);
    }
  }

  lemma {:induction false} StoredIsCollated(v: Value, before: Collation)
    requires Normal(v)
    ensures Normal(Collated(v, before)) && StoredText(v, before) == Render(Collated(v, before))
    decreases v, 1
  {
    match v
    case List(items) =>
      ItemsAreCollated(items, before);
      JoinedItems(CollatedItems(items, before));
    case Dict(entries) =>
      EntriesAreCollated(entries, before);
      SortPiecesIsSortBy(CollatedEntries(entries, before), before);
      JoinedEntries(SortBy(CollatedEntries(entries, before), before));
    case _ =>
  }

  lemma {:induction false} ItemsAreCollated(items: Values, before: Collation)
    requires AllNormal(items)
    ensures AllNormal(CollatedItems(items, before))
    ensures ItemTexts(items, before) == RenderedItems(CollatedItems(items, before))
    decreases items, 0
  {
    if items.Cons? {
      StoredIsCollated(items.head, before);
      ItemsAreCollated(items.tail, before);
    }
  }

  lemma {:induction false} EntriesAreCollated(es: Entries, before: Collation)
    requires EntriesNormal(es)
    ensures EntriesNormal(CollatedEntries(es, before))
    ensures EntryPieces(es, before) == RenderedPieces(CollatedEntries(es, before))
    decreases es, 0
  {
    if es.Entry? {
      StoredIsCollated(es.value, before);
      EntriesAreCollated(es.rest, before);
    }
  }

  // ----- sorting by a collation keeps the dictionary -----------------------------------

  lemma {:induction false} InsertByLookup(key: Key, value: Value, es: Entries, before: Collation, k: Key)
    requires !HasKey(es, key)
    ensures var r := InsertBy(key, value, es, before);
      && Lookup(r, k) == (if k == key then Some(value) else Lookup(es, k))
      && (HasKey(r, k) <==> k == key || HasKey(es, k))
  {
    if es.Entry? {
      InsertByLookup(key, value, es.rest, before, k);
    }
  }

  lemma {:induction false} SortByLookup(es: Entries, before: Collation, k: Key)
    requires DistinctKeys(es)
    ensures Lookup(SortBy(es, before), k) == Lookup(es, k)
    ensures HasKey(SortBy(es, before), k) <==> HasKey(es, k)
  {
    if es.Entry? {
      SortByLookup(es.rest, before, k);
      SortByLookup(es.rest, before, es.key);
      InsertByLookup(es.key, es.value, SortBy(es.rest, before), before, k);
    }
  }

  lemma {:induction false} InsertByProper(key: Key, value: Value, es: Entries, before: Collation)
    requires !HasKey(es, key) && ProperDicts(value) && DistinctKeys(es) && EntriesProper(es)
    ensures var r := InsertBy(key, value, es, before); DistinctKeys(r) && EntriesProper(r)
  {
    if es.Entry? {
      InsertByProper(key, value, es.rest, before);
      InsertByLookup(key, value, es.rest, before, es.key);
    }
  }

  lemma {:induction false} SortByProper(es: Entries, before: Collation)
    requires DistinctKeys(es) && EntriesProper(es)
    ensures DistinctKeys(SortBy(es, before)) && EntriesProper(SortBy(es, before))
  {
    if es.Entry? {
      SortByProper(es.rest, before);
      SortByLookup(es.rest, before, es.key);
      InsertByProper(es.key, es.value, SortBy(es.rest, before), before);
    }
  }

  lemma {:induction false} CollatedKeys(es: Entries, before: Collation, k: Key)
    ensures HasKey(CollatedEntries(es, before), k) <==> HasKey(es, k)
  {
    if es.Entry? {
      CollatedKeys(es.rest, before, k);
    }
  }

  lemma {:induction false} CollatedIsProper(v: Value, before: Collation)
    requires Normal(v) && ProperDicts(v)
    ensures ProperDicts(Collated(v, before))
    decreases v, 1
  {
    match v
    case List(items) => CollatedItemsProper(items, before);
    case Dict(entries) =>
      CollatedEntriesProper(entries, before);
      SortByProper(CollatedEntries(entries, before), before);
    case _ =>
  }

  lemma {:induction false} CollatedItemsProper(items: Values, before: Collation)
    requires AllNormal(items) && AllProper(items)
    ensures AllProper(CollatedItems(items, before))
    decreases items, 0
  {
    if items.Cons? {
      CollatedIsProper(items.head, before);
      CollatedItemsProper(items.tail, before);
    }
  }

  lemma {:induction false} CollatedEntriesProper(es: Entries, before: Collation)
    requires EntriesNormal(es) && DistinctKeys(es) && EntriesProper(es)
    ensures DistinctKeys(CollatedEntries(es, before)) && EntriesProper(CollatedEntries(es, before))
    decreases es, 0
  {
    if es.Entry? {
      CollatedIsProper(es.value, before);
      CollatedEntriesProper(es.rest, before);
      CollatedKeys(es.rest, before, es.key);
    }
  }

  // ----- when both orders give the same text -------------------------------------------

  /** On the keys of one dictionary the collation orders as code points do. */
  ghost predicate AgreesOn(es: Entries, before: Collation) {
    forall a, b :: HasKey(es, StrKey(a)) && HasKey(es, StrKey(b)) ==> (before(a, b) <==> Less(a, b))
  }

  /** The collation orders the keys of every dictionary in the value as code points do. */
  ghost predicate Agrees(v: Value, before: Collation) {
    match v
    case List(items) => AllAgree(items, before)
    case Dict(entries) => AgreesOn(entries, before) && EntriesAgree(entries, before)
    case _ => true
  }

  ghost predicate AllAgree(items: Values, before: Collation) {
    items.Cons? ==> Agrees(items.head, before) && AllAgree(items.tail, before)
  }

  ghost predicate EntriesAgree(es: Entries, before: Collation) {
    es.Entry? ==> Agrees(es.value, before) && EntriesAgree(es.rest, before)
  }

  lemma {:induction false} InsertByAgrees(key: Key, value: Value, es: Entries, before: Collation)
    requires key.StrKey? && forall k :: HasKey(es, k) ==> k.StrKey? && (before(key.s, k.s) <==> Less(key.s, k.s))
    ensures InsertBy(key, value, es, before) == InsertEntry(key, value, es)
  {
    if es.Entry? {
      assert HasKey(es, es.key);
      InsertByAgrees(key, value, es.rest, before);
    }
  }

  lemma {:induction false} SortByAgrees(es: Entries, before: Collation)
    requires StringKeys(es) && DistinctKeys(es) && AgreesOn(es, before)
    ensures SortBy(es, before) == SortEntries(es)
  {
    if es.Entry? {
      SortByAgrees(es.rest, before);
      forall k | HasKey(SortEntries(es.rest), k)
        ensures k.StrKey? && (before(es.key.s, k.s) <==> Less(es.key.s, k.s))
      {
        SortLookup(es.rest, k);
        KeyIsText(es.rest, k);
        assert HasKey(es, StrKey(k.s)) && HasKey(es, StrKey(es.key.s));
      }
      InsertByAgrees(es.key, es.value, SortEntries(es.rest), before);
    }
  }

  lemma {:induction false} KeyIsText(es: Entries, k: Key)
    requires StringKeys(es) && HasKey(es, k)
    ensures k.StrKey?
  {
    if es.key != k {
      KeyIsText(es.rest, k);
    }
  }

  /** Every key comes before all later ones. */
  ghost predicate Ascends(es: Entries, before: Collation) {
    es.Entry? ==> es.key.StrKey? && (forall b :: HasKey(es.rest, StrKey(b)) ==> before(es.key.s, b)) && Ascends(es.rest, before)
  }

  lemma {:induction false} InsertByAscends(key: Key, value: Value, es: Entries, before: Collation)
    requires IsOrder(before) && key.StrKey? && !HasKey(es, key) && Ascends(es, before)
    ensures Ascends(InsertBy(key, value, es, before), before)
  {
    if es.Entry? {
      assert before(key.s, es.key.s) || before(es.key.s, key.s);
      if !before(key.s, es.key.s) {
        InsertByAscends(key, value, es.rest, before);
        forall b | HasKey(InsertBy(key, value, es.rest, before), StrKey(b))
          ensures before(es.key.s, b)
        {
          InsertByLookup(key, value, es.rest, before, StrKey(b));
        }
      }
    }
  }

  lemma {:induction false} SortByAscends(es: Entries, before: Collation)
    requires IsOrder(before) && StringKeys(es) && DistinctKeys(es)
    ensures Ascends(SortBy(es, before), before)
  {
    if es.Entry? {
      SortByAscends(es.rest, before);
      SortByLookup(es.rest, before, es.key);
      InsertByAscends(es.key, es.value, SortBy(es.rest, before), before);
    }
  }

  /** A dictionary that is sorted both ways is ordered alike by both. */
  lemma {:induction false} SortedBothWays(es: Entries, before: Collation, a: string, b: string)
    requires IsOrder(before) && Sorted(es) && Ascends(es, before)
    requires HasKey(es, StrKey(a)) && HasKey(es, StrKey(b)) && Less(a, b)
    ensures before(a, b)
    decreases es
  {
    LessIsTotal(a, b);
    if es.key == StrKey(b) {
      SortedIsDistinct(es);
      LaterIsGreater(es, a);
      LessIsTotal(b, a);
    } else if es.key != StrKey(a) {
      SortedBothWays(es.rest, before, a, b);
    }
  }

  lemma {:induction false} LaterIsGreater(es: Entries, a: string)
    requires Sorted(es) && es.Entry? && HasKey(es.rest, StrKey(a))
    ensures Less(es.key.s, a)
    decreases es
  {
    if es.rest.key != StrKey(a) {
      LaterIsGreater(es.rest, a);
      LessTransitive(es.key.s, es.rest.key.s, a);
    }
  }

  lemma SameSortAgrees(es: Entries, before: Collation)
    requires IsOrder(before) && StringKeys(es) && DistinctKeys(es) && SortBy(es, before) == SortEntries(es)
    ensures AgreesOn(es, before)
  {
    var sorted := SortEntries(es);
    SortSorts(es);
    SortByAscends(es, before);
    forall a, b | HasKey(es, StrKey(a)) && HasKey(es, StrKey(b))
      ensures before(a, b) <==> Less(a, b)
    {
      SortLookup(es, StrKey(a));
      SortLookup(es, StrKey(b));
      LessIsTotal(a, b);
      if Less(a, b) {
        SortedBothWays(sorted, before, a, b);
      } else if Less(b, a) {
        SortedBothWays(sorted, before, b, a);
      }
    }
  }

  lemma {:induction false} SameBindingsSameEntries(es: Entries, before: Collation)
    requires DistinctKeys(es)
    requires forall k :: Lookup(CollatedEntries(es, before), k) == Lookup(CanonEntries(es), k)
    ensures CollatedEntries(es, before) == CanonEntries(es)
  {
    if es.Entry? {
      var x, y := CollatedEntries(es, before), CanonEntries(es);
      assert Lookup(x, es.key) == Lookup(y, es.key);
      forall k
        ensures Lookup(x.rest, k) == Lookup(y.rest, k)
      {
        assert Lookup(x, k) == Lookup(y, k);
        CollatedKeys(es.rest, before, es.key);
        CanonEntriesKeys(es.rest, es.key);
        Snapshots.LookupHasKey(x.rest, es.key);
        Snapshots.LookupHasKey(y.rest, es.key);
      }
      SameBindingsSameEntries(es.rest, before);
    }
  }

  lemma AgreesOnCanon(es: Entries, before: Collation)
    ensures AgreesOn(CanonEntries(es), before) <==> AgreesOn(es, before)
  {
    forall a: string
      ensures HasKey(CanonEntries(es), StrKey(a)) <==> HasKey(es, StrKey(a))
    {
      CanonEntriesKeys(es, StrKey(a));
    }
  }

  lemma DictCollatedIff(es: Entries, before: Collation)
    requires IsOrder(before) && EntriesNormal(es) && DistinctKeys(es) && EntriesProper(es)
    requires CollatedEntries(es, before) == CanonEntries(es) <==> EntriesAgree(es, before)
    ensures Collated(Dict(es), before) == Canon(Dict(es)) <==> Agrees(Dict(es), before)
  {
    var x, y := CollatedEntries(es, before), CanonEntries(es);
    CanonEntriesAreCanonical(es);
    SortKeepsCanonical(y);
    CanonKeepsDistinct(es);
    CollatedEntriesProper(es, before);
    AgreesOnCanon(es, before);
    if SortBy(x, before) == SortEntries(y) {
      forall k
        ensures Lookup(x, k) == Lookup(y, k)
      {
        SortByLookup(x, before, k);
        SortLookup(y, k);
      }
      SameBindingsSameEntries(es, before);
      SameSortAgrees(y, before);
    } else if EntriesAgree(es, before) && AgreesOn(es, before) {
      SortByAgrees(y, before);
    }
  }

  lemma {:induction false} CollatedIff(v: Value, before: Collation)
    requires IsOrder(before) && Normal(v) && ProperDicts(v)
    ensures Collated(v, before) == Canon(v) <==> Agrees(v, before)
    decreases v, 1
  {
    match v
    case List(items) => ItemsCollatedIff(items, before);
    case Dict(entries) =>
      EntriesCollatedIff(entries, before);
      DictCollatedIff(entries, before);
    case _ =>
  }

  lemma {:induction false} ItemsCollatedIff(items: Values, before: Collation)
    requires IsOrder(before) && AllNormal(items) && AllProper(items)
    ensures CollatedItems(items, before) == CanonAll(items) <==> AllAgree(items, before)
    decreases items, 0
  {
    if items.Cons? {
      CollatedIff(items.head, before);
      ItemsCollatedIff(items.tail, before);
    }
  }

  lemma {:induction false} EntriesCollatedIff(es: Entries, before: Collation)
    requires IsOrder(before) && EntriesNormal(es) && EntriesProper(es)
    ensures CollatedEntries(es, before) == CanonEntries(es) <==> EntriesAgree(es, before)
    decreases es, 0
  {
    if es.Entry? {
      CollatedIff(es.value, before);
      EntriesCollatedIff(es.rest, before);
    }
  }

  /** The canonical text has one reading, so different canonical values have different texts. */
  lemma RenderIsInjective(a: Value, b: Value)
    requires Normal(a) && ProperDicts(a) && Normal(b) && ProperDicts(b)
    ensures Render(a) == Render(b) <==> a == b
  {
    LoadRendered(a);
    LoadRendered(b);
  }

  /**
   The database recomputes the domain's canonical text exactly when its collation orders the keys of every object in the
   value as code points do.
   */
  lemma StoredTextIff(v: Value, before: Collation)
    requires IsOrder(before) && Normal(v) && ProperDicts(v)
    ensures Normal(Canon(v)) && (StoredText(v, before) == Render(Canon(v)) <==> Agrees(v, before))
  {
    Snapshots.CanonIsNormal(v);
    CanonIsCanonical(v);
    CanonicalIsProper(Canon(v));
    CollatedIsProper(v, before);
    StoredIsCollated(v, before);
    RenderIsInjective(Collated(v, before), Canon(v));
    CollatedIff(v, before);
  }

  /** An order that looks at underscores only when nothing else differs, as linguistic collations do with punctuation. */
  predicate IgnoringMarks(a: string, b: string) {
    Less(WithoutMarks(a), WithoutMarks(b)) || (WithoutMarks(a) == WithoutMarks(b) && Less(a, b))
  }

  function WithoutMarks(s: string): string {
    if s == [] then [] else (if s[0] == '_' then [] else [s[0]]) + WithoutMarks(s[1..])
  }

  lemma IgnoringMarksIsOrder()
    ensures IsOrder(IgnoringMarks)
  {
    forall a, b
      ensures (a == b || IgnoringMarks(a, b) || IgnoringMarks(b, a)) && !(IgnoringMarks(a, b) && IgnoringMarks(b, a))
    {
      LessIsTotal(a, b);
      LessIsTotal(WithoutMarks(a), WithoutMarks(b));
    }
    forall a, b, c | IgnoringMarks(a, b) && IgnoringMarks(b, c)
      ensures IgnoringMarks(a, c)
    {
      var x, y, z := WithoutMarks(a), WithoutMarks(b), WithoutMarks(c);
      if Less(x, y) && Less(y, z) {
        LessTransitive(x, y, z);
      } else if x == y && y == z {
        LessTransitive(a, b, c);
      }
    }
  }

  lemma MarkedKeys()
    ensures Less("a_c", "ab") && !IgnoringMarks("a_c", "ab")
  {
    assert WithoutMarks("c") == "c" by { assert "c"[1..] == ""; }
    assert WithoutMarks("_c") == "c" by { assert "_c"[1..] == "c"; }
    assert WithoutMarks("a_c") == "ac" by { assert "a_c"[1..] == "_c"; }
    assert WithoutMarks("b") == "b" by { assert "b"[1..] == ""; }
    assert WithoutMarks("ab") == "ab" by { assert "ab"[1..] == "b"; }
    assert Less("a_c", "ab") by { assert "a_c"[1..] == "_c" && "ab"[1..] == "b"; }
    assert !Less("ac", "ab") by { assert "ac"[1..] == "c" && "ab"[1..] == "b"; }
  }

  /** Under such a collation an object with the keys `a_c` and `ab` gets another text than in the domain. */
  lemma MarksChangeTheText()
    ensures IsOrder(IgnoringMarks)
    ensures var v := Dict(Entry(StrKey("a_c"), Null, Entry(StrKey("ab"), Null, Empty)));
      && Normal(v) && ProperDicts(v) && Canonical(v) && StoredText(v, IgnoringMarks) != Render(v)
  {
    hide Less, IgnoringMarks, IsOrder, StoredText, Render;
    var v := Dict(Entry(StrKey("a_c"), Null, Entry(StrKey("ab"), Null, Empty)));
    IgnoringMarksIsOrder();
    MarkedKeys();
    assert HasKey(v.entries, StrKey("a_c")) && HasKey(v.entries, StrKey("ab"));
    CanonFixesCanonical(v);
    StoredTextIff(v, IgnoringMarks);
  }

  // ----- snapshot rows -----------------------------------------------------------------

  /** What the database computes with: its hash function and its order of texts. */
  datatype Setup = Setup(digest: string -> string, before: Collation)

  datatype Row = Row(payload: Value, hash: string)

  /** No text holds a zero character, which binary JSON refuses. */
  predicate NoZeros(v: Value) {
    match v
    case Str(s) => '\0' !in s
    case List(items) => NoZerosInItems(items)
    case Dict(entries) => NoZerosInEntries(entries)
    case _ => true
  }

  predicate NoZerosInItems(items: Values) {
    items.Cons? ==> NoZeros(items.head) && NoZerosInItems(items.tail)
  }

  predicate NoZerosInEntries(es: Entries) {
    es.Entry? ==> (es.key.StrKey? ==> '\0' !in es.key.s) && NoZeros(es.value) && NoZerosInEntries(es.rest)
  }

  /** The key is there with a value that is neither null nor empty. */
  predicate RequiredNonempty(es: Entries, key: string) {
    match Lookup(es, StrKey(key))
    case None => false
    case Some(Null) => false
    case Some(Str(s)) => !Whitespace.OnlySpaces(s)
    case Some(List(items)) => items.Cons?
    case Some(Dict(entries)) => entries.Entry?
    case Some(_) => true
  }

  function OverallOf(v: Value): Option<Value> {
    if v.Dict? then Lookup(v.entries, StrKey("overall_decision")) else None
  }

  /** The hash a row must carry. */
  function StoredHash(setup: Setup, payload: Value): string
    requires Normal(payload)
  {
    setup.digest(StoredText(payload, setup.before))
  }

  predicate HashMatches(setup: Setup, row: Row) {
    Normal(row.payload) && row.hash == StoredHash(setup, row.payload)
  }

  /** The check of a row before it is inserted. */
  predicate RowAccepted(setup: Setup, row: Row) {
    && ProperDicts(row.payload) && NoZeros(row.payload)
    && row.payload.Dict? && (forall i :: 0 <= i < |Snapshots.REQUIRED_KEYS| ==>
                              RequiredNonempty(row.payload.entries, Snapshots.REQUIRED_KEYS[i]))
    && OverallOf(row.payload).Some? && Snapshots.IsCandidateDecision(OverallOf(row.payload).value)
    && HashMatches(setup, row)
  }

  /** The row of a frozen snapshot: its decoded payload and its hash. */
  function RowOf(snapshot: Snapshots.Snapshot): Option<Row> {
    match Load(snapshot.text)
    case None => None
    case Some(payload) => Some(Row(payload, snapshot.hash))
  }

  lemma PresentIsNonempty(es: Entries, key: string)
    requires Lookup(es, StrKey(key)).Some? && !Snapshots.IsEmptyValue(Lookup(es, StrKey(key)).value)
    ensures RequiredNonempty(es, key)
  {
    assert Whitespace.IsSpace(' ');
  }

  /**
   The row of every snapshot frozen for approval passes all parts of the check but two: it is accepted exactly when no
   text holds a zero character and the hash of the database's text is the hash of the domain's.
   */
  lemma FrozenRowAcceptedIff(payload: Value, setup: Setup)
    requires ProperDicts(payload) && Snapshots.FreezeForApproval(payload, setup.digest).Ok?
    ensures var snapshot := Snapshots.FreezeForApproval(payload, setup.digest).value;
      var tree := Canon(Snapshots.Normalise(payload).value);
      && Normal(tree) && ProperDicts(tree) && RowOf(snapshot) == Some(Row(tree, snapshot.hash))
      && OverallOf(tree) == OverallOf(payload)
      && (RowAccepted(setup, Row(tree, snapshot.hash)) <==> NoZeros(tree) && StoredHash(setup, tree) == snapshot.hash)
  {
    var tree := Snapshots.FrozenTree(payload);
    CanonicalIsProper(tree);
    Snapshots.TextRoundTrips(payload);
    Snapshots.FrozenKeepsRequired(payload, tree);
    forall i | 0 <= i < |Snapshots.REQUIRED_KEYS|
      ensures RequiredNonempty(tree.entries, Snapshots.REQUIRED_KEYS[i])
    {
      PresentIsNonempty(tree.entries, Snapshots.REQUIRED_KEYS[i]);
    }
  }

  /**
   Where the collation orders keys as code points do, and no text holds a zero character, every frozen snapshot is
   accepted; otherwise none is, unless the hash function gives both texts one hash.
   */
  lemma FrozenRowAcceptance(payload: Value, setup: Setup)
    requires IsOrder(setup.before) && ProperDicts(payload) && Snapshots.FreezeForApproval(payload, setup.digest).Ok?
    ensures var snapshot := Snapshots.FreezeForApproval(payload, setup.digest).value;
      var tree := Canon(Snapshots.Normalise(payload).value);
      var row := Row(tree, snapshot.hash);
      && Normal(tree) && RowOf(snapshot) == Some(row)
      && (Agrees(tree, setup.before) && NoZeros(tree) ==> RowAccepted(setup, row))
      && (RowAccepted(setup, row) && (StoredHash(setup, tree) == snapshot.hash ==> StoredText(tree, setup.before) == snapshot.text)
          ==> Agrees(tree, setup.before) && NoZeros(tree))
  {
    var tree := Snapshots.FrozenTree(payload);
    FrozenRowAcceptedIff(payload, setup);
    StoredTextIff(tree, setup.before);
    CanonFixesCanonical(tree);
  }
}
