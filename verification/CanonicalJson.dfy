/** The canonical text of a normalised value, the reader of that text, and their round trip. */
module CanonicalJson {
  import opened Options
  import opened JsonText
  import opened TextOrder

  // ----- normal values -----------------------------------------------------------------

  predicate Normal(v: Value) {
    match v
    case Null => true
    case Bool(_) => true
    case Int(_) => true
    case Str(_) => true
    case List(items) => AllNormal(items)
    case Dict(entries) => EntriesNormal(entries)
    case _ => false
  }

  predicate AllNormal(items: Values) {
    items.Cons? ==> Normal(items.head) && AllNormal(items.tail)
  }

  predicate EntriesNormal(es: Entries) {
    es.Entry? ==> es.key.StrKey? && Normal(es.value) && EntriesNormal(es.rest)
  }

  // ----- dictionaries ------------------------------------------------------------------

  predicate HasKey(es: Entries, key: Key) {
    es.Entry? && (es.key == key || HasKey(es.rest, key))
  }

  function Lookup(es: Entries, key: Key): Option<Value> {
    if es.Empty? then None else if es.key == key then Some(es.value) else Lookup(es.rest, key)
  }

  predicate DistinctKeys(es: Entries) {
    es.Entry? ==> !HasKey(es.rest, es.key) && DistinctKeys(es.rest)
  }

  function Append(es: Entries, more: Entries): Entries {
    if es.Empty? then more else Entry(es.key, es.value, Append(es.rest, more))
  }

  /** Sets a key as a dictionary does: in place when present, at the end otherwise. */
  function Put(es: Entries, key: Key, value: Value): Entries {
    if es.Empty? then Entry(key, value, Empty)
    else if es.key == key then Entry(key, value, es.rest)
    else Entry(es.key, es.value, Put(es.rest, key, value))
  }

  // ----- key order ---------------------------------------------------------------------

  predicate KeyLess(a: Key, b: Key) {
    a.StrKey? && b.StrKey? && Less(a.s, b.s)
  }

  // ----- sorting keys ------------------------------------------------------------------

  function InsertEntry(key: Key, value: Value, es: Entries): Entries {
    if es.Empty? || KeyLess(key, es.key) then Entry(key, value, es)
    else Entry(es.key, es.value, InsertEntry(key, value, es.rest))
  }

  function SortEntries(es: Entries): Entries {
    if es.Empty? then Empty else InsertEntry(es.key, es.value, SortEntries(es.rest))
  }

  /** Strictly increasing keys. */
  predicate Sorted(es: Entries) {
    es.Entry? ==> es.key.StrKey? && (es.rest.Entry? ==> KeyLess(es.key, es.rest.key)) && Sorted(es.rest)
  }

  /** The value with every dictionary's entries in key order. */
  function Canon(v: Value): Value {
    match v
    case List(items) => List(CanonAll(items))
    case Dict(entries) => Dict(SortEntries(CanonEntries(entries)))
    case _ => v
  }

  function CanonAll(items: Values): Values {
    if items.Nil? then Nil else Cons(Canon(items.head), CanonAll(items.tail))
  }

  function CanonEntries(es: Entries): Entries {
    if es.Empty? then Empty else Entry(es.key, Canon(es.value), CanonEntries(es.rest))
  }

  /** Normal, with sorted keys all the way down. */
  predicate Canonical(v: Value) {
    match v
    case Null => true
    case Bool(_) => true
    case Int(_) => true
    case Str(_) => true
    case List(items) => AllCanonical(items)
    case Dict(entries) => Sorted(entries) && EntriesCanonical(entries)
    case _ => false
  }

  predicate AllCanonical(items: Values) {
    items.Cons? ==> Canonical(items.head) && AllCanonical(items.tail)
  }

  predicate EntriesCanonical(es: Entries) {
    es.Entry? ==> es.key.StrKey? && Canonical(es.value) && EntriesCanonical(es.rest)
  }

  // ----- the canonical text ------------------------------------------------------------

  function Render(v: Value): string
    requires Normal(v)
  {
    match v
    case Null => "null"
    case Bool(b) => if b then "true" else "false"
    case Int(n) => IntText(n)
    case Str(s) => StringText(s)
    case List(items) => "[" + RenderItems(items) + "]"
    case Dict(entries) => "{" + RenderEntries(entries) + "}"
  }

  function RenderItems(items: Values): string
    requires AllNormal(items)
  {
    if items.Nil? then ""
    else if items.tail.Nil? then Render(items.head)
    else Render(items.head) + "," + RenderItems(items.tail)
  }

  function RenderEntries(es: Entries): string
    requires EntriesNormal(es)
  {
    if es.Empty? then ""
    else
      var first := StringText(es.key.s) + ":" + Render(es.value);
      if es.rest.Empty? then first else first + "," + RenderEntries(es.rest)
  }

  // ----- the reader --------------------------------------------------------------------

  predicate IsBlank(c: char) {
    c == ' ' || c == '\t' || c == '\n' || c == '\r'
  }

  function Skip(text: string): (r: string)
    ensures |r| <= |text| && (r != [] ==> !IsBlank(r[0]))
    ensures text != [] && !IsBlank(text[0]) ==> r == text
  {
    if text != [] && IsBlank(text[0]) then Skip(text[1..]) else text
  }

  function ReadNat(text: string): (r: Option<(nat, string)>)
    ensures r.Some? ==> |r.value.1| < |text|
  {
    var k := DigitRun(text);
    if k == 0 then None
    else if text[0] == '0' then Some((0, text[1..]))
    else Some((NatValue(text[..k]), text[k..]))
  }

  function SkipFraction(text: string): (r: string)
    ensures |r| <= |text|
  {
    if |text| >= 2 && text[0] == '.' && IsDigit(text[1]) then text[1 + DigitRun(text[1..])..] else text
  }

  function SkipExponent(text: string): (r: string)
    ensures |r| <= |text|
  {
    if text == [] || (text[0] != 'e' && text[0] != 'E') then text
    else
      var sign := if |text| >= 2 && (text[1] == '+' || text[1] == '-') then 1 else 0;
      var k := DigitRun(text[1 + sign..]);
      if k == 0 then text else text[1 + sign + k..]
  }

  /** A number: an integer, or a float when a fraction or an exponent follows. */
  function ReadNumber(text: string): (r: Option<(Value, string)>)
    ensures r.Some? ==> |r.value.1| < |text|
  {
    var negative := text != [] && text[0] == '-';
    match ReadNat(if negative then text[1..] else text)
    case None => None
    case Some((n, rest)) =>
      var tail := SkipExponent(SkipFraction(rest));
      var signed: int := if negative then -(n as int) else n;
      Some((if tail == rest then Int(signed) else Float, tail))
  }

  function StripPrefix(text: string, prefix: string): Option<string> {
    if prefix <= text then Some(text[|prefix|..]) else None
  }

  function ReadLiteral(text: string, word: string, v: Value): (r: Option<(Value, string)>)
    requires word != []
    ensures r.Some? ==> |r.value.1| < |text|
  {
    match StripPrefix(text, word)
    case None => None
    case Some(rest) => Some((v, rest))
  }

  function ReadScalar(text: string): (r: Option<(Value, string)>)
    requires text != []
    ensures r.Some? ==> |r.value.1| < |text|
  {
    if text[0] == 'n' then ReadLiteral(text, "null", Null)
    else if text[0] == 't' then ReadLiteral(text, "true", Bool(true))
    else if text[0] == 'f' then ReadLiteral(text, "false", Bool(false))
    else ReadNumber(text)
  }

  function Read(text: string): (r: Option<(Value, string)>)
    ensures r.Some? ==> |r.value.1| < |text|
    decreases |text|, 0
  {
    var t := Skip(text);
    if t == [] then None
    else if t[0] == QUOTE then
      match ReadString(t[1..])
      case None => None
      case Some((s, rest)) => Some((Str(s), rest))
    else if t[0] == '[' then
      var u := Skip(t[1..]);
      if u != [] && u[0] == ']' then Some((List(Nil), u[1..]))
      else
        match ReadItems(u)
        case None => None
        case Some((items, rest)) => Some((List(items), rest))
    else if t[0] == '{' then
      var u := Skip(t[1..]);
      if u != [] && u[0] == '}' then Some((Dict(Empty), u[1..]))
      else
        match ReadEntries(u, Empty)
        case None => None
        case Some((entries, rest)) => Some((Dict(entries), rest))
    else ReadScalar(t)
  }

  function ReadItems(text: string): (r: Option<(Values, string)>)
    ensures r.Some? ==> |r.value.1| < |text|
    decreases |text|, 1
  {
    match Read(text)
    case None => None
    case Some((v, after)) =>
      var t := Skip(after);
      if t == [] then None
      else if t[0] == ']' then Some((Cons(v, Nil), t[1..]))
      else if t[0] != ',' then None
      else
        match ReadItems(t[1..])
        case None => None
        case Some((items, rest)) => Some((Cons(v, items), rest))
  }

  function ReadEntries(text: string, done: Entries): (r: Option<(Entries, string)>)
    ensures r.Some? ==> |r.value.1| < |text|
    decreases |text|, 1
  {
    if text == [] || text[0] != QUOTE then None
    else
      match ReadString(text[1..])
      case None => None
      case Some((key, afterKey)) =>
        var t := Skip(afterKey);
        if t == [] || t[0] != ':' then None
        else
          match Read(t[1..])
          case None => None
          case Some((v, afterValue)) =>
            var u := Skip(afterValue);
            var more := Put(done, StrKey(key), v);
            if u == [] then None
            else if u[0] == '}' then Some((more, u[1..]))
            else if u[0] != ',' then None
            else ReadEntries(Skip(u[1..]), more)
  }

  /** The whole text as one value. */
  function Load(text: string): Option<Value> {
    match Read(text)
    case None => None
    case Some((v, rest)) => if Skip(rest) == [] then Some(v) else None
  }

  // ----- canonical values --------------------------------------------------------------

  /** No dictionary lists a key twice. */
  predicate ProperDicts(v: Value) {
    match v
    case List(items) => AllProper(items)
    case Tuple(items) => AllProper(items)
    case Dict(entries) => DistinctKeys(entries) && EntriesProper(entries)
    case _ => true
  }

  predicate AllProper(items: Values) {
    items.Cons? ==> ProperDicts(items.head) && AllProper(items.tail)
  }

  predicate EntriesProper(es: Entries) {
    es.Entry? ==> ProperDicts(es.value) && EntriesProper(es.rest)
  }

  lemma {:induction false} InsertLookup(key: Key, value: Value, es: Entries, k: Key)
    requires !HasKey(es, key)
    ensures Lookup(InsertEntry(key, value, es), k) == if k == key then Some(value) else Lookup(es, k)
    ensures HasKey(InsertEntry(key, value, es), k) <==> k == key || HasKey(es, k)
  {
    if es.Entry? {
      InsertLookup(key, value, es.rest, k);
    }
  }

  /** Sorting keeps every binding. */
  lemma {:induction false} SortLookup(es: Entries, k: Key)
    requires DistinctKeys(es)
    ensures Lookup(SortEntries(es), k) == Lookup(es, k)
    ensures HasKey(SortEntries(es), k) <==> HasKey(es, k)
  {
    if es.Entry? {
      SortLookup(es.rest, k);
      SortLookup(es.rest, es.key);
      InsertLookup(es.key, es.value, SortEntries(es.rest), k);
    }
  }

  lemma {:induction false} InsertSorted(key: Key, value: Value, es: Entries)
    requires key.StrKey? && Sorted(es) && !HasKey(es, key)
    ensures Sorted(InsertEntry(key, value, es))
    ensures forall k :: KeyLess(k, key) && (es.Entry? ==> KeyLess(k, es.key)) ==> KeyLess(k, InsertEntry(key, value, es).key)
  {
    if es.Entry? {
      LessIsTotal(key.s, es.key.s);
      if !KeyLess(key, es.key) {
        InsertSorted(key, value, es.rest);
        assert KeyLess(es.key, key);
      }
    }
  }

  predicate StringKeys(es: Entries) {
    es.Entry? ==> es.key.StrKey? && StringKeys(es.rest)
  }

  lemma {:induction false} SortSorts(es: Entries)
    requires StringKeys(es) && DistinctKeys(es)
    ensures Sorted(SortEntries(es))
  {
    if es.Entry? {
      SortSorts(es.rest);
      SortLookup(es.rest, es.key);
      InsertSorted(es.key, es.value, SortEntries(es.rest));
    }
  }

  lemma {:induction false} InsertCanonical(key: Key, value: Value, es: Entries)
    requires key.StrKey? && Canonical(value) && EntriesCanonical(es)
    ensures EntriesCanonical(InsertEntry(key, value, es))
  {
    if es.Entry? && !KeyLess(key, es.key) {
      InsertCanonical(key, value, es.rest);
    }
  }

  lemma {:induction false} SortKeepsCanonical(es: Entries)
    requires EntriesCanonical(es)
    ensures EntriesCanonical(SortEntries(es)) && StringKeys(es)
  {
    if es.Entry? {
      SortKeepsCanonical(es.rest);
      InsertCanonical(es.key, es.value, SortEntries(es.rest));
    }
  }

  lemma {:induction false} CanonEntriesKeys(es: Entries, k: Key)
    ensures HasKey(CanonEntries(es), k) <==> HasKey(es, k)
    ensures Lookup(CanonEntries(es), k) == match Lookup(es, k) case None => None case Some(v) => Some(Canon(v))
  {
    if es.Entry? {
      CanonEntriesKeys(es.rest, k);
    }
  }

  lemma {:induction false} CanonKeepsDistinct(es: Entries)
    requires DistinctKeys(es)
    ensures DistinctKeys(CanonEntries(es))
  {
    if es.Entry? {
      CanonKeepsDistinct(es.rest);
      CanonEntriesKeys(es.rest, es.key);
    }
  }

  lemma {:induction false} CanonIsCanonical(v: Value)
    requires Normal(v) && ProperDicts(v)
    ensures Canonical(Canon(v))
    decreases v, 1
  {
    match v
    case List(items) => CanonAllIsCanonical(items);
    case Dict(entries) =>
      CanonEntriesAreCanonical(entries);
      CanonKeepsDistinct(entries);
      SortKeepsCanonical(CanonEntries(entries));
      SortSorts(CanonEntries(entries));
    case _ =>
  }

  lemma {:induction false} CanonAllIsCanonical(items: Values)
    requires AllNormal(items) && AllProper(items)
    ensures AllCanonical(CanonAll(items))
    decreases items, 0
  {
    if items.Cons? {
      CanonIsCanonical(items.head);
      CanonAllIsCanonical(items.tail);
    }
  }

  lemma {:induction false} CanonEntriesAreCanonical(es: Entries)
    requires EntriesNormal(es) && EntriesProper(es)
    ensures EntriesCanonical(CanonEntries(es))
    decreases es, 0
  {
    if es.Entry? {
      CanonIsCanonical(es.value);
      CanonEntriesAreCanonical(es.rest);
    }
  }

  // ----- a canonical value is its own canonical form -----------------------------------

  lemma {:induction false} SortedIsSortResult(es: Entries)
    requires Sorted(es)
    ensures SortEntries(es) == es
  {
    if es.Entry? {
      SortedIsSortResult(es.rest);
    }
  }

  lemma {:induction false} CanonFixesCanonical(v: Value)
    requires Canonical(v)
    ensures Canon(v) == v && Normal(v)
    decreases v, 1
  {
    match v
    case List(items) => CanonFixesAll(items);
    case Dict(entries) =>
      CanonFixesEntries(entries);
      SortedIsSortResult(entries);
    case _ =>
  }

  lemma {:induction false} CanonFixesAll(items: Values)
    requires AllCanonical(items)
    ensures CanonAll(items) == items && AllNormal(items)
    decreases items, 0
  {
    if items.Cons? {
      CanonFixesCanonical(items.head);
      CanonFixesAll(items.tail);
    }
  }

  lemma {:induction false} CanonFixesEntries(es: Entries)
    requires EntriesCanonical(es)
    ensures CanonEntries(es) == es && EntriesNormal(es)
    decreases es, 0
  {
    if es.Entry? {
      CanonFixesCanonical(es.value);
      CanonFixesEntries(es.rest);
    }
  }

  lemma {:induction false} CanonicalIsProper(v: Value)
    requires Canonical(v)
    ensures ProperDicts(v)
    decreases v, 1
  {
    match v
    case List(items) => CanonicalItemsAreProper(items);
    case Dict(entries) =>
      SortedIsDistinct(entries);
      CanonicalEntriesAreProper(entries);
    case _ =>
  }

  lemma {:induction false} CanonicalItemsAreProper(items: Values)
    requires AllCanonical(items)
    ensures AllProper(items)
    decreases items, 0
  {
    if items.Cons? {
      CanonicalIsProper(items.head);
      CanonicalItemsAreProper(items.tail);
    }
  }

  lemma {:induction false} CanonicalEntriesAreProper(es: Entries)
    requires EntriesCanonical(es)
    ensures EntriesProper(es)
    decreases es, 0
  {
    if es.Entry? {
      CanonicalIsProper(es.value);
      CanonicalEntriesAreProper(es.rest);
    }
  }

  // ----- reading back what was rendered ------------------------------------------------

  /** What may follow a value inside canonical text. */
  predicate EndsValue(rest: string) {
    rest == [] || rest[0] == ',' || rest[0] == ']' || rest[0] == '}'
  }

  lemma {:induction false} PutAppends(done: Entries, key: Key, value: Value)
    requires !HasKey(done, key)
    ensures Put(done, key, value) == Append(done, Entry(key, value, Empty))
  {
    if done.Entry? {
      PutAppends(done.rest, key, value);
    }
  }

  lemma {:induction false} AppendJoins(a: Entries, b: Entries, c: Entries)
    ensures Append(Append(a, b), c) == Append(a, Append(b, c))
  {
    if a.Entry? {
      AppendJoins(a.rest, b, c);
    }
  }

  lemma {:induction false} AppendHasKey(a: Entries, b: Entries, key: Key)
    ensures HasKey(Append(a, b), key) <==> HasKey(a, key) || HasKey(b, key)
  {
    if a.Entry? {
      AppendHasKey(a.rest, b, key);
    }
  }

  /** In a sorted dictionary every later key is greater, hence different. */
  lemma {:induction false} SortedKeysDiffer(key: Key, es: Entries)
    requires Sorted(es) && key.StrKey? && (es.Entry? ==> KeyLess(key, es.key))
    ensures !HasKey(es, key)
    decreases es
  {
    if es.Entry? {
      LessIsTotal(key.s, es.key.s);
      if es.rest.Entry? {
        LessTransitive(key.s, es.key.s, es.rest.key.s);
      }
      SortedKeysDiffer(key, es.rest);
    }
  }

  lemma {:induction false} SortedIsDistinct(es: Entries)
    requires Sorted(es)
    ensures DistinctKeys(es)
  {
    if es.Entry? {
      SortedIsDistinct(es.rest);
      SortedKeysDiffer(es.key, es.rest);
    }
  }

  lemma NatReadBack(m: nat, rest: string)
    requires EndsValue(rest)
    ensures ReadNat(NatText(m) + rest) == Some((m, rest))
  {
    var digits := NatText(m);
    var body := digits + rest;
    DigitRunStops(digits, rest);
    NatRoundTrip(m);
    assert body[..|digits|] == digits && body[|digits|..] == rest && body[0] == digits[0];
  }

  lemma NoTail(rest: string)
    requires EndsValue(rest)
    ensures SkipExponent(SkipFraction(rest)) == rest
  {
  }

  lemma ReadNumberText(text: string, negative: bool, body: string, m: nat, rest: string)
    requires EndsValue(rest) && ReadNat(body) == Some((m, rest)) && body != [] && IsDigit(body[0])
    requires text == if negative then ['-'] + body else body
    ensures ReadNumber(text) == Some((Int(if negative then -(m as int) else m), rest))
  {
    NoTail(rest);
    if negative {
      assert text[1..] == body;
    }
  }

  lemma NatReadText(m: nat, rest: string)
    requires EndsValue(rest)
    ensures var body := NatText(m) + rest; ReadNat(body) == Some((m, rest)) && body != [] && IsDigit(body[0])
  {
    NatReadBack(m, rest);
    assert (NatText(m) + rest)[0] == NatText(m)[0];
  }

  lemma SignedText(m: nat, rest: string)
    ensures IntText(m) + rest == NatText(m) + rest
    ensures m > 0 ==> IntText(0 - m) + rest == ['-'] + (NatText(m) + rest)
  {
  }

  lemma NumberRoundTrip(n: int, rest: string)
    requires EndsValue(rest)
    ensures ReadNumber(IntText(n) + rest) == Some((Int(n), rest))
    ensures IntText(n)[0] == '-' || IsDigit(IntText(n)[0])
  {
    var m: nat := if n < 0 then -n else n;
    NatReadText(m, rest);
    SignedText(m, rest);
    ReadNumberText(IntText(n) + rest, n < 0, NatText(m) + rest, m, rest);
  }

  lemma ReadQuoted(text: string, body: string, s: string, rest: string)
    requires text == [QUOTE] + body && ReadString(body) == Some((s, rest))
    ensures Read(text) == Some((Str(s), rest))
  {
    assert text[1..] == body && Skip(text) == text;
  }

  lemma TextRoundTrip(s: string, rest: string)
    ensures Read(StringText(s) + rest) == Some((Str(s), rest))
  {
    hide EscapeAll, ReadString, Read;
    var body := EscapeAll(s) + [QUOTE] + rest;
    StringRoundTrip(s, rest);
    assert StringText(s) + rest == [QUOTE] + body;
    ReadQuoted(StringText(s) + rest, body, s, rest);
  }

  /** Canonical text starts with a character that is not blank and closes no bracket. */
  lemma RenderStarts(v: Value)
    requires Normal(v)
    ensures Render(v) != [] && !IsBlank(Render(v)[0]) && Render(v)[0] != ']' && Render(v)[0] != '}'
  {
    if v.Int? {
      NumberRoundTrip(v.n, []);
    }
  }

  lemma LiteralRoundTrip(v: Value, rest: string)
    requires v.Null? || v.Bool?
    ensures Read(Render(v) + rest) == Some((v, rest))
  {
    var word := Render(v);
    var text := word + rest;
    assert text[..|word|] == word && text[|word|..] == rest;
    assert word <= text;
  }

  lemma ReadListText(text: string, body: string, items: Values, rest: string)
    requires text == ['['] + body && body != [] && !IsBlank(body[0])
    requires if items.Nil? then body[0] == ']' && body[1..] == rest
             else body[0] != ']' && ReadItems(body) == Some((items, rest))
    ensures Read(text) == Some((List(items), rest))
  {
    assert text[1..] == body && Skip(text) == text && Skip(body) == body;
  }

  lemma ReadDictText(text: string, body: string, es: Entries, rest: string)
    requires text == ['{'] + body && body != [] && !IsBlank(body[0])
    requires if es.Empty? then body[0] == '}' && body[1..] == rest
             else body[0] != '}' && ReadEntries(body, Empty) == Some((es, rest))
    ensures Read(text) == Some((Dict(es), rest))
  {
    assert text[1..] == body && Skip(text) == text && Skip(body) == body;
  }

  lemma BracketText(open: char, inner: string, close: char, rest: string)
    ensures [open] + inner + [close] + rest == [open] + (inner + [close] + rest)
    ensures inner != [] ==> (inner + [close] + rest)[0] == inner[0]
    ensures inner == [] ==> inner + [close] + rest == [close] + rest && (inner + [close] + rest)[1..] == rest
  {
  }

  lemma ReadBracketed(inner: string, items: Values, rest: string)
    requires if items.Nil? then inner == []
             else inner != [] && !IsBlank(inner[0]) && inner[0] != ']' && ReadItems(inner + "]" + rest) == Some((items, rest))
    ensures Read("[" + inner + "]" + rest) == Some((List(items), rest))
  {
    BracketText('[', inner, ']', rest);
    var body := inner + "]" + rest;
    assert !IsBlank(']') && body[0] == if inner == [] then ']' else inner[0];
    ReadListText("[" + inner + "]" + rest, body, items, rest);
  }

  lemma ListRoundTrip(items: Values, rest: string)
    requires AllNormal(items)
    requires items.Cons? ==> ReadItems(RenderItems(items) + "]" + rest) == Some((items, rest))
    ensures Read(Render(List(items)) + rest) == Some((List(items), rest))
  {
    if items.Cons? {
      ItemsStart(items);
    }
    ReadBracketed(RenderItems(items), items, rest);
  }

  lemma ReadBraced(inner: string, es: Entries, rest: string)
    requires if es.Empty? then inner == []
             else inner != [] && inner[0] == QUOTE && ReadEntries(inner + "}" + rest, Empty) == Some((es, rest))
    ensures Read("{" + inner + "}" + rest) == Some((Dict(es), rest))
  {
    BracketText('{', inner, '}', rest);
    var body := inner + "}" + rest;
    assert !IsBlank('}') && body[0] == if inner == [] then '}' else inner[0];
    ReadDictText("{" + inner + "}" + rest, body, es, rest);
  }

  lemma DictRoundTrip(es: Entries, rest: string)
    requires EntriesNormal(es)
    requires es.Entry? ==> ReadEntries(RenderEntries(es) + "}" + rest, Empty) == Some((es, rest))
    ensures Read(Render(Dict(es)) + rest) == Some((Dict(es), rest))
  {
    if es.Entry? {
      EntriesStart(es, []);
    }
    ReadBraced(RenderEntries(es), es, rest);
  }

  lemma ReadScalarAt(text: string, r: Option<(Value, string)>)
    requires text != [] && !IsBlank(text[0]) && text[0] != QUOTE && text[0] != '[' && text[0] != '{'
    requires ReadScalar(text) == r
    ensures Read(text) == r
  {
    assert Skip(text) == text;
  }

  lemma IntRoundTrip(n: int, rest: string)
    requires EndsValue(rest)
    ensures Read(Render(Int(n)) + rest) == Some((Int(n), rest))
  {
    NumberRoundTrip(n, rest);
    assert (IntText(n) + rest)[0] == IntText(n)[0];
    ReadScalarAt(IntText(n) + rest, Some((Int(n), rest)));
  }

  lemma {:induction false} RoundTrip(v: Value, rest: string)
    requires Normal(v) && ProperDicts(v) && EndsValue(rest)
    ensures Read(Render(v) + rest) == Some((v, rest))
    decreases v, 1
  {
    match v
    case Null => LiteralRoundTrip(v, rest);
    case Bool(_) => LiteralRoundTrip(v, rest);
    case Int(n) => IntRoundTrip(n, rest);
    case Str(s) => TextRoundTrip(s, rest);
    case List(items) =>
      if items.Cons? {
        ItemsRoundTrip(items, rest);
      }
      ListRoundTrip(items, rest);
    case Dict(entries) =>
      if entries.Entry? {
        EntriesRoundTrip(entries, Empty, rest);
      }
      DictRoundTrip(entries, rest);
  }

  lemma ItemsStart(items: Values)
    requires items.Cons? && AllNormal(items)
    ensures var text := RenderItems(items); text != [] && !IsBlank(text[0]) && text[0] != ']'
  {
    RenderStarts(items.head);
  }

  lemma EntriesStart(es: Entries, rest: string)
    requires es.Entry? && EntriesNormal(es)
    ensures var text := RenderEntries(es) + rest; text != [] && text[0] == QUOTE
  {
  }

  lemma {:induction false} ItemsRoundTrip(items: Values, rest: string)
    requires items.Cons? && AllNormal(items) && AllProper(items)
    ensures ReadItems(RenderItems(items) + "]" + rest) == Some((items, rest))
    decreases items, 0
  {
    var text := RenderItems(items) + "]" + rest;
    if items.tail.Nil? {
      assert text == Render(items.head) + ("]" + rest);
      RoundTrip(items.head, "]" + rest);
      assert ("]" + rest)[1..] == rest;
    } else {
      var more := RenderItems(items.tail) + "]" + rest;
      assert text == Render(items.head) + ("," + more);
      RoundTrip(items.head, "," + more);
      ItemsRoundTrip(items.tail, rest);
      assert ("," + more)[1..] == more;
    }
  }

  lemma ReadEntryText(text: string, afterQuote: string, key: string, body: string, v: Value, done: Entries, after: string)
    requires text == [QUOTE] + afterQuote && ReadString(afterQuote) == Some((key, [':'] + body))
    requires Read(body) == Some((v, after)) && after != [] && (after[0] == '}' || after[0] == ',')
    requires !HasKey(done, StrKey(key))
    ensures var more := Append(done, Entry(StrKey(key), v, Empty));
            ReadEntries(text, done)
            == if after[0] == '}' then Some((more, after[1..])) else ReadEntries(Skip(after[1..]), more)
  {
    var afterKey := [':'] + body;
    assert text[1..] == afterQuote && Skip(afterKey) == afterKey && afterKey[1..] == body && Skip(after) == after;
    PutAppends(done, StrKey(key), v);
  }

  lemma EntryRoundTrip(key: string, v: Value, done: Entries, after: string)
    requires Normal(v) && !HasKey(done, StrKey(key)) && after != [] && (after[0] == '}' || after[0] == ',')
    requires Read(Render(v) + after) == Some((v, after))
    ensures var more := Append(done, Entry(StrKey(key), v, Empty));
            ReadEntries(StringText(key) + ":" + Render(v) + after, done)
            == if after[0] == '}' then Some((more, after[1..])) else ReadEntries(Skip(after[1..]), more)
  {
    hide ReadString, Read, ReadEntries, EscapeAll, Render, Put, Append;
    var body := Render(v) + after;
    var afterQuote := EscapeAll(key) + [QUOTE] + ([':'] + body);
    var text := StringText(key) + ":" + Render(v) + after;
    assert text == [QUOTE] + afterQuote;
    StringRoundTrip(key, [':'] + body);
    ReadEntryText(text, afterQuote, key, body, v, done, after);
  }

  lemma LastEntry(es: Entries, done: Entries, rest: string)
    requires es.Entry? && es.rest.Empty? && EntriesNormal(es) && !HasKey(done, es.key)
    requires Read(Render(es.value) + ("}" + rest)) == Some((es.value, "}" + rest))
    ensures ReadEntries(RenderEntries(es) + "}" + rest, done) == Some((Append(done, es), rest))
  {
    var after := "}" + rest;
    EntryRoundTrip(es.key.s, es.value, done, after);
    assert RenderEntries(es) + "}" + rest == StringText(es.key.s) + ":" + Render(es.value) + after;
    assert after[1..] == rest;
  }

  lemma NextText(es: Entries, rest: string)
    requires es.Entry? && es.rest.Entry? && EntriesNormal(es)
    ensures var tail := RenderEntries(es.rest) + "}" + rest;
            && RenderEntries(es) + "}" + rest == StringText(es.key.s) + ":" + Render(es.value) + ("," + tail)
            && tail != [] && tail[0] == QUOTE
  {
    EntriesStart(es.rest, "}" + rest);
    assert RenderEntries(es.rest) + "}" + rest == RenderEntries(es.rest) + ("}" + rest);
  }

  lemma NextEntry(es: Entries, done: Entries, rest: string)
    requires es.Entry? && es.rest.Entry? && EntriesNormal(es) && !HasKey(done, es.key)
    requires var after := "," + (RenderEntries(es.rest) + "}" + rest);
             Read(Render(es.value) + after) == Some((es.value, after))
    ensures ReadEntries(RenderEntries(es) + "}" + rest, done)
         == ReadEntries(RenderEntries(es.rest) + "}" + rest, Append(done, Entry(es.key, es.value, Empty)))
  {
    var tail := RenderEntries(es.rest) + "}" + rest;
    var after := "," + tail;
    NextText(es, rest);
    EntryRoundTrip(es.key.s, es.value, done, after);
    assert after[1..] == tail && Skip(tail) == tail;
  }

  lemma {:induction false} EntriesRoundTrip(es: Entries, done: Entries, rest: string)
    requires es.Entry? && EntriesNormal(es) && EntriesProper(es) && DistinctKeys(es)
    requires forall key :: HasKey(es, key) ==> !HasKey(done, key)
    ensures ReadEntries(RenderEntries(es) + "}" + rest, done) == Some((Append(done, es), rest))
    decreases es, 0
  {
    if es.rest.Empty? {
      RoundTrip(es.value, "}" + rest);
      LastEntry(es, done, rest);
    } else {
      var one := Entry(es.key, es.value, Empty);
      RoundTrip(es.value, "," + (RenderEntries(es.rest) + "}" + rest));
      NextEntry(es, done, rest);
      forall key | HasKey(es.rest, key)
        ensures !HasKey(Append(done, one), key)
      {
        AppendHasKey(done, one, key);
      }
      EntriesRoundTrip(es.rest, Append(done, one), rest);
      AppendJoins(done, one, es.rest);
    }
  }

  /** Reading the text of a normal value gives the value back, its entries in their order. */
  lemma LoadRendered(v: Value)
    requires Normal(v) && ProperDicts(v)
    ensures Load(Render(v)) == Some(v)
  {
    RoundTrip(v, []);
    assert Render(v) + [] == Render(v);
  }

  // ----- whatever is read lists no key twice -------------------------------------------

  lemma {:induction false} PutKeepsProper(es: Entries, key: Key, value: Value)
    requires DistinctKeys(es) && EntriesProper(es) && ProperDicts(value)
    ensures DistinctKeys(Put(es, key, value)) && EntriesProper(Put(es, key, value))
    ensures forall k :: HasKey(Put(es, key, value), k) <==> k == key || HasKey(es, k)
  {
    if es.Entry? && es.key != key {
      PutKeepsProper(es.rest, key, value);
    }
  }

  lemma {:induction false} ReadIsProper(text: string)
    ensures Read(text).Some? ==> ProperDicts(Read(text).value.0)
    decreases |text|, 0
  {
    hide ReadScalar, ReadString, ReadItems, ReadEntries, ProperDicts;
    var t := Skip(text);
    if t != [] && t[0] == '[' {
      ReadItemsAreProper(Skip(t[1..]));
    } else if t != [] && t[0] == '{' {
      ReadEntriesAreProper(Skip(t[1..]), Empty);
    }
    ReadValueIsProper(text);
  }

  /** A value read is a scalar or made of the items or entries read. */
  lemma ReadValueIsProper(text: string)
    requires var t := Skip(text);
      && (t != [] && t[0] == '[' && ReadItems(Skip(t[1..])).Some? ==> AllProper(ReadItems(Skip(t[1..])).value.0))
      && (t != [] && t[0] == '{' && ReadEntries(Skip(t[1..]), Empty).Some? ==>
            var es := ReadEntries(Skip(t[1..]), Empty).value.0; DistinctKeys(es) && EntriesProper(es))
    ensures Read(text).Some? ==> ProperDicts(Read(text).value.0)
  {
    hide ReadString, ReadItems, ReadEntries, Skip, ReadNumber;
    ScalarIsProper(Skip(text));
  }

  lemma ScalarIsProper(text: string)
    ensures text != [] && ReadScalar(text).Some? ==> ProperDicts(ReadScalar(text).value.0)
  {
    hide ReadNat, SkipFraction, SkipExponent;
  }

  lemma {:induction false} ReadItemsAreProper(text: string)
    ensures ReadItems(text).Some? ==> AllProper(ReadItems(text).value.0)
    decreases |text|, 1
  {
    hide Read, ProperDicts;
    ReadIsProper(text);
    if Read(text).Some? {
      var t := Skip(Read(text).value.1);
      if t != [] && t[0] == ',' {
        ReadItemsAreProper(t[1..]);
      }
    }
  }

  lemma {:induction false} ReadEntriesAreProper(text: string, done: Entries)
    requires DistinctKeys(done) && EntriesProper(done)
    ensures ReadEntries(text, done).Some? ==>
              DistinctKeys(ReadEntries(text, done).value.0) && EntriesProper(ReadEntries(text, done).value.0)
    decreases |text|, 1
  {
    hide Read, ReadString, ProperDicts, EntriesProper, DistinctKeys, Put;
    if text != [] && text[0] == QUOTE && ReadString(text[1..]).Some? {
      var (key, afterKey) := ReadString(text[1..]).value;
      var t := Skip(afterKey);
      if t != [] && t[0] == ':' && Read(t[1..]).Some? {
        ReadIsProper(t[1..]);
        var (v, afterValue) := Read(t[1..]).value;
        PutKeepsProper(done, StrKey(key), v);
        var u := Skip(afterValue);
        if u != [] && u[0] == ',' {
          ReadEntriesAreProper(Skip(u[1..]), Put(done, StrKey(key), v));
        }
      }
    }
  }

  /** Loading keeps the last of repeated keys, so no loaded dictionary lists one twice. */
  lemma LoadedIsProper(text: string)
    ensures Load(text).Some? ==> ProperDicts(Load(text).value)
  {
    hide Read;
    ReadIsProper(text);
  }
}
