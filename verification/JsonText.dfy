/** Writing and reading JSON text: digits, strings and values (sections 6 and 7 of RFC 8259). */
module JsonText {
  import opened Options

  // ----- values ------------------------------------------------------------------------

  datatype Decimal = Finite(negative: bool, coefficient: nat, exponent: int) | NonFinite

  /** An instant by its UTC calendar fields; `aware` tells whether a zone was attached. */
  datatype Instant = Instant(aware: bool, year: nat, month: nat, day: nat, hour: nat, minute: nat, second: nat, micro: nat)

  datatype Day = Day(year: nat, month: nat, day: nat)

  /** The values a snapshot payload can hold. Dictionaries keep insertion order. */
  datatype Value =
    | Null | Bool(b: bool) | Int(n: int) | Str(s: string) | Float
    | Dec(decimal: Decimal) | Timestamp(instant: Instant) | Date(date: Day)
    | Dict(entries: Entries) | List(items: Values) | Tuple(items: Values) | Other

  datatype Values = Nil | Cons(head: Value, tail: Values)

  datatype Key = StrKey(s: string) | OtherKey

  datatype Entries = Empty | Entry(key: Key, value: Value, rest: Entries)

  // ----- digits ------------------------------------------------------------------------

  function Digit(d: nat): (c: char)
    requires d < 10
    ensures IsDigit(c) && DigitValue(c) == d
  {
    '0' + d as char
  }

  predicate IsDigit(c: char) {
    '0' <= c <= '9'
  }

  function DigitValue(c: char): nat
    requires IsDigit(c)
  {
    (c as int) - ('0' as int)
  }

  predicate AllDigits(s: string) {
    forall i :: 0 <= i < |s| ==> IsDigit(s[i])
  }

  function NatText(n: nat): (s: string)
    ensures s != [] && AllDigits(s) && (s[0] == '0' <==> n == 0) && (n == 0 ==> s == "0")
  {
    if n < 10 then [Digit(n)] else NatText(n / 10) + [Digit(n % 10)]
  }

  function NatValue(s: string): nat
    requires AllDigits(s)
  {
    if s == [] then 0 else 10 * NatValue(s[..|s| - 1]) + DigitValue(s[|s| - 1])
  }

  lemma {:induction false} NatRoundTrip(n: nat)
    ensures NatValue(NatText(n)) == n
  {
    if n >= 10 {
      NatRoundTrip(n / 10);
      var s := NatText(n);
      assert s[..|s| - 1] == NatText(n / 10);
    } else {
      assert NatText(n)[..0] == [];
    }
  }

  function IntText(n: int): string {
    if n < 0 then "-" + NatText(-n) else NatText(n)
  }

  /** How many characters at the front are digits. */
  function DigitRun(text: string): (k: nat)
    ensures k <= |text| && AllDigits(text[..k])
    ensures k < |text| ==> !IsDigit(text[k])
  {
    if text == [] || !IsDigit(text[0]) then 0
    else
      var k := DigitRun(text[1..]);
      assert forall i :: 0 < i <= k ==> text[i] == text[1..][i - 1];
      1 + k
  }

  lemma {:induction false} DigitRunStops(digits: string, rest: string)
    requires AllDigits(digits) && (rest == [] || !IsDigit(rest[0]))
    ensures DigitRun(digits + rest) == |digits|
    decreases digits
  {
    if digits == [] {
      assert digits + rest == rest;
    } else {
      assert (digits + rest)[1..] == digits[1..] + rest;
      DigitRunStops(digits[1..], rest);
    }
  }

  // ----- strings -----------------------------------------------------------------------

  const QUOTE := '\"'
  const BACKSLASH := '\\'
  const BACKSPACE := '\U{8}'
  const FORM_FEED := '\U{c}'

  function HexDigit(d: nat): (c: char)
    requires d < 16
  {
    if d < 10 then '0' + d as char else 'a' + (d - 10) as char
  }

  function HexValue(c: char): Option<nat> {
    if IsDigit(c) then Some(DigitValue(c))
    else if 'a' <= c <= 'f' then Some((c as int) - ('a' as int) + 10)
    else if 'A' <= c <= 'F' then Some((c as int) - ('A' as int) + 10)
    else None
  }

  /** The text of one character inside a JSON string; characters outside ASCII stay as they are. */
  function Escape(c: char): (s: string)
    ensures s != []
  {
    if c == QUOTE then [BACKSLASH, QUOTE]
    else if c == BACKSLASH then [BACKSLASH, BACKSLASH]
    else if c == '\n' then [BACKSLASH, 'n']
    else if c == '\r' then [BACKSLASH, 'r']
    else if c == '\t' then [BACKSLASH, 't']
    else if c == FORM_FEED then [BACKSLASH, 'f']
    else if c == BACKSPACE then [BACKSLASH, 'b']
    else if c < ' ' then [BACKSLASH, 'u', '0', '0', HexDigit(c as int / 16), HexDigit(c as int % 16)]
    else [c]
  }

  function EscapeAll(s: string): string {
    if s == [] then [] else Escape(s[0]) + EscapeAll(s[1..])
  }

  function StringText(s: string): string {
    [QUOTE] + EscapeAll(s) + [QUOTE]
  }

  /** One character of a string body and what follows it; nothing for malformed text. */
  function ReadChar(text: string): (r: Option<(char, string)>)
    requires text != []
    ensures r.Some? ==> |r.value.1| < |text|
  {
    if text[0] != BACKSLASH then
      if text[0] < ' ' then None else Some((text[0], text[1..]))
    else if |text| < 2 then None
    else
      var c, rest := text[1], text[2..];
      if c == QUOTE || c == BACKSLASH || c == '/' then Some((c, rest))
      else if c == 'n' then Some(('\n', rest))
      else if c == 'r' then Some(('\r', rest))
      else if c == 't' then Some(('\t', rest))
      else if c == 'f' then Some((FORM_FEED, rest))
      else if c == 'b' then Some((BACKSPACE, rest))
      else if c == 'u' && |rest| >= 4 then
        match (HexValue(rest[0]), HexValue(rest[1]), HexValue(rest[2]), HexValue(rest[3]))
        case (Some(a), Some(b), Some(d), Some(e)) =>
          var code := ((a * 16 + b) * 16 + d) * 16 + e;
          if 0xD800 <= code < 0xE000 || code >= 0x10000 then None else Some((code as char, rest[4..]))
        case _ => None
      else None
  }

  /** The rest of a string after its opening quote. */
  function ReadString(text: string): (r: Option<(string, string)>)
    ensures r.Some? ==> |r.value.1| < |text|
    decreases |text|
  {
    if text == [] then None
    else if text[0] == QUOTE then Some(([], text[1..]))
    else
      match ReadChar(text)
      case None => None
      case Some((c, more)) =>
        match ReadString(more)
        case None => None
        case Some((s, rest)) => Some(([c] + s, rest))
  }

  lemma HexRoundTrip(d: nat)
    requires d < 16
    ensures HexValue(HexDigit(d)) == Some(d)
  {
  }

  lemma CharRoundTrip(c: char, rest: string)
    ensures ReadChar(Escape(c) + rest) == Some((c, rest)) && (Escape(c) + rest)[0] != QUOTE
  {
    if c < ' ' {
      HexRoundTrip(c as int / 16);
      HexRoundTrip(c as int % 16);
      HexRoundTrip(0);
      assert c as int < 32;
    }
    assert (Escape(c) + rest)[|Escape(c)|..] == rest;
  }

  lemma ReadOneMore(text: string, c: char, more: string, s: string, rest: string)
    requires text != [] && text[0] != QUOTE && ReadChar(text) == Some((c, more)) && ReadString(more) == Some((s, rest))
    ensures ReadString(text) == Some(([c] + s, rest))
  {
  }

  lemma EscapeOneMore(s: string, rest: string)
    requires s != []
    ensures EscapeAll(s) + [QUOTE] + rest == Escape(s[0]) + (EscapeAll(s[1..]) + [QUOTE] + rest)
  {
  }

  lemma {:induction false} StringRoundTrip(s: string, rest: string)
    ensures ReadString(EscapeAll(s) + [QUOTE] + rest) == Some((s, rest))
    decreases s
  {
    if s == [] {
      assert EscapeAll(s) + [QUOTE] + rest == [QUOTE] + rest;
    } else {
      hide Escape, EscapeAll, ReadChar, ReadString;
      var text, more := EscapeAll(s) + [QUOTE] + rest, EscapeAll(s[1..]) + [QUOTE] + rest;
      EscapeOneMore(s, rest);
      CharRoundTrip(s[0], more);
      StringRoundTrip(s[1..], rest);
      assert [s[0]] + s[1..] == s;
      ReadOneMore(text, s[0], more, s[1..], rest);
    }
  }

  /** The character may stand for itself inside a JSON string. */
  predicate Plain(c: char) {
    c >= ' ' && c != QUOTE && c != BACKSLASH
  }

  lemma {:induction false} EscapeIsLonger(s: string)
    ensures |EscapeAll(s)| >= |s|
    ensures |EscapeAll(s)| == |s| ==> forall i :: 0 <= i < |s| ==> Plain(s[i])
  {
    if s != [] {
      EscapeIsLonger(s[1..]);
      assert |Escape(s[0])| == 1 ==> Plain(s[0]);
      assert forall i :: 0 < i < |s| ==> s[i] == s[1..][i - 1];
    }
  }

  lemma {:induction false} PlainTextStands(s: string)
    requires forall i :: 0 <= i < |s| ==> Plain(s[i])
    ensures EscapeAll(s) == s
  {
    if s != [] {
      PlainTextStands(s[1..]);
      assert s == [s[0]] + s[1..];
    }
  }

  /** A text stands for itself exactly when no character of it has to be escaped; what lies outside ASCII has not. */
  lemma TextStandsIff(s: string)
    ensures StringText(s) == [QUOTE] + s + [QUOTE] <==> forall i :: 0 <= i < |s| ==> Plain(s[i])
  {
    if StringText(s) == [QUOTE] + s + [QUOTE] {
      assert |EscapeAll(s)| == |s|;
      EscapeIsLonger(s);
    } else if forall i :: 0 <= i < |s| ==> Plain(s[i]) {
      PlainTextStands(s);
    }
  }
}
