/** Reading and writing canonical fixed-point decimal text. */
module DecimalText {
  import opened Options
  import opened JsonText
  import Snapshots

  /** A canonical fixed-point text: a sign, an integer without leading zeros and a fraction. */
  datatype Parts = Parts(negative: bool, whole: string, part: string)

  predicate Whole(s: string) {
    s != [] && AllDigits(s) && (s[0] == '0' ==> |s| == 1)
  }

  predicate PartsOk(p: Parts) {
    Whole(p.whole) && AllDigits(p.part)
  }

  function Fraction(part: string): string {
    if part == [] then [] else ['.'] + part
  }

  function Body(p: Parts): string {
    p.whole + Fraction(p.part)
  }

  function Joined(p: Parts): string {
    if p.negative then ['-'] + Body(p) else Body(p)
  }

  /** Splits a text of the canonical form. */
  function Split(text: string): Option<Parts> {
    if text != [] && text[0] == '-' then SplitBody(true, text[1..]) else SplitBody(false, text)
  }

  function SplitBody(negative: bool, body: string): Option<Parts> {
    var k := DigitRun(body);
    SplitFraction(negative, body[..k], body[k..])
  }

  function SplitFraction(negative: bool, whole: string, rest: string): Option<Parts> {
    if !Whole(whole) then None
    else if rest == [] then Some(Parts(negative, whole, []))
    else if rest[0] == '.' && |rest| > 1 && AllDigits(rest[1..]) then Some(Parts(negative, whole, rest[1..]))
    else None
  }

  /** The decimal of the parts; a negative zero is none. */
  function Denoted(p: Parts): Option<Decimal>
    requires PartsOk(p)
  {
    var n := NatValue(p.whole + p.part);
    if p.negative && n == 0 then None else Some(Finite(p.negative, n, 0 - |p.part|))
  }

  /** The decimal a canonical text denotes: its digits, and as many places as it writes. */
  function Parse(text: string): Option<Decimal> {
    match Split(text)
    case None => None
    case Some(p) => SplitJoins(text); Denoted(p)
  }

  /** Text of a finite decimal without exponent notation. */
  function Canonical(d: Decimal): string
    requires d.Finite?
  {
    Snapshots.FixedText(d.negative, d.coefficient, d.exponent)
  }

  // ----- splitting and joining ---------------------------------------------------------

  lemma FractionSplits(negative: bool, whole: string, rest: string)
    ensures var p := SplitFraction(negative, whole, rest);
      p.Some? ==> PartsOk(p.value) && p.value.negative == negative && p.value.whole == whole && rest == Fraction(p.value.part)
  {
    if rest != [] {
      assert rest == [rest[0]] + rest[1..];
    }
  }

  lemma BodySplits(negative: bool, body: string)
    ensures var p := SplitBody(negative, body);
      p.Some? ==> PartsOk(p.value) && p.value.negative == negative && body == Body(p.value)
  {
    var k := DigitRun(body);
    FractionSplits(negative, body[..k], body[k..]);
    assert body == body[..k] + body[k..];
  }

  /** Whatever splits is joined from its parts. */
  lemma SplitJoins(text: string)
    ensures Split(text).Some? ==> PartsOk(Split(text).value) && text == Joined(Split(text).value)
  {
    if text != [] && text[0] == '-' {
      BodySplits(true, text[1..]);
      assert text == [text[0]] + text[1..];
    } else {
      BodySplits(false, text);
    }
  }

  lemma JoinedBodySplits(p: Parts)
    requires PartsOk(p)
    ensures SplitBody(p.negative, Body(p)) == Some(p)
  {
    var body, rest := Body(p), Fraction(p.part);
    DigitRunStops(p.whole, rest);
    assert body[..|p.whole|] == p.whole && body[|p.whole|..] == rest;
    assert p.part != [] ==> rest[1..] == p.part;
  }

  /** Joined parts split again. */
  lemma JoinedSplits(p: Parts)
    requires PartsOk(p)
    ensures Split(Joined(p)) == Some(p)
  {
    JoinedBodySplits(p);
    if p.negative {
      assert Joined(p)[1..] == Body(p);
    } else {
      assert Body(p)[0] == p.whole[0];
    }
  }

  // ----- digits and leading zeros ------------------------------------------------------

  lemma NatValueSnoc(s: string, c: char)
    requires AllDigits(s) && IsDigit(c)
    ensures AllDigits(s + [c]) && NatValue(s + [c]) == 10 * NatValue(s) + DigitValue(c)
  {
    assert (s + [c])[..|s|] == s;
  }

  lemma NatTextSnoc(n: nat, d: nat)
    requires d < 10
    ensures NatText(10 * n + d) == if n == 0 then [Digit(d)] else NatText(n) + [Digit(d)]
  {
    assert (10 * n + d) / 10 == n && (10 * n + d) % 10 == d;
  }

  /** The digits are `t` behind leading zeros. */
  predicate Padded(s: string, t: string) {
    |t| <= |s| && s == Snapshots.Zeros(|s| - |t|) + t
  }

  lemma PaddedSnoc(s: string, t: string, c: char)
    requires s != [] && t != [] && Padded(s, t)
    ensures Padded(s + [c], if t == "0" then [c] else t + [c])
  {
    var u := if t == "0" then [c] else t + [c];
    assert Snapshots.Zeros(|s + [c]| - |u|) + u == s + [c] by {
      assert |u| <= |s + [c]|;
      if t == "0" {
        assert s == Snapshots.Zeros(|s|);
      }
    }
  }

  /** Digits are their value's own text behind leading zeros. */
  lemma {:induction false} LeadingZeros(s: string)
    requires s != [] && AllDigits(s)
    ensures Padded(s, NatText(NatValue(s)))
  {
    var init, c := s[..|s| - 1], s[|s| - 1];
    var d := DigitValue(c);
    assert s == init + [c] && Digit(d) == c;
    NatValueSnoc(init, c);
    NatTextSnoc(NatValue(init), d);
    if init == [] {
      assert s == [c];
    } else {
      LeadingZeros(init);
      PaddedSnoc(init, NatText(NatValue(init)), c);
    }
  }

  lemma {:induction false} ZerosDoNotCount(z: nat, s: string)
    requires AllDigits(s)
    ensures AllDigits(Snapshots.Zeros(z) + s) && NatValue(Snapshots.Zeros(z) + s) == NatValue(s)
    decreases |s|, z
  {
    if s != [] {
      var init, c := s[..|s| - 1], s[|s| - 1];
      ZerosDoNotCount(z, init);
      assert Snapshots.Zeros(z) + s == (Snapshots.Zeros(z) + init) + [c] && s == init + [c];
      NatValueSnoc(Snapshots.Zeros(z) + init, c);
      NatValueSnoc(init, c);
    } else if z > 0 {
      ZerosDoNotCount(z - 1, s);
      assert Snapshots.Zeros(z) + s == (Snapshots.Zeros(z - 1) + s) + ['0'];
      NatValueSnoc(Snapshots.Zeros(z - 1) + s, '0');
    }
  }

  /** A number followed by zeros is the number times a power of ten. */
  function TimesTen(n: nat, zeros: nat): nat {
    if zeros == 0 then n else 10 * TimesTen(n, zeros - 1)
  }

  lemma {:induction false} TrailingZeros(s: string, z: nat)
    requires AllDigits(s)
    ensures AllDigits(s + Snapshots.Zeros(z)) && NatValue(s + Snapshots.Zeros(z)) == TimesTen(NatValue(s), z)
  {
    if z == 0 {
      assert s + Snapshots.Zeros(0) == s;
    } else {
      TrailingZeros(s, z - 1);
      assert s + Snapshots.Zeros(z) == (s + Snapshots.Zeros(z - 1)) + ['0'];
      NatValueSnoc(s + Snapshots.Zeros(z - 1), '0');
    }
  }

  lemma {:induction false} ZeroTimesTen(z: nat)
    ensures TimesTen(0, z) == 0
  {
    if z > 0 {
      ZeroTimesTen(z - 1);
    }
  }

  // ----- round trips -------------------------------------------------------------------

  /** The parts of a decimal with places, given its digits. */
  function PartsOf(negative: bool, digits: string, places: nat): Parts {
    if |digits| > places then Parts(negative, digits[..|digits| - places], digits[|digits| - places..])
    else Parts(negative, "0", Snapshots.Zeros(places - |digits|) + digits)
  }

  lemma LongDigits(negative: bool, digits: string, places: nat)
    requires |digits| > places && AllDigits(digits) && (digits[0] == '0' ==> |digits| == 1)
    ensures var p := PartsOf(negative, digits, places);
      PartsOk(p) && |p.part| == places && p.whole + p.part == digits
  {
  }

  lemma ShortDigits(negative: bool, digits: string, places: nat)
    requires |digits| <= places && AllDigits(digits)
    ensures var p := PartsOf(negative, digits, places);
      PartsOk(p) && |p.part| == places && p.whole + p.part == Snapshots.Zeros(places - |digits| + 1) + digits
  {
  }

  lemma PartsAreDigits(negative: bool, digits: string, places: nat)
    requires digits != [] && AllDigits(digits) && (digits[0] == '0' ==> |digits| == 1)
    ensures var p := PartsOf(negative, digits, places);
      PartsOk(p) && |p.part| == places && NatValue(p.whole + p.part) == NatValue(digits)
  {
    if |digits| > places {
      LongDigits(negative, digits, places);
    } else {
      ShortDigits(negative, digits, places);
      ZerosDoNotCount(places - |digits| + 1, digits);
    }
  }

  lemma PointedIsJoined(negative: bool, digits: string, places: nat)
    requires digits != [] && AllDigits(digits)
    ensures Snapshots.Pointed(negative, digits, |digits| - places) == Joined(PartsOf(negative, digits, places))
  {
    var p, point := PartsOf(negative, digits, places), |digits| - places;
    assert Snapshots.WholePart(digits, point) == p.whole;
    assert Snapshots.FractionPart(digits, point) == p.part by {
      assert point == 0 ==> Snapshots.Zeros(0) + digits == digits[0..];
    }
  }

  lemma CanonicalIsJoined(negative: bool, n: nat, places: nat)
    ensures Canonical(Finite(negative, n, 0 - places)) == Joined(PartsOf(negative, NatText(n), places))
  {
    hide PartsOf, Joined, Snapshots.Pointed;
    var digits, exponent := NatText(n), 0 - places;
    assert |digits| + exponent == |digits| - places;
    PointedIsJoined(negative, digits, places);
  }

  lemma DigitsDenote(negative: bool, n: nat, places: nat)
    ensures var p := PartsOf(negative, NatText(n), places);
      PartsOk(p) && Denoted(p) == if negative && n == 0 then None else Some(Finite(negative, n, 0 - places))
  {
    NatRoundTrip(n);
    PartsAreDigits(negative, NatText(n), places);
  }

  predicate NegativeZero(d: Decimal)
    requires d.Finite?
  {
    d.negative && d.coefficient == 0
  }

  /** Reading back the text of a decimal with places gives that very decimal, unless it is a negative zero. */
  lemma CanonicalParses(negative: bool, n: nat, places: nat)
    ensures var d := Finite(negative, n, 0 - places); Parse(Canonical(d)) == if NegativeZero(d) then None else Some(d)
  {
    var p := PartsOf(negative, NatText(n), places);
    DigitsDenote(negative, n, places);
    CanonicalIsJoined(negative, n, places);
    JoinedSplits(p);
  }

  lemma PointedWhole(negative: bool, digits: string, zeros: nat)
    requires digits != [] && AllDigits(digits)
    ensures Snapshots.Pointed(negative, digits, |digits| + zeros) ==
              Joined(Parts(negative, digits + Snapshots.Zeros(zeros), []))
  {
    assert Snapshots.WholePart(digits, |digits| + zeros) == digits + Snapshots.Zeros(zeros) by {
      assert digits[..|digits|] == digits + Snapshots.Zeros(0);
    }
    assert Snapshots.FractionPart(digits, |digits| + zeros) == [];
  }

  lemma ZerosDenote(negative: bool, n: nat, zeros: nat)
    requires n == 0 ==> zeros == 0
    ensures var p := Parts(negative, NatText(n) + Snapshots.Zeros(zeros), []);
      PartsOk(p) && Denoted(p) == if negative && n == 0 then None else Some(Finite(negative, TimesTen(n, zeros), 0))
  {
    var whole := NatText(n) + Snapshots.Zeros(zeros);
    NatRoundTrip(n);
    TrailingZeros(NatText(n), zeros);
    TimesTenGrows(n, zeros);
    assert whole + [] == whole;
  }

  /** A positive exponent is written out in zeros; the value stays. */
  lemma WholeNumbersParse(negative: bool, n: nat, zeros: nat)
    requires zeros > 0
    ensures var d := Finite(negative, n, zeros);
      Parse(Canonical(d)) == if NegativeZero(d) then None else Some(Finite(negative, TimesTen(n, zeros), 0))
  {
    var z := if n == 0 then 0 else zeros;
    ZerosDenote(negative, n, z);
    ZeroTimesTen(zeros);
    PointedWhole(negative, NatText(n), z);
    JoinedSplits(Parts(negative, NatText(n) + Snapshots.Zeros(z), []));
  }

  lemma {:induction false} TimesTenGrows(n: nat, zeros: nat)
    ensures TimesTen(n, zeros) >= n
  {
    if zeros > 0 {
      TimesTenGrows(n, zeros - 1);
    }
  }

  /** A whole part is a lone zero or adds no leading zero, so the value fixes the length. */
  lemma NoLeadingZeros(whole: string, part: string, n: string)
    requires Whole(whole) && n != [] && Padded(whole + part, n)
    ensures |whole + part| == if |n| <= |part| then |part| + 1 else |n|
  {
    if |whole + part| > |n| {
      assert (whole + part)[0] == '0';
    }
  }

  lemma SplitAtEnd(whole: string, part: string, w: string, p: string)
    requires whole + part == w + p && |part| == |p|
    ensures whole == w && part == p
  {
    assert |whole| == |whole + part| - |part| == |w|;
    assert whole == (whole + part)[..|whole|] && part == (whole + part)[|whole|..];
    assert w == (w + p)[..|w|] && p == (w + p)[|w|..];
  }

  /** Two splittings of equal value with equally many places are the same. */
  lemma PartsAreUnique(a: Parts, b: Parts)
    requires PartsOk(a) && PartsOk(b) && |a.part| == |b.part|
    requires NatValue(a.whole + a.part) == NatValue(b.whole + b.part)
    ensures a.whole == b.whole && a.part == b.part
  {
    LeadingZeros(a.whole + a.part);
    LeadingZeros(b.whole + b.part);
    var n := NatText(NatValue(a.whole + a.part));
    NoLeadingZeros(a.whole, a.part, n);
    NoLeadingZeros(b.whole, b.part, n);
    SplitAtEnd(a.whole, a.part, b.whole, b.part);
  }

  lemma PartsAreTheirDigits(p: Parts, digits: string)
    requires PartsOk(p) && digits == NatText(NatValue(p.whole + p.part))
    ensures p == PartsOf(p.negative, digits, |p.part|)
  {
    NatRoundTrip(NatValue(p.whole + p.part));
    PartsAreDigits(p.negative, digits, |p.part|);
    PartsAreUnique(p, PartsOf(p.negative, digits, |p.part|));
  }

  lemma PartsAreCanonical(p: Parts)
    requires PartsOk(p)
    ensures Canonical(Finite(p.negative, NatValue(p.whole + p.part), 0 - |p.part|)) == Joined(p)
  {
    var n := NatValue(p.whole + p.part);
    PartsAreTheirDigits(p, NatText(n));
    CanonicalIsJoined(p.negative, n, |p.part|);
  }

  /** Accepted text is canonical: writing the parsed decimal gives the very same text. */
  lemma ParsedTextIsCanonical(text: string)
    requires Parse(text).Some?
    ensures Parse(text).value.Finite? && !NegativeZero(Parse(text).value) && Canonical(Parse(text).value) == text
  {
    SplitJoins(text);
    PartsAreCanonical(Split(text).value);
  }

  // ----- decimal values as input -------------------------------------------------------

  /** The text of a decimal value is plain unless it has a positive exponent or starts far behind the point. */
  predicate Plain(d: Decimal)
    requires d.Finite?
  {
    d.exponent <= 0 && |NatText(d.coefficient)| + d.exponent > -6
  }

  /** The first digit, the others as a fraction, and the exponent. */
  function Scientific(negative: bool, digits: string, power: int): string
    requires digits != []
  {
    (if negative then ['-'] else [])
    + ([digits[0]] + ((if |digits| > 1 then ['.'] + digits[1..] else [])
                      + (['E'] + ((if power < 0 then ['-'] else ['+']) + NatText(if power < 0 then -power else power)))))
  }

  function ValueText(d: Decimal): string
    requires d.Finite?
  {
    var digits := NatText(d.coefficient);
    if Plain(d) then Canonical(d) else Scientific(d.negative, digits, d.exponent + |digits| - 1)
  }

  lemma ExponentsDoNotSplit(negative: bool, digits: string, tail: string)
    requires digits != [] && AllDigits(digits) && tail != [] && tail[0] == 'E'
    ensures SplitBody(negative, [digits[0]] + ((if |digits| > 1 then ['.'] + digits[1..] else []) + tail)) == None
  {
    var rest := (if |digits| > 1 then ['.'] + digits[1..] else []) + tail;
    var body := [digits[0]] + rest;
    DigitRunStops([digits[0]], rest);
    assert body[..1] == [digits[0]] && body[1..] == rest;
    if |digits| > 1 {
      assert rest[1..][|digits| - 1] == 'E';
    }
  }

  /** A decimal value is accepted as input exactly when its text is plain and it is no negative zero. */
  lemma DecimalInputIff(d: Decimal)
    requires d.Finite?
    ensures Parse(ValueText(d)) == if Plain(d) && !NegativeZero(d) then Some(d) else None
  {
    var digits := NatText(d.coefficient);
    if Plain(d) {
      var places := 0 - d.exponent;
      assert d == Finite(d.negative, d.coefficient, 0 - places);
      CanonicalParses(d.negative, d.coefficient, places);
    } else {
      var power := d.exponent + |digits| - 1;
      var tail := ['E'] + ((if power < 0 then ['-'] else ['+']) + NatText(if power < 0 then -power else power));
      var body := [digits[0]] + ((if |digits| > 1 then ['.'] + digits[1..] else []) + tail);
      ExponentsDoNotSplit(d.negative, digits, tail);
      var text := ValueText(d);
      assert text == (if d.negative then ['-'] else []) + body;
      if d.negative {
        assert text[1..] == body;
      } else {
        assert text == body && text[0] == digits[0];
      }
    }
  }

  /** A stored zero with twelve places is no accepted input, although it is a valid value. */
  lemma StoredZeroIsRefused()
    ensures Parse(ValueText(Finite(false, 0, -12))) == None && Parse(Canonical(Finite(false, 0, -12))).Some?
  {
    DecimalInputIff(Finite(false, 0, -12));
    CanonicalParses(false, 0, 12);
  }
}
