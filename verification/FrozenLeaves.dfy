/** What the leaves of a canonical text say: decimals, dates and instants read back, and equal texts denote the same. */
module FrozenLeaves {
  import opened Options
  import opened JsonText
  import opened Snapshots
  import opened DecimalText
  import opened DecimalValues

  // ----- decimals ----------------------------------------------------------------------

  /** The decimal a text spells, a negative zero included. */
  function ReadDecimal(text: string): Option<Decimal> {
    match Split(text)
    case None => None
    case Some(p) => SplitJoins(text); Some(Finite(p.negative, NatValue(p.whole + p.part), 0 - |p.part|))
  }

  /** A decimal with its positive exponent written out in zeros. */
  function WrittenOut(d: Decimal): (r: Decimal)
    requires d.Finite?
    ensures r.Finite? && r.exponent <= 0
  {
    if d.exponent > 0 then Finite(d.negative, TimesTen(d.coefficient, d.exponent), 0) else d
  }

  lemma WrittenOutKeepsValue(d: Decimal)
    requires d.Finite?
    ensures ValueOf(WrittenOut(d)) == ValueOf(d) && WrittenOut(d).negative == d.negative
  {
  }

  lemma PlacesReadBack(negative: bool, n: nat, places: nat)
    ensures ReadDecimal(Canonical(Finite(negative, n, 0 - places))) == Some(Finite(negative, n, 0 - places))
  {
    hide PartsOf, Joined, Split, Canonical;
    var p := PartsOf(negative, NatText(n), places);
    NatRoundTrip(n);
    PartsAreDigits(negative, NatText(n), places);
    CanonicalIsJoined(negative, n, places);
    JoinedSplits(p);
    PartsAreSigned(negative, NatText(n), places);
  }

  lemma PartsAreSigned(negative: bool, digits: string, places: nat)
    ensures PartsOf(negative, digits, places).negative == negative
  {
  }

  lemma ZerosReadBack(negative: bool, n: nat, zeros: nat)
    requires zeros > 0
    ensures ReadDecimal(Canonical(Finite(negative, n, zeros))) == Some(Finite(negative, TimesTen(n, zeros), 0))
  {
    hide Pointed, Joined, Split;
    var z := if n == 0 then 0 else zeros;
    var whole := NatText(n) + Zeros(z);
    NatRoundTrip(n);
    TrailingZeros(NatText(n), z);
    TimesTenGrows(n, z);
    ZeroTimesTen(zeros);
    PointedWhole(negative, NatText(n), z);
    JoinedSplits(Parts(negative, whole, []));
    assert whole + [] == whole;
  }

  /** The text of a decimal spells that decimal, its positive exponent written out. */
  lemma DecimalReadsBack(d: Decimal)
    requires d.Finite?
    ensures Normalise(Dec(d)).Some? && Normalise(Dec(d)).value.Str?
    ensures ReadDecimal(Normalise(Dec(d)).value.s) == Some(WrittenOut(d))
  {
    hide ReadDecimal, FixedText;
    if d.exponent > 0 {
      ZerosReadBack(d.negative, d.coefficient, d.exponent);
    } else {
      PlacesReadBack(d.negative, d.coefficient, 0 - d.exponent);
    }
  }

  /** The accepted form of that text has the decimal's value; only a negative zero has none. */
  lemma DecimalParsesBack(d: Decimal)
    requires d.Finite?
    ensures Normalise(Dec(d)).Some? && Normalise(Dec(d)).value.Str?
    ensures var r := Parse(Normalise(Dec(d)).value.s);
      if NegativeZero(d) then r == None
      else r.Some? && r.value.Finite? && ValueOf(r.value) == ValueOf(d) && (d.exponent <= 0 ==> r.value == d)
  {
    hide FixedText, Parse;
    WrittenOutKeepsValue(d);
    if d.exponent > 0 {
      WholeNumbersParse(d.negative, d.coefficient, d.exponent);
    } else {
      CanonicalParses(d.negative, d.coefficient, 0 - d.exponent);
    }
  }

  /** A text that spells a decimal is that decimal's own text. */
  lemma SpelledIsText(text: string)
    requires ReadDecimal(text).Some?
    ensures ReadDecimal(text).value.Finite? && Canonical(ReadDecimal(text).value) == text
  {
    SplitJoins(text);
    PartsAreCanonical(Split(text).value);
  }

  /** The text depends only on the decimal with its exponent written out. */
  lemma TextOfWrittenOut(d: Decimal)
    requires d.Finite?
    ensures Canonical(WrittenOut(d)) == Canonical(d)
  {
    hide ReadDecimal, FixedText;
    DecimalReadsBack(d);
    SpelledIsText(Canonical(d));
  }

  // ----- dates and instants ------------------------------------------------------------

  lemma PaddedReadsBack(n: nat, width: nat)
    ensures NatValue(Snapshots.Padded(n, width)) == n
  {
    var digits := NatText(n);
    NatRoundTrip(n);
    ZerosDoNotCount(if |digits| < width then width - |digits| else 0, digits);
  }

  lemma {:induction false} NatTextLength(n: nat, width: nat)
    requires width > 0 && n < TimesTen(1, width)
    ensures |NatText(n)| <= width
  {
    if n >= 10 {
      assert width > 1;
      NatTextLength(n / 10, width - 1);
    }
  }

  lemma PaddedWidth(n: nat, width: nat)
    requires width > 0 && n < TimesTen(1, width)
    ensures |Snapshots.Padded(n, width)| == width
  {
    NatTextLength(n, width);
  }

  lemma Widths()
    ensures TimesTen(1, 2) == 100 && TimesTen(1, 4) == 10000 && TimesTen(1, 6) == 1000000
  {
    assert TimesTen(1, 0) == 1 && TimesTen(1, 1) == 10;
    assert TimesTen(1, 3) == 1000 && TimesTen(1, 5) == 100000;
  }

  /** The digits of `text` from `start` on spell the number. */
  predicate Spells(text: string, start: nat, width: nat, n: nat) {
    start + width <= |text| && AllDigits(text[start..start + width]) && NatValue(text[start..start + width]) == n
  }

  lemma PieceSpells(before: string, n: nat, width: nat, after: string)
    requires width > 0 && n < TimesTen(1, width)
    ensures Spells(before + Snapshots.Padded(n, width) + after, |before|, width, n)
  {
    PaddedWidth(n, width);
    PaddedReadsBack(n, width);
    var text, piece := before + Snapshots.Padded(n, width) + after, Snapshots.Padded(n, width);
    assert text[|before|..|before| + width] == piece;
  }

  /** The calendar fields of a date in the four-digit years stand at fixed places of its text. */
  lemma DayReadsBack(d: Day)
    requires d.year < 10000 && d.month < 100 && d.day < 100
    ensures var text := DayText(d.year, d.month, d.day);
      && Normalise(Date(d)) == Some(Str(text)) && |text| == 10 && text[4] == '-' && text[7] == '-'
      && Spells(text, 0, 4, d.year) && Spells(text, 5, 2, d.month) && Spells(text, 8, 2, d.day)
  {
    hide Snapshots.Padded, NatText;
    Widths();
    PaddedWidth(d.year, 4);
    PaddedWidth(d.month, 2);
    PaddedWidth(d.day, 2);
    var y, m, day := Snapshots.Padded(d.year, 4), Snapshots.Padded(d.month, 2), Snapshots.Padded(d.day, 2);
    var text := DayText(d.year, d.month, d.day);
    PieceSpells("", d.year, 4, "-" + m + "-" + day);
    PieceSpells(y + "-", d.month, 2, "-" + day);
    PieceSpells(y + "-" + m + "-", d.day, 2, "");
    assert text == "" + y + ("-" + m + "-" + day) == (y + "-") + m + ("-" + day) == (y + "-" + m + "-") + day + "";
  }

  /** The fields of an instant stand at fixed places of its text, the microseconds only when there are any. */
  lemma InstantReadsBack(t: Instant)
    requires t.aware && t.year < 10000 && t.month < 100 && t.day < 100
    requires t.hour < 100 && t.minute < 100 && t.second < 100 && t.micro < 1000000
    ensures var text := InstantText(t);
      && Normalise(Timestamp(t)) == Some(Str(text)) && |text| == (if t.micro == 0 then 20 else 27)
      && text[..10] == DayText(t.year, t.month, t.day) && text[10] == 'T'
      && Spells(text, 11, 2, t.hour) && text[13] == ':' && Spells(text, 14, 2, t.minute) && text[16] == ':'
      && Spells(text, 17, 2, t.second) && (t.micro != 0 ==> text[19] == '.' && Spells(text, 20, 6, t.micro))
      && text[|text| - 1] == 'Z'
  {
    hide Snapshots.Padded, NatText, DayText, Spells;
    DayReadsBack(Day(t.year, t.month, t.day));
    var micro := if t.micro == 0 then "" else "." + Snapshots.Padded(t.micro, 6);
    ClockReadsBack(DayText(t.year, t.month, t.day) + "T", t.hour, t.minute, t.second, micro + "Z");
    var text := InstantText(t);
    assert text == DayText(t.year, t.month, t.day) + "T" + Snapshots.Padded(t.hour, 2) + ":" + Snapshots.Padded(t.minute, 2)
                   + ":" + Snapshots.Padded(t.second, 2) + (micro + "Z");
    assert text[..10] == DayText(t.year, t.month, t.day) && text[10] == 'T';
    if t.micro != 0 {
      Widths();
      PaddedWidth(t.micro, 6);
      PieceSpells(text[..19] + ".", t.micro, 6, "Z");
      assert text[19..] == micro + "Z";
      assert text == (text[..19] + ".") + Snapshots.Padded(t.micro, 6) + "Z";
    }
  }

  lemma ClockReadsBack(before: string, hour: nat, minute: nat, second: nat, after: string)
    requires hour < 100 && minute < 100 && second < 100
    ensures var h, m, s := Snapshots.Padded(hour, 2), Snapshots.Padded(minute, 2), Snapshots.Padded(second, 2);
      var text, k := before + h + ":" + m + ":" + s + after, |before|;
      && |text| == k + 8 + |after| && text[..k] == before && text[k + 8..] == after
      && Spells(text, k, 2, hour) && text[k + 2] == ':' && Spells(text, k + 3, 2, minute) && text[k + 5] == ':'
      && Spells(text, k + 6, 2, second)
  {
    hide Snapshots.Padded, NatText, Spells;
    Widths();
    PaddedWidth(hour, 2);
    PaddedWidth(minute, 2);
    PaddedWidth(second, 2);
    var h, m, s := Snapshots.Padded(hour, 2), Snapshots.Padded(minute, 2), Snapshots.Padded(second, 2);
    var text := before + h + ":" + m + ":" + s + after;
    PieceSpells(before, hour, 2, ":" + m + ":" + s + after);
    PieceSpells(before + h + ":", minute, 2, ":" + s + after);
    PieceSpells(before + h + ":" + m + ":", second, 2, after);
    assert text == before + h + (":" + m + ":" + s + after);
    assert text == (before + h + ":") + m + (":" + s + after);
    assert text == (before + h + ":" + m + ":") + s + after;
  }

  // ----- one text, one value -----------------------------------------------------------

  lemma DigitsEndTogether(a: string, x: string, b: string, y: string)
    requires AllDigits(a) && AllDigits(b) && a + x == b + y
    requires (x == [] || !IsDigit(x[0])) && (y == [] || !IsDigit(y[0]))
    ensures a == b && x == y
  {
    DigitRunStops(a, x);
    DigitRunStops(b, y);
    assert a == (a + x)[..|a|] && b == (b + y)[..|b|];
    assert x == (a + x)[|a|..] && y == (b + y)[|b|..];
  }

  lemma NumbersAgree(n: nat, m: nat, width: nat, x: string, y: string)
    requires Snapshots.Padded(n, width) + x == Snapshots.Padded(m, width) + y
    requires (x == [] || !IsDigit(x[0])) && (y == [] || !IsDigit(y[0]))
    ensures n == m && x == y
  {
    hide Snapshots.Padded;
    DigitsEndTogether(Snapshots.Padded(n, width), x, Snapshots.Padded(m, width), y);
    PaddedReadsBack(n, width);
    PaddedReadsBack(m, width);
  }

  lemma TailsAgree(c: char, x: string, y: string)
    requires [c] + x == [c] + y
    ensures x == y
  {
    assert x == ([c] + x)[1..] && y == ([c] + y)[1..];
  }

  lemma DaysAgree(a: Day, x: string, b: Day, y: string)
    requires DayText(a.year, a.month, a.day) + x == DayText(b.year, b.month, b.day) + y
    requires (x == [] || !IsDigit(x[0])) && (y == [] || !IsDigit(y[0]))
    ensures a == b && x == y
  {
    hide Snapshots.Padded;
    var a1, a2 := Snapshots.Padded(a.month, 2), Snapshots.Padded(a.day, 2) + x;
    var b1, b2 := Snapshots.Padded(b.month, 2), Snapshots.Padded(b.day, 2) + y;
    assert DayText(a.year, a.month, a.day) + x == Snapshots.Padded(a.year, 4) + (['-'] + (a1 + (['-'] + a2)));
    assert DayText(b.year, b.month, b.day) + y == Snapshots.Padded(b.year, 4) + (['-'] + (b1 + (['-'] + b2)));
    NumbersAgree(a.year, b.year, 4, ['-'] + (a1 + (['-'] + a2)), ['-'] + (b1 + (['-'] + b2)));
    TailsAgree('-', a1 + (['-'] + a2), b1 + (['-'] + b2));
    NumbersAgree(a.month, b.month, 2, ['-'] + a2, ['-'] + b2);
    TailsAgree('-', a2, b2);
    NumbersAgree(a.day, b.day, 2, x, y);
  }

  function MicroText(micro: nat): string {
    if micro == 0 then "" else "." + Snapshots.Padded(micro, 6)
  }

  function ClockText(t: Instant): string {
    Snapshots.Padded(t.hour, 2) + (":" + (Snapshots.Padded(t.minute, 2) + (":" + (Snapshots.Padded(t.second, 2)
    + (MicroText(t.micro) + "Z")))))
  }

  lemma InstantSplits(t: Instant)
    ensures InstantText(t) == DayText(t.year, t.month, t.day) + ("T" + ClockText(t))
  {
    hide Snapshots.Padded, DayText;
    var h, m, s, micro := Snapshots.Padded(t.hour, 2), Snapshots.Padded(t.minute, 2), Snapshots.Padded(t.second, 2),
                          MicroText(t.micro);
    var day := DayText(t.year, t.month, t.day);
    assert InstantText(t) == day + "T" + h + ":" + m + ":" + s + micro + "Z";
    assert day + "T" + h + ":" + m + ":" + s + micro + "Z" == day + ("T" + (h + (":" + (m + (":" + (s + (micro + "Z")))))));
  }

  lemma MicrosAgree(n: nat, m: nat)
    requires MicroText(n) + "Z" == MicroText(m) + "Z"
    ensures n == m
  {
    hide Snapshots.Padded;
    if n != 0 && m != 0 {
      var x, y := Snapshots.Padded(n, 6) + "Z", Snapshots.Padded(m, 6) + "Z";
      assert MicroText(n) + "Z" == ['.'] + x && MicroText(m) + "Z" == ['.'] + y;
      TailsAgree('.', x, y);
      NumbersAgree(n, m, 6, "Z", "Z");
    } else {
      assert (MicroText(n) + "Z")[0] == if n == 0 then 'Z' else '.';
      assert (MicroText(m) + "Z")[0] == if m == 0 then 'Z' else '.';
    }
  }

  lemma ClocksAgree(a: Instant, b: Instant)
    requires ClockText(a) == ClockText(b)
    ensures a.hour == b.hour && a.minute == b.minute && a.second == b.second && a.micro == b.micro
  {
    hide Snapshots.Padded;
    var x, y := MicroText(a.micro) + "Z", MicroText(b.micro) + "Z";
    var a2, b2 := Snapshots.Padded(a.second, 2) + x, Snapshots.Padded(b.second, 2) + y;
    var a1, b1 := Snapshots.Padded(a.minute, 2) + ([':'] + a2), Snapshots.Padded(b.minute, 2) + ([':'] + b2);
    NumbersAgree(a.hour, b.hour, 2, [':'] + a1, [':'] + b1);
    TailsAgree(':', a1, b1);
    NumbersAgree(a.minute, b.minute, 2, [':'] + a2, [':'] + b2);
    TailsAgree(':', a2, b2);
    NumbersAgree(a.second, b.second, 2, x, y);
    MicrosAgree(a.micro, b.micro);
  }

  /** Two instants have one text exactly when all their calendar fields agree. */
  lemma InstantsAgree(a: Instant, b: Instant)
    requires InstantText(a) == InstantText(b)
    ensures a.(aware := b.aware) == b
  {
    hide Snapshots.Padded, DayText, InstantText, ClockText;
    InstantSplits(a);
    InstantSplits(b);
    DaysAgree(Day(a.year, a.month, a.day), "T" + ClockText(a), Day(b.year, b.month, b.day), "T" + ClockText(b));
    TailsAgree('T', ClockText(a), ClockText(b));
    ClocksAgree(a, b);
  }

  /** A date's text ends in a digit and an instant's does not. */
  lemma DayIsNoInstant(d: Day, t: Instant)
    ensures DayText(d.year, d.month, d.day) != InstantText(t)
  {
    var text := DayText(d.year, d.month, d.day);
    assert text[|text| - 1] == Snapshots.Padded(d.day, 2)[|Snapshots.Padded(d.day, 2)| - 1];
    assert InstantText(t)[|InstantText(t)| - 1] == 'Z';
  }

  /** A decimal's text has a sign only at its front. */
  lemma DecimalIsNoDay(d: Decimal, year: nat, month: nat, day: nat, rest: string)
    requires d.Finite?
    ensures Canonical(d) != DayText(year, month, day) + rest
  {
    hide ReadDecimal, FixedText, Joined, Split;
    DecimalReadsBack(d);
    SplitIsRead(Canonical(d));
    SplitJoins(Canonical(d));
    JoinedHasOneSign(Split(Canonical(d)).value);
    var text := DayText(year, month, day) + rest;
    assert text[|Snapshots.Padded(year, 4)|] == '-';
  }

  lemma SplitIsRead(text: string)
    ensures ReadDecimal(text).Some? <==> Split(text).Some?
  {
  }

  lemma JoinedHasOneSign(p: Parts)
    requires PartsOk(p)
    ensures forall i :: 0 < i < |Joined(p)| ==> Joined(p)[i] != '-'
  {
  }

  // ----- alike leaves ------------------------------------------------------------------

  /** Equal decimals, whatever the notation of a positive exponent. */
  predicate SameDecimal(x: Decimal, y: Decimal) {
    x.Finite? && y.Finite? && WrittenOut(x) == WrittenOut(y)
  }

  /** The text is what the leaf is written as. */
  predicate Spelled(text: string, leaf: Value) {
    match leaf
    case Dec(d) => d.Finite? && ReadDecimal(text) == Some(WrittenOut(d))
    case Date(d) => text == DayText(d.year, d.month, d.day)
    case Timestamp(t) => text == InstantText(t)
    case _ => false
  }

  /** Leaves that denote the same: equal numbers, dates or instants, or a text that spells the other. */
  predicate LeavesAlike(a: Value, b: Value) {
    match (a, b)
    case (Dec(x), Dec(y)) => SameDecimal(x, y)
    case (Timestamp(x), Timestamp(y)) => x == y
    case (Str(s), Str(t)) => s == t
    case (Str(s), _) => Spelled(s, b)
    case (_, Str(t)) => Spelled(t, a)
    case _ => a == b
  }

  predicate IsLeaf(v: Value) {
    !v.Dict? && !v.List? && !v.Tuple?
  }

  lemma SpelledIff(text: string, leaf: Value)
    requires IsLeaf(leaf) && !leaf.Str? && Normalise(leaf).Some?
    ensures Normalise(leaf) == Some(Str(text)) <==> Spelled(text, leaf)
  {
    if leaf.Dec? {
      hide ReadDecimal, FixedText;
      DecimalReadsBack(leaf.decimal);
      TextOfWrittenOut(leaf.decimal);
      if ReadDecimal(text) == Some(WrittenOut(leaf.decimal)) {
        SpelledIsText(text);
      }
    }
  }

  lemma SameDecimalIff(x: Decimal, y: Decimal)
    requires x.Finite? && y.Finite?
    ensures Normalise(Dec(x)) == Normalise(Dec(y)) <==> SameDecimal(x, y)
  {
    hide ReadDecimal, FixedText;
    DecimalReadsBack(x);
    DecimalReadsBack(y);
    TextOfWrittenOut(x);
    TextOfWrittenOut(y);
  }

  /** Leaves normalise to one value exactly when they are alike. */
  lemma LeavesAgreeIff(a: Value, b: Value)
    requires IsLeaf(a) && IsLeaf(b) && Normalise(a).Some? && Normalise(b).Some?
    ensures Normalise(a) == Normalise(b) <==> LeavesAlike(a, b)
  {
    hide Normalise, Spelled, SameDecimal, FixedText, DayText, InstantText;
    if a.Str? && !b.Str? {
      NormalStr(a);
      SpelledIff(a.s, b);
    } else if b.Str? && !a.Str? {
      NormalStr(b);
      SpelledIff(b.s, a);
    } else {
      KindsApart(a, b);
    }
  }

  lemma NormalStr(v: Value)
    requires v.Str?
    ensures Normalise(v) == Some(v)
  {
  }

  lemma KindsApart(a: Value, b: Value)
    requires IsLeaf(a) && IsLeaf(b) && Normalise(a).Some? && Normalise(b).Some? && (a.Str? <==> b.Str?)
    ensures Normalise(a) == Normalise(b) <==> LeavesAlike(a, b)
  {
    hide SameDecimal, FixedText, DayText, InstantText, Spelled;
    match (a, b)
    case (Dec(x), Dec(y)) => SameDecimalIff(x, y);
    case (Timestamp(x), Timestamp(y)) =>
      if InstantText(x) == InstantText(y) {
        InstantsAgree(x, y);
      }
    case (Date(x), Date(y)) =>
      if DayText(x.year, x.month, x.day) == DayText(y.year, y.month, y.day) {
        assert DayText(x.year, x.month, x.day) + [] == DayText(y.year, y.month, y.day) + [];
        DaysAgree(x, [], y, []);
      }
    case (Date(x), Timestamp(y)) => DayIsNoInstant(x, y);
    case (Timestamp(x), Date(y)) => DayIsNoInstant(y, x);
    case (Dec(x), Date(y)) => DecimalIsNoDate(x, y);
    case (Date(x), Dec(y)) => DecimalIsNoDate(y, x);
    case (Dec(x), Timestamp(y)) => DecimalIsNoInstant(x, y);
    case (Timestamp(x), Dec(y)) => DecimalIsNoInstant(y, x);
    case _ =>
  }

  lemma DecimalIsNoDate(x: Decimal, y: Day)
    requires x.Finite?
    ensures Canonical(x) != DayText(y.year, y.month, y.day)
  {
    hide Canonical, DayText;
    DecimalIsNoDay(x, y.year, y.month, y.day, "");
    assert DayText(y.year, y.month, y.day) + "" == DayText(y.year, y.month, y.day);
  }

  lemma DecimalIsNoInstant(x: Decimal, y: Instant)
    requires x.Finite?
    ensures Canonical(x) != InstantText(y)
  {
    hide Canonical, DayText, InstantText, ClockText;
    InstantSplits(y);
    DecimalIsNoDay(x, y.year, y.month, y.day, "T" + ClockText(y));
  }
}
