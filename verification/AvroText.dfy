/** How Avro's decimals and times of day are written out
    (backend/avro/src/lib.rs), read back to show that nothing is lost. Section
    "Logical Types" of the Apache Avro Specification. */
module AvroText {
  import opened Common
  import opened Decimal

  /** `n` with `k` zeros after it. */
  function Shifted(n: nat, k: nat): nat {
    if k == 0 then n else 10 * Shifted(n, k - 1)
  }

  function PadLeft(s: string, width: nat): string {
    if |s| < width then ['0'] + PadLeft(s, width - 1) else s
  }

  lemma FromDecimalLast(s: string, c: char)
    requires IsDigits(s) && '0' <= c <= '9'
    ensures IsDigits(s + [c]) && FromDecimal(s + [c]) == 10 * FromDecimal(s) + DigitValue(c)
  {
    assert (s + [c])[..|s|] == s;
  }

  /** One more digit at the end of `b`, and so at the end of `a + b`. */
  lemma AppendStep(a: string, init: string, last: char, b: string, whole: string)
    requires IsDigits(a) && IsDigits(init) && IsDigits(a + init) && '0' <= last <= '9'
    requires b == init + [last] && whole == a + init + [last]
    requires FromDecimal(a + init) == Shifted(FromDecimal(a), |init|) + FromDecimal(init)
    ensures IsDigits(b) && IsDigits(whole)
    ensures FromDecimal(whole) == Shifted(FromDecimal(a), |b|) + FromDecimal(b)
  {
    FromDecimalLast(a + init, last);
    FromDecimalLast(init, last);
  }

  lemma {:induction false} FromDecimalAppend(a: string, b: string, whole: string)
    requires IsDigits(a) && IsDigits(b) && whole == a + b
    ensures IsDigits(whole) && FromDecimal(whole) == Shifted(FromDecimal(a), |b|) + FromDecimal(b)
    decreases |b|
  {
    if b == [] {
      assert whole == a;
    } else {
      var init, last := b[..|b| - 1], b[|b| - 1];
      FromDecimalAppend(a, init, a + init);
      assert whole == a + init + [last];
      AppendStep(a, init, last, b, whole);
    }
  }

  lemma {:induction false} ShiftedZero(k: nat)
    ensures Shifted(0, k) == 0
  {
    if k > 0 {
      ShiftedZero(k - 1);
    }
  }

  lemma LeadingZero(zero: string, s: string)
    requires |zero| == 1 && zero[0] == '0' && IsDigits(s)
    ensures IsDigits(zero + s) && FromDecimal(zero + s) == FromDecimal(s)
  {
    FromDecimalAppend(zero, s, zero + s);
    ShiftedZero(|s|);
    assert FromDecimal(zero[..0]) == 0;
  }

  lemma {:induction false} PaddingCounts(s: string, width: nat)
    requires IsDigits(s)
    ensures IsDigits(PadLeft(s, width)) && FromDecimal(PadLeft(s, width)) == FromDecimal(s)
    ensures |PadLeft(s, width)| == Max(|s|, width)
  {
    if |s| < width {
      PaddingCounts(s, width - 1);
      LeadingZero(['0'], PadLeft(s, width - 1));
    }
  }

  lemma {:induction false} DigitsFit(n: nat, width: nat)
    requires width >= 1 && n < Shifted(1, width)
    ensures |ToDecimal(n)| <= width
  {
    if n >= 10 {
      assert Shifted(1, width) == 10 * Shifted(1, width - 1);
      DigitsFit(n / 10, width - 1);
    }
  }

  /** A number of at most `width` digits, padded to exactly that many. */
  function Padded(n: nat, width: nat): string {
    PadLeft(ToDecimal(n), width)
  }

  lemma PaddedReads(n: nat, width: nat)
    requires width >= 1 && n < Shifted(1, width)
    ensures var s := Padded(n, width); |s| == width && IsDigits(s) && FromDecimal(s) == n
  {
    DigitsFit(n, width);
    DecimalRoundTrip(n);
    PaddingCounts(ToDecimal(n), width);
  }

  // ----- Decimals

  /** The point goes `scale` digits from the end. */
  function PlacePoint(digits: string, scale: nat): string {
    if scale == 0 then digits
    else if |digits| > scale then digits[..|digits| - scale] + ['.'] + digits[|digits| - scale..]
    else ['0'] + ['.'] + PadLeft(digits, scale)
  }

  /** `format_decimal`. */
  function FormatDecimal(unscaled: int, scale: nat): string {
    if unscaled < 0 then ['-'] + PlacePoint(ToDecimal(-unscaled), scale) else PlacePoint(ToDecimal(unscaled), scale)
  }

  /** A number written with `scale` digits after its point: `units` of the last
      of them. */
  datatype Fixed = Fixed(units: int, scale: nat)

  function PointAt(t: string): (i: nat)
    ensures i <= |t| && forall j :: 0 <= j < i ==> t[j] != '.'
    ensures i < |t| ==> t[i] == '.'
  {
    if t == [] || t[0] == '.' then 0 else 1 + PointAt(t[1..])
  }

  /** `12` and `340` are 12 whole units of 1000, and 340. */
  function Together(whole: string, fraction: string): Option<Fixed> {
    if whole == [] || !IsDigits(whole) || !IsDigits(fraction) then None
    else Some(Fixed(Shifted(FromDecimal(whole), |fraction|) + FromDecimal(fraction), |fraction|))
  }

  /** Reads `12.340`, or `12` without a point. */
  function ReadUnsigned(t: string): Option<Fixed> {
    var i := PointAt(t);
    if i == |t| then Together(t, [])
    else if i == |t| - 1 then None
    else Together(t[..i], t[i + 1..])
  }

  function ReadDecimal(t: string): Option<Fixed> {
    if t != [] && t[0] == '-' then
      match ReadUnsigned(t[1..])
      case None => None
      case Some(f) => Some(Fixed(-f.units, f.scale))
    else ReadUnsigned(t)
  }

  predicate Reads(t: string, units: nat, scale: nat) {
    ReadUnsigned(t) == Some(Fixed(units, scale))
  }

  lemma PointFound(whole: string, fraction: string)
    requires IsDigits(whole)
    ensures var t := whole + ['.'] + fraction;
            PointAt(t) == |whole| && t[..|whole|] == whole && t[|whole| + 1..] == fraction
  {
    var t := whole + ['.'] + fraction;
    assert t[|whole|] == '.';
    assert forall j :: 0 <= j < |whole| ==> t[j] == whole[j];
  }

  lemma PutTogether(whole: string, fraction: string, units: nat)
    requires whole != [] && IsDigits(whole) && IsDigits(fraction)
    requires units == Shifted(FromDecimal(whole), |fraction|) + FromDecimal(fraction)
    ensures Together(whole, fraction) == Some(Fixed(units, |fraction|))
  {
  }

  lemma ReadsAt(t: string, whole: string, fraction: string)
    requires fraction != [] && PointAt(t) == |whole| < |t|
    requires t[..|whole|] == whole && t[|whole| + 1..] == fraction
    ensures ReadUnsigned(t) == Together(whole, fraction)
  {
  }

  /** `t` is `whole`, a point and `fraction`; `digits` is `t` without the point. */
  lemma ReadsPoint(t: string, whole: string, fraction: string, digits: string, units: nat)
    requires whole != [] && fraction != [] && IsDigits(whole) && IsDigits(fraction) && IsDigits(digits)
    requires t == whole + ['.'] + fraction && digits == whole + fraction && units == FromDecimal(digits)
    ensures Reads(t, units, |fraction|) && t[0] != '-'
  {
    FromDecimalAppend(whole, fraction, digits);
    PointFound(whole, fraction);
    PutTogether(whole, fraction, units);
    ReadsAt(t, whole, fraction);
    assert t[0] == whole[0];
  }

  lemma ReadsWhole(digits: string, units: nat)
    requires digits != [] && IsDigits(digits) && units == FromDecimal(digits)
    ensures Reads(digits, units, 0) && digits[0] != '-'
  {
    NoPoint(digits);
    PutTogether(digits, [], units);
  }

  lemma NoPoint(digits: string)
    requires IsDigits(digits)
    ensures PointAt(digits) == |digits|
  {
  }

  lemma ReadsPadded(t: string, zero: string, fraction: string, digits: string, scale: nat, units: nat)
    requires digits != [] && IsDigits(digits) && |digits| <= scale && fraction == PadLeft(digits, scale)
    requires zero == ['0'] && t == zero + ['.'] + fraction && units == FromDecimal(digits)
    ensures Reads(t, units, scale) && t[0] != '-'
  {
    PaddingCounts(digits, scale);
    LeadingZero(zero, fraction);
    ReadsPoint(t, zero, fraction, zero + fraction, units);
  }

  lemma CutShape(digits: string, scale: nat, t: string) returns (whole: string, fraction: string)
    requires IsDigits(digits) && |digits| > scale > 0 && t == PlacePoint(digits, scale)
    ensures whole != [] && IsDigits(whole) && IsDigits(fraction) && |fraction| == scale
    ensures digits == whole + fraction && t == whole + ['.'] + fraction
  {
    whole, fraction := digits[..|digits| - scale], digits[|digits| - scale..];
  }

  /** Wherever the point goes, the number is read back. */
  lemma PlacedReads(digits: string, scale: nat, t: string, units: nat)
    requires digits != [] && IsDigits(digits) && t == PlacePoint(digits, scale) && units == FromDecimal(digits)
    ensures Reads(t, units, scale) && t != [] && t[0] != '-'
  {
    if scale == 0 {
      ReadsWhole(digits, units);
    } else if |digits| > scale {
      var whole, fraction := CutShape(digits, scale, t);
      ReadsPoint(t, whole, fraction, digits, units);
    } else {
      ReadsPadded(t, ['0'], PadLeft(digits, scale), digits, scale, units);
    }
  }

  lemma NegativeReads(t: string, n: nat, scale: nat)
    requires Reads(t, n, scale)
    ensures ReadDecimal(['-'] + t) == Some(Fixed(0 - n, scale))
  {
    assert (['-'] + t)[1..] == t;
  }

  lemma PositiveReads(t: string, n: nat, scale: nat)
    requires Reads(t, n, scale) && t != [] && t[0] != '-'
    ensures ReadDecimal(t) == Some(Fixed(n, scale))
  {
  }

  /** `t` is the rendering of `n` without its sign. */
  lemma SignedReads(n: nat, scale: nat, t: string)
    requires t == PlacePoint(ToDecimal(n), scale)
    ensures ReadDecimal(t) == Some(Fixed(n, scale))
    ensures ReadDecimal(['-'] + t) == Some(Fixed(0 - n, scale))
  {
    var digits := ToDecimal(n);
    DecimalRoundTrip(n);
    PlacedReads(digits, scale, t, n);
    PositiveReads(t, n, scale);
    NegativeReads(t, n, scale);
  }

  /** Reading a rendered decimal back gives the integer Avro stored, over
      exactly the schema's number of fraction digits. */
  lemma DecimalTextRoundTrip(unscaled: int, scale: nat)
    ensures ReadDecimal(FormatDecimal(unscaled, scale)) == Some(Fixed(unscaled, scale))
  {
    var n: nat := if unscaled < 0 then -unscaled else unscaled;
    SignedReads(n, scale, PlacePoint(ToDecimal(n), scale));
  }

  /** So no two decimals are written alike. */
  lemma DecimalTextInjective(m: int, s: nat, n: int, t: nat)
    requires FormatDecimal(m, s) == FormatDecimal(n, t)
    ensures m == n && s == t
  {
    DecimalTextRoundTrip(m, s);
    DecimalTextRoundTrip(n, t);
  }

  /** Digits, none of them superfluous, and `scale` more after a point. */
  predicate Notation(t: string, whole: string, fraction: string, scale: nat) {
    && IsDigits(whole) && whole != [] && (whole[0] == '0' ==> |whole| == 1)
    && IsDigits(fraction) && |fraction| == scale
    && t == if scale == 0 then whole else whole + ['.'] + fraction
  }

  ghost predicate Canonical(t: string, scale: nat) {
    exists whole, fraction :: Notation(t, whole, fraction, scale)
  }

  lemma DigitsAreCanonical(digits: string, scale: nat, t: string)
    requires digits != [] && IsDigits(digits) && (digits[0] == '0' ==> |digits| == 1) && t == PlacePoint(digits, scale)
    ensures Canonical(t, scale)
  {
    if scale == 0 {
      assert Notation(t, digits, [], scale);
    } else if |digits| > scale {
      var whole, fraction := CutShape(digits, scale, t);
      StartsAlike(digits, whole, fraction);
      assert Notation(t, whole, fraction, scale);
    } else {
      PaddedIsCanonical(digits, scale, PadLeft(digits, scale), t);
    }
  }

  lemma StartsAlike(digits: string, whole: string, fraction: string)
    requires digits == whole + fraction && whole != [] && fraction != [] && (digits[0] == '0' ==> |digits| == 1)
    ensures whole[0] != '0'
  {
    assert digits[0] == whole[0];
  }

  lemma PaddedIsCanonical(digits: string, scale: nat, fraction: string, t: string)
    requires IsDigits(digits) && |digits| <= scale && scale > 0
    requires fraction == PadLeft(digits, scale) && t == ['0'] + ['.'] + fraction
    ensures Canonical(t, scale)
  {
    PaddingCounts(digits, scale);
    assert Notation(t, ['0'], fraction, scale);
  }

  lemma PlacedIsCanonical(n: nat, scale: nat, t: string)
    requires t == PlacePoint(ToDecimal(n), scale)
    ensures Canonical(t, scale)
  {
    DecimalIsDigits(n);
    NoLeadingZero(n);
    DigitsAreCanonical(ToDecimal(n), scale, t);
  }

  /** A decimal is written in the usual notation, with a minus sign in front if,
      and only if, it is negative. */
  lemma DecimalTextCanonical(unscaled: int, scale: nat)
    ensures unscaled >= 0 ==> Canonical(FormatDecimal(unscaled, scale), scale)
    ensures unscaled < 0 ==> FormatDecimal(unscaled, scale)[0] == '-'
                             && Canonical(FormatDecimal(unscaled, scale)[1..], scale)
  {
    var n: nat := if unscaled < 0 then -unscaled else unscaled;
    PlacedIsCanonical(n, scale, PlacePoint(ToDecimal(n), scale));
  }

  // ----- Times of day

  datatype Unit = Millis | Micros

  function PerSecond(u: Unit): nat {
    match u case Millis => 1_000 case Micros => 1_000_000
  }

  function FractionDigits(u: Unit): nat {
    match u case Millis => 3 case Micros => 6
  }

  const SECONDS_PER_DAY: nat := 86_400
  const NANOS_PER_SECOND: nat := 1_000_000_000

  function ClockText(h: string, m: string, s: string, fraction: string): string {
    h + ([':'] + (m + ([':'] + (s + (['.'] + fraction)))))
  }

  /** `10^(9 - fraction_digits)`. */
  function NanosPerUnit(u: Unit): nat {
    match u case Millis => 1_000_000 case Micros => 1_000
  }

  /** `render_time`, for a number of seconds since midnight and nanoseconds. */
  function RenderTime(seconds: nat, nanos: nat, u: Unit): string {
    ClockText(Padded(seconds / 3600, 2), Padded(seconds / 60 % 60, 2), Padded(seconds % 60, 2),
              Padded(nanos / NanosPerUnit(u), FractionDigits(u)))
  }

  datatype Rendered = Clock(text: string) | Raw(value: int)

  /** `format_time`: a clock time if the count lies within one day, and the bare
      number if not. */
  function FormatTime(value: int, u: Unit): Rendered {
    var seconds, nanos := value / PerSecond(u), value % PerSecond(u) * (NANOS_PER_SECOND / PerSecond(u));
    if 0 <= seconds < SECONDS_PER_DAY then Clock(RenderTime(seconds, nanos, u)) else Raw(value)
  }

  /** Two digits, the mark after them, and what follows. */
  function TwoThen(t: string, mark: char): Option<(nat, string)> {
    if |t| >= 3 && '0' <= t[0] <= '9' && '0' <= t[1] <= '9' && t[2] == mark
    then Some((10 * DigitValue(t[0]) + DigitValue(t[1]), t[3..])) else None
  }

  /** Reads `HH:MM:SS.fff`, counting in the unit the fraction's digits show. */
  function ReadClock(t: string): Option<nat> {
    match TwoThen(t, ':')
    case None => None
    case Some(h) =>
      match TwoThen(h.1, ':')
      case None => None
      case Some(m) =>
        match TwoThen(m.1, '.')
        case None => None
        case Some(s) =>
          if IsDigits(s.1)
          then Some(Shifted(3600 * h.0 + 60 * m.0 + s.0, |s.1|) + FromDecimal(s.1)) else None
  }

  lemma FractionKept(part: nat, u: Unit)
    requires part < PerSecond(u)
    ensures part * (NANOS_PER_SECOND / PerSecond(u)) / NanosPerUnit(u) == part
  {
  }

  lemma ShiftedBy(n: nat, u: Unit)
    ensures Shifted(n, FractionDigits(u)) == n * PerSecond(u)
  {
    assert Shifted(n, 1) == 10 * Shifted(n, 0) && Shifted(n, 2) == 10 * Shifted(n, 1);
    assert Shifted(n, 3) == 10 * Shifted(n, 2) && Shifted(n, 4) == 10 * Shifted(n, 3);
    assert Shifted(n, 5) == 10 * Shifted(n, 4) && Shifted(n, 6) == 10 * Shifted(n, 5);
  }

  lemma TwoThenReads(n: nat, mark: char, rest: string)
    requires n < 100
    ensures TwoThen(Padded(n, 2) + ([mark] + rest), mark) == Some((n, rest)) && |Padded(n, 2)| == 2
  {
    var two := Padded(n, 2);
    assert Shifted(1, 1) == 10 && Shifted(1, 2) == 100;
    PaddedReads(n, 2);
    assert two[..1][..0] == [] && FromDecimal(two[..1]) == DigitValue(two[0]);
    var t := two + ([mark] + rest);
    assert t[0] == two[0] && t[1] == two[1] && t[2] == mark && t[3..] == rest;
  }

  lemma ThreeReads(t: string, h: (nat, string), m: (nat, string), s: (nat, string), seconds: nat)
    requires TwoThen(t, ':') == Some(h) && TwoThen(h.1, ':') == Some(m) && TwoThen(m.1, '.') == Some(s)
    requires IsDigits(s.1) && seconds == 3600 * h.0 + 60 * m.0 + s.0
    ensures ReadClock(t).Some? && ReadClock(t).value == Shifted(seconds, |s.1|) + FromDecimal(s.1)
  {
  }

  lemma ClockReads(h: nat, m: nat, s: nat, f: string, seconds: nat)
    requires h < 100 && m < 100 && s < 100 && IsDigits(f)
    requires seconds == 3600 * h + 60 * m + s
    ensures var t := ClockText(Padded(h, 2), Padded(m, 2), Padded(s, 2), f);
            && ReadClock(t).Some? && ReadClock(t).value == Shifted(seconds, |f|) + FromDecimal(f)
            && |t| == 9 + |f|
  {
    var afterM := Padded(s, 2) + (['.'] + f);
    var afterH := Padded(m, 2) + ([':'] + afterM);
    var t := Padded(h, 2) + ([':'] + afterH);
    TwoThenReads(h, ':', afterH);
    TwoThenReads(m, ':', afterM);
    TwoThenReads(s, '.', f);
    ThreeReads(t, (h, afterH), (m, afterM), (s, f), seconds);
  }

  lemma SecondsReassemble(seconds: nat)
    ensures 3600 * (seconds / 3600) + 60 * (seconds / 60 % 60) + seconds % 60 == seconds
  {
  }

  /** A count within the day, in whole seconds and a part of one. */
  lemma ClockRoundTrip(seconds: nat, part: nat, u: Unit, text: string)
    requires seconds < SECONDS_PER_DAY && part < PerSecond(u)
    requires text == RenderTime(seconds, part * (NANOS_PER_SECOND / PerSecond(u)), u)
    ensures |text| == 9 + FractionDigits(u)
    ensures ReadClock(text).Some? && ReadClock(text).value == seconds * PerSecond(u) + part
  {
    FractionKept(part, u);
    ShiftedBy(1, u);
    ShiftedBy(seconds, u);
    PaddedReads(part, FractionDigits(u));
    SecondsReassemble(seconds);
    ClockReads(seconds / 3600, seconds / 60 % 60, seconds % 60, Padded(part, FractionDigits(u)), seconds);
  }

  /** A count within the day is written as a clock time of fixed width, which
      reads back as that count; any other is written as the number it is. */
  lemma TimeRoundTrip(value: int, u: Unit)
    ensures u.Millis? ==> (FormatTime(value, u).Clock? <==> 0 <= value < 86_400_000)
    ensures u.Micros? ==> (FormatTime(value, u).Clock? <==> 0 <= value < 86_400_000_000)
    ensures FormatTime(value, u).Clock? ==> |FormatTime(value, u).text| == if u.Millis? then 12 else 15
    ensures if 0 <= value < SECONDS_PER_DAY * PerSecond(u)
            then FormatTime(value, u).Clock? && |FormatTime(value, u).text| == 9 + FractionDigits(u)
                 && ReadClock(FormatTime(value, u).text) == Some(value)
            else FormatTime(value, u) == Raw(value)
  {
    var per := PerSecond(u);
    if 0 <= value < SECONDS_PER_DAY * per {
      var seconds, part := value / per, value % per;
      ClockRoundTrip(seconds, part, u, FormatTime(value, u).text);
    }
  }
}
