/**
 * gx:Duration. A CQL duration (months, days, nanoseconds) is written as the
 * ISO-8601 text java.time.Duration reads: `[-]PT[hH][mM][s[.fffffffff]S]`.
 */
module DurationSerializer {
  import opened Wrappers
  import opened Numeric
  import opened Json
  import opened StringBuilding
  import JavaDuration
  import TS = TypeSerializer

  // The unit constants, written out: each is the previous times 1000, 1000, 60, 60.
  const NanosPerMicro: int := 1_000
  const NanosPerMilli: int := 1_000_000
  const NanosPerSecond: int := 1_000_000_000
  const NanosPerMinute: int := 60_000_000_000
  const NanosPerHour: int := 3_600_000_000_000
  /** No leap seconds: a day is always 24 hours. */
  const HoursPerDay: int := 24
  const NanosPerDay: int := 86_400_000_000_000

  lemma {:induction false} UnitsAreConsistent()
    ensures NanosPerMilli == 1000 * NanosPerMicro && NanosPerSecond == 1000 * NanosPerMilli
    ensures NanosPerMinute == 60 * NanosPerSecond && NanosPerHour == 60 * NanosPerMinute
    ensures NanosPerDay == HoursPerDay * NanosPerHour
  {
  }

  /** Cassandra.Duration: months and days are Int32, nanoseconds an Int64. */
  datatype Duration = Duration(months: int32, days: int32, nanoseconds: int64)

  const Zero: Duration := Duration(0, 0, 0)

  // ---- the text, as a function of the duration ----

  /** The leading sign: a minus when either the day or the nanosecond part is negative. */
  function SignText(d: Duration): string {
    if d.days < 0 || d.nanoseconds < 0 then "-" else ""
  }

  /** The number of hours written: whole days as 24 hours plus the whole hours of the nanoseconds. */
  function Hours(d: Duration): nat {
    Abs(d.days as int) * HoursPerDay + Abs(d.nanoseconds as int) / NanosPerHour
  }

  /** What Append writes for a dividend: nothing below the divisor, otherwise quotient and unit. */
  function UnitText(dividend: int, divisor: int, unit: string): string
    requires divisor > 0
  {
    if dividend == 0 || dividend < divisor then "" else Digits(dividend / divisor) + unit
  }

  /** What Append returns for a dividend. */
  function UnitRemainder(dividend: int, divisor: int): int
    requires divisor > 0
  {
    if dividend == 0 || dividend < divisor then dividend else dividend % divisor
  }

  /**
   * `string.Format(CultureInfo.InvariantCulture, "{0:0.#########}", r / 10^9m)`: the
   * whole seconds, then, when the fraction is not zero, a point and at most nine
   * fractional digits with the trailing zeros dropped.
   */
  function SecondsText(r: nat): string {
    var whole := Digits(r / NanosPerSecond);
    var frac := r % NanosPerSecond;
    if frac == 0 then whole else whole + "." + TrimZeros(Fixed(frac, 9))
  }

  /** The text ToJavaDurationString produces, or the exception it throws. */
  function DurationText(d: Duration): (r: Result<string>)
    ensures d == Zero ==> r == Ok("PT0S")
    ensures d != Zero && d.months != 0 ==> r == Err(ArgumentOutOfRange)
    ensures r.Err? <==> d != Zero && (d.months != 0 || d.days as int == MinInt32 || d.nanoseconds as int == MinInt64)
  {
    if d == Zero then Ok("PT0S")
    else if d.months != 0 then Err(ArgumentOutOfRange)
    else if d.nanoseconds as int == MinInt64 || d.days as int == MinInt32 then Err(Overflow)
    else
      Ok(SignText(d) + "PT" + Body(Hours(d), Abs(d.nanoseconds as int) % NanosPerHour))
  }

  /** The fields after "PT": hours, then Append's minutes, then seconds. */
  function Body(hours: nat, remainder: nat): string {
    HoursText(hours) + UnitText(remainder, NanosPerMinute, "M") + SecondsPart(UnitRemainder(remainder, NanosPerMinute))
  }

  function HoursText(hours: nat): string {
    if hours > 0 then Digits(hours) + "H" else ""
  }

  function SecondsPart(seconds: int): string {
    if seconds > 0 then SecondsText(seconds) + "S" else ""
  }

  // ---- the imperative encoder ----

  /** Appends the whole number of divisor units in dividend, if any, and returns what is left. */
  method Append(builder: StringBuilder, dividend: int, divisor: int, unit: string) returns (remainder: int)
    requires divisor > 0
    modifies builder
    ensures builder.content == old(builder.content) + UnitText(dividend, divisor, unit)
    ensures remainder == UnitRemainder(dividend, divisor)
  {
    if dividend == 0 || dividend < divisor {
      return dividend;
    }
    builder.Append(Digits(dividend / divisor));
    builder.Append(unit);
    return dividend % divisor;
  }

  /** DurationSerializer.ToJavaDurationString */
  method ToJavaDurationString(value: Duration) returns (r: Result<string>)
    ensures r == DurationText(value)
  {
    if value == Zero {
      return Ok("PT0S");
    }
    if value.months != 0 {
      return Err(ArgumentOutOfRange);
    }
    var builder := new StringBuilder();
    if value.days < 0 || value.nanoseconds < 0 {
      builder.Append("-");
    }
    builder.Append("PT");
    assert builder.content == SignText(value) + "PT";
    if value.nanoseconds as int == MinInt64 {
      return Err(Overflow);  // Math.Abs(long.MinValue)
    }
    var nanos := Abs(value.nanoseconds as int);
    var remainder := nanos % NanosPerHour;
    if value.days as int == MinInt32 {
      return Err(Overflow);  // Math.Abs(int.MinValue)
    }
    var hours := Abs(value.days as int) * HoursPerDay + nanos / NanosPerHour;
    ghost var head := builder.content;
    ghost var minutes := remainder;
    if hours > 0 {
      builder.Append(Digits(hours));
      builder.Append("H");
    }
    ghost var afterHours := builder.content;
    remainder := Append(builder, remainder, NanosPerMinute, "M");
    ghost var afterMinutes := builder.content;
    if remainder > 0 {
      builder.Append(SecondsText(remainder));
      builder.Append("S");
    }
    assert afterHours == head + HoursText(hours);
    assert builder.content == head + HoursText(hours) + UnitText(minutes, NanosPerMinute, "M") + SecondsPart(remainder);
    assert hours == Hours(value) && minutes == Abs(value.nanoseconds as int) % NanosPerHour;
    assert DurationText(value) == Ok(SignText(value) + "PT" + Body(hours, minutes));
    assert Body(hours, minutes) == HoursText(hours) + UnitText(minutes, NanosPerMinute, "M") + SecondsPart(remainder);
    Associative(head, HoursText(hours), UnitText(minutes, NanosPerMinute, "M"), SecondsPart(remainder));
    r := Ok(builder.ToString());
  }

  /** The write handler: the text as a string value, or the exception ToJavaDurationString throws. */
  function Write(value: Duration): (r: Result<Value>)
    ensures r.Ok? <==> DurationText(value).Ok?
    ensures r.Ok? ==> r.value == VString(DurationText(value).value)
  {
    var text :- DurationText(value);
    Ok(VString(text))
  }

  /**
   * The serializer: tag "gx", "Duration", a reader that hands the token's text to
   * Duration.Parse (`parse`, outside this model) and the writer above.
   */
  function Serializer(parse: string -> Result<Duration>, show: Duration -> string): (s: TS.Serializer<Duration>)
    ensures TS.FullTypeName(s) == "gx:Duration"
  {
    TS.WithHandlers("gx", "Duration", token => parse(Text(token)), Some(Write), show)
  }

  /** Dictify writes a duration as its ISO 8601 text under "gx:Duration", and fails as the text does. */
  lemma {:induction false} SerializerWritesText(parse: string -> Result<Duration>, show: Duration -> string, value: Duration)
    ensures DurationText(value).Ok? ==>
      TS.Dictify(Serializer(parse, show), value)
        == Ok(map[TypeKey := VString("gx:Duration"), ValueKey := VString(DurationText(value).value)])
    ensures DurationText(value).Err? ==> TS.Dictify(Serializer(parse, show), value) == Err(DurationText(value).error)
  {
    assert "gx" + ":" + "Duration" == "gx:Duration";
  }

  lemma {:induction false} Associative(h: string, a: string, b: string, c: string)
    ensures h + (a + b + c) == h + a + b + c
    ensures h + a + (b + c) == h + a + b + c
  {
  }

  // ---- what the text denotes ----

  /** The amount of time the written fields add up to: every day as 24 hours, plus the nanoseconds. */
  function Magnitude(d: Duration): nat {
    Abs(d.days as int) * NanosPerDay + Abs(d.nanoseconds as int)
  }

  /** The amount of time the days (24 hours each) and the nanoseconds add up to. */
  function TotalNanos(d: Duration): int {
    d.days as int * NanosPerDay + d.nanoseconds as int
  }

  /** The encoder writes a minus sign exactly in this case. */
  predicate Negative(d: Duration) {
    d.days < 0 || d.nanoseconds < 0
  }

  /** A day part and a nanosecond part of opposite signs. */
  predicate MixedSigns(d: Duration) {
    (d.days > 0 && d.nanoseconds < 0) || (d.days < 0 && d.nanoseconds > 0)
  }

  // The read-back proofs below follow the text from left to right: each lemma
  // takes the whole text s and the part p already read, and says what the
  // fields from position |p| on read back as. Every arithmetic fact is handed to
  // the caller as an equation between two `Some` values, so that it rewrites a
  // parsed result by congruence alone.

  /** What follows the hours: Append's minutes, then the seconds. */
  function MinutesPart(remainder: nat): string {
    UnitText(remainder, NanosPerMinute, "M") + SecondsPart(UnitRemainder(remainder, NanosPerMinute))
  }

  /** The seconds field reads back as exactly the nanoseconds it was written from. */
  lemma {:induction false} SecondsRoundTrip(s: string, p: string, r: nat, stage: nat)
    requires r > 0 && s == p + (SecondsText(r) + "S")
    ensures JavaDuration.FieldsFrom(s, |p|, stage) == Some(r)
  {
    if r % NanosPerSecond == 0 {
      WholeSecondsRoundTrip(s, p, r, stage);
    } else {
      FractionalSecondsRoundTrip(s, p, r, stage);
    }
  }

  lemma {:induction false} WholeSecondsRoundTrip(s: string, p: string, r: nat, stage: nat)
    requires r % NanosPerSecond == 0 && s == p + (SecondsText(r) + "S")
    ensures JavaDuration.FieldsFrom(s, |p|, stage) == Some(r)
  {
    var n := WholeSecondsSplit(p, r);
    JavaDuration.WholeSecondsThen(s, p, n, stage);
  }

  /** Without a fraction, the seconds field is the whole seconds n and the unit. */
  lemma {:induction false} WholeSecondsSplit(p: string, r: nat) returns (n: nat)
    requires r % NanosPerSecond == 0
    ensures p + (SecondsText(r) + "S") == p + Digits(n) + ['S']
    ensures Some(n * JavaDuration.SecondNanos) == Some(r)
  {
    n := r / NanosPerSecond;
    assert SecondsText(r) + "S" == Digits(n) + ['S'];
  }

  lemma {:induction false} FractionalSecondsRoundTrip(s: string, p: string, r: nat, stage: nat)
    requires r % NanosPerSecond != 0 && s == p + (SecondsText(r) + "S")
    ensures JavaDuration.FieldsFrom(s, |p|, stage) == Some(r)
  {
    var n, fs := FractionalSecondsSplit(p, r);
    JavaDuration.FractionalSecondsThen(s, p, n, fs, stage);
  }

  /**
   * With a fraction, the seconds field is the whole seconds n, a point and the
   * fraction fs: one to nine digits that, with n, make up r.
   */
  lemma {:induction false} FractionalSecondsSplit(p: string, r: nat) returns (n: nat, fs: string)
    requires r % NanosPerSecond != 0
    ensures p + (SecondsText(r) + "S") == p + Digits(n) + ['.'] + fs + ['S']
    ensures 1 <= |fs| <= 9 && AllDigits(fs)
    ensures Some(JavaDuration.SecondsNanos(n, DigitsValue(fs), |fs|)) == Some(r)
  {
    n, fs := r / NanosPerSecond, TrimZeros(Fixed(r % NanosPerSecond, 9));
    FractionValue(r);
    assert SecondsText(r) == Digits(n) + "." + fs;
    assert p + (Digits(n) + "." + fs + "S") == p + Digits(n) + ['.'] + fs + ['S'];
  }

  /** The trimmed fraction is one to nine digits, and with the whole seconds it makes up r. */
  lemma {:induction false} FractionValue(r: nat)
    requires r % NanosPerSecond != 0
    ensures var t := TrimZeros(Fixed(r % NanosPerSecond, 9));
      1 <= |t| <= 9 && AllDigits(t)
      && Some(JavaDuration.SecondsNanos(r / NanosPerSecond, DigitsValue(t), |t|)) == Some(r)
  {
    var frac := r % NanosPerSecond;
    FractionDigits(frac);
    assert r == (r / NanosPerSecond) * NanosPerSecond + frac;
  }

  /** Nine digits of a fraction of a second, trailing zeros trimmed: one to nine digits scaling back to it. */
  lemma {:induction false} FractionDigits(frac: nat)
    requires 0 < frac < NanosPerSecond
    ensures var t := TrimZeros(Fixed(frac, 9));
      1 <= |t| <= 9 && AllDigits(t) && DigitsValue(t) * Pow10(9 - |t|) == frac
  {
    var fixed := Fixed(frac, 9);
    var t := TrimZeros(fixed);
    assert Pow10(9) == 1_000_000_000;
    FixedRoundTrip(frac, 9);
    TrimZerosValue(fixed);
    if t == [] {
      assert false;
    }
  }

  /** The seconds part, written or not, reads back as the nanoseconds left. */
  lemma {:induction false} SecondsPartValue(s: string, p: string, sec: nat, stage: nat)
    requires s == p + SecondsPart(sec)
    ensures JavaDuration.FieldsFrom(s, |p|, stage) == Some(sec)
  {
    if sec > 0 {
      assert SecondsPart(sec) == SecondsText(sec) + "S";
      SecondsRoundTrip(s, p, sec, stage);
    } else {
      assert s == p;
      JavaDuration.NoFields(s, p, stage);
    }
  }

  /** Append's minutes followed by the seconds read back as the remainder below one hour. */
  lemma {:induction false} MinutesRoundTrip(s: string, p: string, remainder: nat, stage: nat)
    requires stage <= 1 && s == p + MinutesPart(remainder)
    ensures JavaDuration.FieldsFrom(s, |p|, stage) == Some(remainder)
  {
    if remainder < NanosPerMinute {
      SecondsOnlyText(remainder);
      SecondsPartValue(s, p, remainder, stage);
    } else {
      FromOneMinute(s, p, remainder, stage);
    }
  }

  lemma {:induction false} SecondsOnlyText(remainder: nat)
    requires remainder < NanosPerMinute
    ensures MinutesPart(remainder) == SecondsPart(remainder)
  {
    assert UnitText(remainder, NanosPerMinute, "M") == [];
  }

  lemma {:induction false} FromOneMinute(s: string, p: string, remainder: nat, stage: nat)
    requires stage <= 1 && remainder >= NanosPerMinute && s == p + MinutesPart(remainder)
    ensures JavaDuration.FieldsFrom(s, |p|, stage) == Some(remainder)
  {
    var q, sec := MinutesSplit(p, remainder);
    MinutesFieldThen(s, p, q, sec, stage);
  }

  /** From one minute on, Append writes the whole minutes q and passes on the nanoseconds sec below a minute. */
  lemma {:induction false} MinutesSplit(p: string, remainder: nat) returns (q: nat, sec: nat)
    requires remainder >= NanosPerMinute
    ensures p + MinutesPart(remainder) == p + Digits(q) + ['M'] + SecondsPart(sec)
    ensures Some(q * JavaDuration.MinuteNanos + sec) == Some(remainder)
  {
    q, sec := remainder / NanosPerMinute, remainder % NanosPerMinute;
    var rest := SecondsPart(sec);
    assert MinutesPart(remainder) == Digits(q) + "M" + rest;
    assert p + (Digits(q) + "M" + rest) == p + Digits(q) + ['M'] + rest;
    DivMod(remainder, NanosPerMinute);
  }

  /** A minutes field q followed by the seconds part for sec. */
  lemma {:induction false} MinutesFieldThen(s: string, p: string, q: nat, sec: nat, stage: nat)
    requires stage <= 1 && s == p + Digits(q) + ['M'] + SecondsPart(sec)
    ensures JavaDuration.FieldsFrom(s, |p|, stage) == Some(q * JavaDuration.MinuteNanos + sec)
  {
    SecondsPartValue(s, p + Digits(q) + ['M'], sec, 2);
    JavaDuration.MinutesThen(s, p, q, SecondsPart(sec), stage, sec);
  }

  /** The fields after "PT" read back as hours plus the remainder. */
  lemma {:induction false} BodyRoundTrip(s: string, p: string, hours: nat, remainder: nat)
    requires s == p + Body(hours, remainder)
    ensures JavaDuration.FieldsFrom(s, |p|, 0) == Some(hours * NanosPerHour + remainder)
  {
    if hours > 0 {
      BodyAfterHours(s, p, hours, remainder);
      BodyWithHours(s, p, hours, remainder);
    } else {
      BodyWithoutHours(s, p, hours, remainder);
    }
  }

  lemma {:induction false} BodyWithoutHours(s: string, p: string, hours: nat, remainder: nat)
    requires hours == 0 && s == p + Body(hours, remainder)
    ensures JavaDuration.FieldsFrom(s, |p|, 0) == Some(hours * NanosPerHour + remainder)
  {
    NoHoursText(p, hours, remainder);
    MinutesRoundTrip(s, p, remainder, 0);
    NoHoursValue(hours, remainder);
  }

  lemma {:induction false} NoHoursText(p: string, hours: nat, remainder: nat)
    requires hours == 0
    ensures p + Body(hours, remainder) == p + MinutesPart(remainder)
  {
    assert Body(hours, remainder) == MinutesPart(remainder);
  }

  lemma {:induction false} NoHoursValue(hours: nat, remainder: nat)
    requires hours == 0
    ensures Some(remainder) == Some(hours * NanosPerHour + remainder)
  {
  }

  lemma {:induction false} BodyWithHours(s: string, p: string, hours: nat, remainder: nat)
    requires hours > 0 && s == p + Digits(hours) + ['H'] + MinutesPart(remainder)
    ensures JavaDuration.FieldsFrom(s, |p|, 0) == Some(hours * NanosPerHour + remainder)
  {
    MinutesRoundTrip(s, p + Digits(hours) + ['H'], remainder, 1);
    HoursValue(hours, remainder);
    JavaDuration.HoursThen(s, p, hours, MinutesPart(remainder), remainder);
  }

  /** With hours written, the body is the hours field followed by Append's minutes and the seconds. */
  lemma {:induction false} BodyAfterHours(s: string, p: string, hours: nat, remainder: nat)
    requires hours > 0 && s == p + Body(hours, remainder)
    ensures s == p + Digits(hours) + ['H'] + MinutesPart(remainder)
  {
    HoursThenMinutes(hours, remainder);
    Associative(p, Digits(hours), ['H'], MinutesPart(remainder));
  }

  lemma {:induction false} HoursThenMinutes(hours: nat, remainder: nat)
    requires hours > 0
    ensures Body(hours, remainder) == Digits(hours) + ['H'] + MinutesPart(remainder)
  {
    Associative(Digits(hours), ['H'], UnitText(remainder, NanosPerMinute, "M"), SecondsPart(UnitRemainder(remainder, NanosPerMinute)));
  }

  lemma {:induction false} HoursValue(hours: nat, remainder: nat)
    ensures Some(hours * JavaDuration.HourNanos + remainder) == Some(hours * NanosPerHour + remainder)
  {
  }

  /** A duration that is not zero always has at least one field after "PT". */
  lemma {:induction false} BodyNotEmpty(d: Duration)
    requires d != Zero && d.months == 0
    ensures Body(Hours(d), Abs(d.nanoseconds as int) % NanosPerHour) != []
  {
    var nanos := Abs(d.nanoseconds as int);
    var remainder := nanos % NanosPerHour;
    if Hours(d) == 0 && UnitText(remainder, NanosPerMinute, "M") == [] {
      assert d.days == 0 && nanos < NanosPerHour;
      assert remainder == nanos && UnitRemainder(remainder, NanosPerMinute) == nanos;
      assert nanos > 0;
      assert SecondsPart(nanos) != [];
    }
  }

  /** The hours written and the remainder left for Append make up the magnitude. */
  lemma {:induction false} HoursAndRemainder(d: Duration)
    ensures Some(Hours(d) * NanosPerHour + Abs(d.nanoseconds as int) % NanosPerHour) == Some(Magnitude(d))
  {
    var nanos := Abs(d.nanoseconds as int);
    assert nanos == (nanos / NanosPerHour) * NanosPerHour + nanos % NanosPerHour;
  }

  /** The zero duration's text "PT0S" reads back as zero. */
  lemma {:induction false} ZeroTextDenotesZero()
    ensures JavaDuration.Parse("PT0S") == Some(0)
  {
    assert Digits(0) == "0";
    assert "PT0S" == "PT" + Digits(0) + ['S'];
    JavaDuration.WholeSecondsThen("PT0S", "PT", 0, 0);
  }

  /**
   * Whatever the encoder writes reads back, as a java.time.Duration, as the
   * whole days (24 hours each) plus the nanoseconds, negated when either part
   * is negative.
   */
  lemma {:induction false} TextDenotesMagnitude(d: Duration)
    requires DurationText(d).Ok?
    ensures JavaDuration.Parse(DurationText(d).value) == Some(if Negative(d) then 0 - Magnitude(d) else Magnitude(d) as int)
  {
    if d == Zero {
      ZeroTextDenotesZero();
    } else {
      NonZeroTextDenotesMagnitude(d);
    }
  }

  lemma {:induction false} NonZeroTextDenotesMagnitude(d: Duration)
    requires d != Zero && DurationText(d).Ok?
    ensures JavaDuration.Parse(DurationText(d).value) == Some(if Negative(d) then 0 - Magnitude(d) else Magnitude(d) as int)
  {
    var hours, remainder := SignedBody(d);
    SignedBodyDenotes(DurationText(d).value, (if Negative(d) then "-" else "") + "PT", hours, remainder, d);
  }

  /** A sign, "PT" and a non-empty body making up d's magnitude read back as the signed magnitude. */
  lemma {:induction false} SignedBodyDenotes(s: string, p: string, hours: nat, remainder: nat, d: Duration)
    requires p == (if Negative(d) then "-" else "") + "PT"
    requires s == p + Body(hours, remainder) && Body(hours, remainder) != []
    requires Some(hours * NanosPerHour + remainder) == Some(Magnitude(d))
    ensures JavaDuration.Parse(s) == Some(if Negative(d) then 0 - Magnitude(d) else Magnitude(d) as int)
  {
    var m := Magnitude(d);
    BodyDenotes(s, p, hours, remainder, m);
    if Negative(d) {
      JavaDuration.SignedFields(s, p, Body(hours, remainder), m, true);
    } else {
      JavaDuration.SignedFields(s, p, Body(hours, remainder), m, false);
    }
  }

  /** A body whose hours and remainder make up m reads back as m. */
  lemma {:induction false} BodyDenotes(s: string, p: string, hours: nat, remainder: nat, m: nat)
    requires s == p + Body(hours, remainder) && Some(hours * NanosPerHour + remainder) == Some(m)
    ensures JavaDuration.FieldsFrom(s, |p|, 0) == Some(m)
  {
    BodyRoundTrip(s, p, hours, remainder);
  }

  /**
   * A non-zero text is the sign ("-" when the days or the nanoseconds are
   * negative), "PT" and a non-empty body of `hours` hours and `remainder`
   * nanoseconds, which together make up the magnitude.
   */
  lemma {:induction false} SignedBody(d: Duration) returns (hours: nat, remainder: nat)
    requires d != Zero && DurationText(d).Ok?
    ensures DurationText(d).value == (if Negative(d) then "-" else "") + "PT" + Body(hours, remainder)
    ensures Body(hours, remainder) != []
    ensures Some(hours * NanosPerHour + remainder) == Some(Magnitude(d))
  {
    hours, remainder := Hours(d), Abs(d.nanoseconds as int) % NanosPerHour;
    BodyNotEmpty(d);
    HoursAndRemainder(d);
  }

  /**
   * Preservation: when the day and nanosecond parts do not have opposite signs,
   * the text denotes exactly the duration's amount of time.
   */
  lemma {:induction false} TextDenotesDuration(d: Duration, text: string)
    requires DurationText(d) == Ok(text)
    requires !MixedSigns(d)
    ensures JavaDuration.Parse(text) == Some(TotalNanos(d))
  {
    TextDenotesMagnitude(d);
    SignedMagnitude(d);
  }

  /** Without opposite signs, the signed magnitude is the days plus the nanoseconds. */
  lemma {:induction false} SignedMagnitude(d: Duration)
    requires !MixedSigns(d)
    ensures (if Negative(d) then 0 - Magnitude(d) else Magnitude(d) as int) == TotalNanos(d)
  {
    var days := d.days as int;
    var nanos := d.nanoseconds as int;
    if Negative(d) {
      assert days <= 0 && nanos <= 0;
      assert Magnitude(d) == (0 - days) * NanosPerDay + (0 - nanos);
    } else {
      assert Magnitude(d) == days * NanosPerDay + nanos;
    }
  }

  /** With opposite signs the parts are added as magnitudes: one day minus one nanosecond is written as minus a day and a nanosecond. */
  lemma {:induction false} MixedSignsAddMagnitudes()
    ensures JavaDuration.Parse(DurationText(Duration(0, 1, -1)).value) == Some(-(NanosPerDay + 1))
    ensures 1 * NanosPerDay + -1 != -(NanosPerDay + 1)
  {
    TextDenotesMagnitude(Duration(0, 1, -1));
  }

  /**
   * Append: below the divisor it writes nothing and returns the dividend; otherwise
   * the quotient it writes times the divisor plus the remainder it returns give back
   * the dividend. Either way the remainder is below the divisor.
   */
  lemma {:induction false} AppendSplitsDividend(dividend: nat, divisor: int, unit: string)
    requires divisor > 0
    ensures 0 <= UnitRemainder(dividend, divisor) < divisor
    ensures dividend < divisor ==> UnitText(dividend, divisor, unit) == [] && UnitRemainder(dividend, divisor) == dividend
    ensures dividend >= divisor ==>
      var q := Digits(dividend / divisor);
      UnitText(dividend, divisor, unit) == q + unit
      && DigitsValue(q) * divisor + UnitRemainder(dividend, divisor) == dividend
  {
    if dividend >= divisor {
      var q := dividend / divisor;
      DigitsRoundTrip(q);
      DivMod(dividend, divisor);
    }
  }

  lemma {:induction false} DivMod(a: nat, b: int)
    requires b > 0
    ensures a == (a / b) * b + a % b && 0 <= a % b < b
  {
  }

  /** No digit string holds a letter or a point. */
  lemma {:induction false} NotADigit(s: string, c: char)
    requires AllDigits(s) && !IsDigit(c)
    ensures c !in s
  {
  }

  /** The seconds field, when written, is digits, perhaps a point and more digits, then 'S'. */
  lemma {:induction false} NoHoursInSeconds(r: int)
    ensures 'H' !in SecondsPart(r)
  {
    if r > 0 {
      var whole := Digits(r / NanosPerSecond);
      var fixed := Fixed(r % NanosPerSecond, 9);
      var t := TrimZeros(fixed);
      NotADigit(whole, 'H');
      assert AllDigits(t) by {
        forall i | 0 <= i < |t| ensures IsDigit(t[i]) {
          assert t[i] == fixed[i];
        }
      }
      NotADigit(t, 'H');
      assert SecondsPart(r) == whole + "S" || SecondsPart(r) == whole + "." + t + "S";
    }
  }

  /** The hours field, the only one with an 'H', is written exactly when the hour count is positive. */
  lemma {:induction false} HoursFieldIffPositive(hours: nat, remainder: nat)
    ensures 'H' in Body(hours, remainder) <==> hours > 0
  {
    if hours > 0 {
      assert Body(hours, remainder)[|Digits(hours)|] == 'H';
    } else {
      NoHoursInMinutes(remainder);
    }
  }

  /** Without hours the body is the minutes and the seconds, neither of which has an 'H'. */
  lemma {:induction false} NoHoursInMinutes(remainder: nat)
    ensures 'H' !in Body(0, remainder)
  {
    var minutes := UnitText(remainder, NanosPerMinute, "M");
    var seconds := SecondsPart(UnitRemainder(remainder, NanosPerMinute));
    MinutesFieldHasNoHours(remainder);
    NoHoursInSeconds(UnitRemainder(remainder, NanosPerMinute));
    assert HoursText(0) == [];
    assert Body(0, remainder) == minutes + seconds;
    NotInEither(minutes, seconds, 'H');
  }

  /** A character in neither string is not in their concatenation. */
  lemma {:induction false} NotInEither(a: string, b: string, c: char)
    requires c !in a && c !in b
    ensures c !in a + b
  {
  }

  lemma {:induction false} MinutesFieldHasNoHours(remainder: nat)
    ensures 'H' !in UnitText(remainder, NanosPerMinute, "M")
  {
    if UnitText(remainder, NanosPerMinute, "M") != [] {
      NotADigit(Digits(remainder / NanosPerMinute), 'H');
    }
  }

  /** The text has an 'H' exactly when the hour count |days|·24 + |nanos| / 3.6·10^12 is positive. */
  lemma {:induction false} HoursWritten(d: Duration)
    requires d != Zero && DurationText(d).Ok?
    ensures 'H' in DurationText(d).value <==> Hours(d) > 0
  {
    var remainder := Abs(d.nanoseconds as int) % NanosPerHour;
    var body := Body(Hours(d), remainder);
    assert DurationText(d).value == SignText(d) + "PT" + body;
    HoursFieldIffPositive(Hours(d), remainder);
    assert 'H' !in SignText(d) + "PT";
  }

  /** Test vector: 123 000 000 nanoseconds are written as 0.123 seconds. */
  lemma {:induction false} TestVector()
    ensures DurationText(Duration(0, 0, 123_000_000)) == Ok("PT0.123S")
  {
    var d := Duration(0, 0, 123_000_000);
    assert d != Zero && SignText(d) == "" && Hours(d) == 0;
    assert Abs(d.nanoseconds as int) % NanosPerHour == 123_000_000;
    TestVectorBody();
    assert DurationText(d) == Ok("" + "PT" + "0.123S");
    assert "" + "PT" + "0.123S" == "PT0.123S";
  }

  lemma {:induction false} TestVectorBody()
    ensures Body(0, 123_000_000) == "0.123S"
  {
    TestVectorFraction();
    assert SecondsText(123_000_000) == "0.123";
  }

  lemma {:induction false} TestVectorFraction()
    ensures TrimZeros(Fixed(123_000_000, 9)) == "123"
  {
    FixedOfTestVector();
    TrimSixZeros();
  }

  lemma {:induction false} FixedOfTestVector()
    ensures Fixed(123_000_000, 9) == "123000000"
  {
    assert Fixed(1, 1) == "1";
    assert Fixed(12, 2) == "12";
    assert Fixed(123, 3) == "123";
    assert Fixed(1230, 4) == "1230";
    assert Fixed(12300, 5) == "12300";
    assert Fixed(123000, 6) == "123000";
    assert Fixed(1230000, 7) == "1230000";
    assert Fixed(12300000, 8) == "12300000";
  }

  lemma {:induction false} TrimSixZeros()
    ensures TrimZeros("123000000") == "123"
  {
    assert "123000000"[..8] == "12300000";
    assert "12300000"[..7] == "1230000";
    assert "1230000"[..6] == "123000";
    assert "123000"[..5] == "12300";
    assert "12300"[..4] == "1230";
    assert "1230"[..3] == "123";
    assert TrimZeros("123") == "123";
  }
}
