/**
 * gx:Duration in the older driver generation. The encoder is the same step by
 * step; the one difference is that the seconds are formatted with the current
 * culture's decimal separator, which is a parameter here.
 */
module LegacyDurationSerializer {
  import opened Wrappers
  import opened Numeric
  import opened StringBuilding
  import D = DurationSerializer

  /** The seconds with the culture's decimal separator in place of the point. */
  function SecondsText(r: nat, separator: string): string {
    var whole := Digits(r / D.NanosPerSecond);
    var frac := r % D.NanosPerSecond;
    if frac == 0 then whole else whole + separator + TrimZeros(Fixed(frac, 9))
  }

  function SecondsPart(seconds: int, separator: string): string {
    if seconds > 0 then SecondsText(seconds, separator) + "S" else ""
  }

  function Body(hours: nat, remainder: nat, separator: string): string {
    D.HoursText(hours) + D.UnitText(remainder, D.NanosPerMinute, "M")
      + SecondsPart(D.UnitRemainder(remainder, D.NanosPerMinute), separator)
  }

  /** The text the legacy encoder produces, or the error it throws. */
  function DurationText(d: D.Duration, separator: string): (r: Result<string>)
    ensures d == D.Zero ==> r == Ok("PT0S")
    ensures d != D.Zero && d.months != 0 ==> r == Err(ArgumentOutOfRange)
    ensures r.Err? <==> D.DurationText(d).Err?
  {
    if d == D.Zero then Ok("PT0S")
    else if d.months != 0 then Err(ArgumentOutOfRange)
    else if d.nanoseconds as int == MinInt64 || d.days as int == MinInt32 then Err(Overflow)
    else
      var remainder := Abs(d.nanoseconds as int) % D.NanosPerHour;
      Ok(D.SignText(d) + "PT" + Body(D.Hours(d), remainder, separator))
  }

  /** Appends the whole number of divisor units in dividend, if any, and returns what is left. */
  method Append(builder: StringBuilder, dividend: int, divisor: int, unit: string) returns (remainder: int)
    requires divisor > 0
    modifies builder
    ensures builder.content == old(builder.content) + D.UnitText(dividend, divisor, unit)
    ensures remainder == D.UnitRemainder(dividend, divisor)
  {
    if dividend == 0 || dividend < divisor {
      return dividend;
    }
    builder.Append(Digits(dividend / divisor));
    builder.Append(unit);
    return dividend % divisor;
  }

  /** The legacy ToJavaDurationString, with the culture's decimal separator as a parameter. */
  method ToJavaDurationString(value: D.Duration, separator: string) returns (r: Result<string>)
    ensures r == DurationText(value, separator)
  {
    if value == D.Zero {
      return Ok("PT0S");
    }
    if value.months != 0 {
      return Err(ArgumentOutOfRange);
    }
    var builder := new StringBuilder();
    if value.days < 0 || value.nanoseconds < 0 {
      builder.Append("-");
    }
    builder.Append("PT");
    assert builder.content == D.SignText(value) + "PT";
    if value.nanoseconds as int == MinInt64 {
      return Err(Overflow);  // Math.Abs(long.MinValue)
    }
    var nanos := Abs(value.nanoseconds as int);
    var remainder := nanos % D.NanosPerHour;
    if value.days as int == MinInt32 {
      return Err(Overflow);  // Math.Abs(int.MinValue)
    }
    var hours := Abs(value.days as int) * D.HoursPerDay + nanos / D.NanosPerHour;
    ghost var head := builder.content;
    ghost var minutes := remainder;
    if hours > 0 {
      builder.Append(Digits(hours));
      builder.Append("H");
    }
    ghost var afterHours := builder.content;
    remainder := Append(builder, remainder, D.NanosPerMinute, "M");
    if remainder > 0 {
      builder.Append(SecondsText(remainder, separator));
      builder.Append("S");
    }
    assert afterHours == head + D.HoursText(hours);
    assert builder.content == head + D.HoursText(hours) + D.UnitText(minutes, D.NanosPerMinute, "M") + SecondsPart(remainder, separator);
    assert hours == D.Hours(value) && minutes == Abs(value.nanoseconds as int) % D.NanosPerHour;
    assert DurationText(value, separator) == Ok(D.SignText(value) + "PT" + Body(hours, minutes, separator));
    D.Associative(head, D.HoursText(hours), D.UnitText(minutes, D.NanosPerMinute, "M"), SecondsPart(remainder, separator));
    r := Ok(builder.ToString());
  }

  /**
   * Under a culture whose decimal separator is "." the legacy encoder writes the
   * same text as the current one, so every property proved of that text holds.
   */
  lemma {:induction false} InvariantCultureAgrees(d: D.Duration)
    ensures DurationText(d, ".") == D.DurationText(d)
  {
    if d != D.Zero && d.months == 0 && d.nanoseconds as int != MinInt64 && d.days as int != MinInt32 {
      var remainder := Abs(d.nanoseconds as int) % D.NanosPerHour;
      var r := D.UnitRemainder(remainder, D.NanosPerMinute);
      assert SecondsText(r, ".") == D.SecondsText(r) by {
        if r > 0 && r % D.NanosPerSecond != 0 {
          assert "." == ['.'];
        }
      }
      assert Body(D.Hours(d), remainder, ".") == D.Body(D.Hours(d), remainder);
    }
  }

  /** The separator only ever appears inside the seconds field: only a fraction of a second brings it in. */
  lemma {:induction false} SeparatorOnlyWithFraction(d: D.Duration, separator: string)
    requires D.DurationText(d).Ok?
    requires Abs(d.nanoseconds as int) % D.NanosPerSecond == 0
    ensures DurationText(d, separator) == D.DurationText(d)
  {
    if d != D.Zero && d.months == 0 {
      var remainder := Abs(d.nanoseconds as int) % D.NanosPerHour;
      var r := D.UnitRemainder(remainder, D.NanosPerMinute);
      SameFraction(Abs(d.nanoseconds as int), remainder, r);
      assert SecondsPart(r, separator) == D.SecondsPart(r);
      assert Body(D.Hours(d), remainder, separator) == D.Body(D.Hours(d), remainder);
    }
  }

  /** Taking the hours and minutes off a whole number of seconds leaves a whole number of seconds. */
  lemma {:induction false} SameFraction(nanos: nat, remainder: nat, r: int)
    requires nanos % D.NanosPerSecond == 0
    requires remainder == nanos % D.NanosPerHour
    requires r == D.UnitRemainder(remainder, D.NanosPerMinute)
    ensures r >= 0 && r % D.NanosPerSecond == 0
  {
    var h := nanos / D.NanosPerHour;
    var s := nanos / D.NanosPerSecond;
    assert nanos == h * D.NanosPerHour + remainder;
    assert nanos == s * D.NanosPerSecond;
    assert remainder == (s - h * 3600) * D.NanosPerSecond;
    var m := remainder / D.NanosPerMinute;
    assert remainder == m * D.NanosPerMinute + remainder % D.NanosPerMinute;
    assert remainder % D.NanosPerMinute == (s - h * 3600 - m * 60) * D.NanosPerSecond;
  }
}
