/**
 * g:Timestamp in the older driver generation: the same millisecond encoding and
 * the same Int32 read of integer tokens as the current one.
 */
module LegacyDateTimeOffsetSerializer {
  import opened Wrappers
  import opened Numeric
  import opened Json
  import D = DateTimeOffsetSerializer

  /** Whole milliseconds since the epoch, truncated toward zero. */
  function ToUnixEpoch(v: D.DateTimeOffset): (ms: int)
    ensures var t := v.utcTicks - D.UnixStartTicks;
      (t >= 0 ==> 0 <= t - ms * D.TicksPerMillisecond < D.TicksPerMillisecond)
      && (t < 0 ==> -D.TicksPerMillisecond < t - ms * D.TicksPerMillisecond <= 0)
  {
    TruncDiv(v.utcTicks - D.UnixStartTicks, D.TicksPerMillisecond)
  }

  /** The legacy reader: integer tokens read as Int32, non-JValues refused, other JValues through `parseDate`. */
  function ParseDateTimeOffset(token: Token, parseDate: Token -> Result<int>): (r: Result<D.DateTimeOffset>)
    ensures r.Ok? ==> r.value.offsetMinutes == 0
    ensures !IsValue(token) ==> r == Err(NotSupported)
    ensures token.JInt? ==> (r.Ok? <==> InInt32(token.i))
  {
    if token.JInt? then
      if !InInt32(token.i) then Err(Overflow)
      else Ok(D.DateTimeOffset(D.UnixStartTicks + D.TicksPerMillisecond * token.i, 0))
    else if !IsValue(token) then Err(NotSupported)
    else
      var ticks :- parseDate(token);
      Ok(D.DateTimeOffset(ticks, 0))
  }

  /** Both generations encode and decode alike, so what is proved of one holds of the other. */
  lemma {:induction false} SameAsCurrent(v: D.DateTimeOffset, token: Token, parseDate: Token -> Result<int>)
    ensures ToUnixEpoch(v) == D.ToUnixEpoch(v)
    ensures ParseDateTimeOffset(token, parseDate) == D.ParseDateTimeOffsetAsWritten(token, parseDate)
  {
  }

  /** Round trip, up to millisecond truncation, for exactly the instants whose millisecond count fits in an Int32. */
  lemma {:induction false} RoundTripOnlyInInt32(v: D.DateTimeOffset, parseDate: Token -> Result<int>)
    requires D.Valid(v)
    ensures ParseDateTimeOffset(JInt(ToUnixEpoch(v)), parseDate) == Ok(D.Truncated(v))
      <==> InInt32(ToUnixEpoch(v))
  {
    SameAsCurrent(v, JInt(ToUnixEpoch(v)), parseDate);
    D.RoundTripAsWritten(v, parseDate);
  }

  /** The instant 2017-08-09 17:21:29 +00:00 is written but cannot be read back. */
  lemma {:induction false} TimestampBeyondInt32(parseDate: Token -> Result<int>)
    ensures var v := D.DateTimeOffset(636_378_960_890_000_000, 0);
      ParseDateTimeOffset(JInt(ToUnixEpoch(v)), parseDate) == Err(Overflow)
  {
    D.TimestampBeyondInt32(parseDate);
  }
}
