/**
 * g:Timestamp and gx:Instant. A DateTimeOffset is written as the number of whole
 * milliseconds since 1970-01-01T00:00Z, and an integer token is read back as that
 * many milliseconds after the epoch, at offset zero.
 */
module DateTimeOffsetSerializer {
  import opened Wrappers
  import opened Numeric
  import opened Json
  import TS = TypeSerializer

  /** new DateTimeOffset(1970, 1, 1, 0, 0, 0, 0, TimeSpan.Zero).UtcTicks */
  const UnixStartTicks: int := 621_355_968_000_000_000
  /** TimeSpan.TicksPerMillisecond */
  const TicksPerMillisecond: int := 10_000
  /** DateTime.MaxValue.Ticks; DateTime.MinValue.Ticks is 0. */
  const MaxTicks: int := 3_155_378_975_999_999_999

  /** A System.DateTimeOffset: the instant as UTC ticks (100 ns) and the offset from UTC in minutes. */
  datatype DateTimeOffset = DateTimeOffset(utcTicks: int, offsetMinutes: int)

  const UnixStart: DateTimeOffset := DateTimeOffset(UnixStartTicks, 0)

  /** The instants a DateTimeOffset can hold. */
  predicate Valid(v: DateTimeOffset) {
    0 <= v.utcTicks <= MaxTicks && -840 <= v.offsetMinutes <= 840
  }

  /**
   * ToUnixEpoch: `(value - UnixStart).Ticks / TicksPerMillisecond`, a long division
   * that truncates toward zero, so sub-millisecond ticks are dropped toward the epoch.
   */
  function ToUnixEpoch(v: DateTimeOffset): (ms: int)
    ensures var t := v.utcTicks - UnixStartTicks;
      (t >= 0 ==> 0 <= t - ms * TicksPerMillisecond < TicksPerMillisecond)
      && (t < 0 ==> -TicksPerMillisecond < t - ms * TicksPerMillisecond <= 0)
  {
    TruncDiv(v.utcTicks - UnixStartTicks, TicksPerMillisecond)
  }

  /** The write handler: the milliseconds, boxed as a long. */
  function Write(v: DateTimeOffset): (r: Result<Value>)
    ensures r.Ok? && r.value.VInt?
  {
    Ok(VInt(ToUnixEpoch(v)))
  }

  /** The instant v truncated toward the epoch to whole milliseconds, at offset zero. */
  function Truncated(v: DateTimeOffset): DateTimeOffset {
    DateTimeOffset(UnixStartTicks + ToUnixEpoch(v) * TicksPerMillisecond, 0)
  }

  /**
   * ParseDateTimeOffset as written: an integer token is read with ToObject<int>,
   * which throws an OverflowException outside the Int32 range. Tokens that are not
   * JValues are refused; any other JValue goes to Json.NET's DateTime conversion,
   * `parseDate`, which yields UTC ticks or an error.
   */
  function ParseDateTimeOffsetAsWritten(token: Token, parseDate: Token -> Result<int>): (r: Result<DateTimeOffset>)
    ensures r.Ok? ==> r.value.offsetMinutes == 0
    ensures !IsValue(token) ==> r == Err(NotSupported)
    ensures token.JInt? ==> (r.Ok? <==> InInt32(token.i))
  {
    if token.JInt? then
      if !InInt32(token.i) then Err(Overflow)
      else Ok(DateTimeOffset(UnixStartTicks + TicksPerMillisecond * token.i, 0))
    else if !IsValue(token) then Err(NotSupported)
    else
      var ticks :- parseDate(token);
      Ok(DateTimeOffset(ticks, 0))
  }

  /**
   * ParseDateTimeOffset as evidently intended: the integer token holds what
   * ToUnixEpoch writes, a long, so it is read as an Int64; AddTicks then refuses
   * a result outside the DateTime range.
   */
  function ParseDateTimeOffset(token: Token, parseDate: Token -> Result<int>): (r: Result<DateTimeOffset>)
    ensures r.Ok? ==> r.value.offsetMinutes == 0
    ensures !IsValue(token) ==> r == Err(NotSupported)
    ensures token.JInt? && r.Ok? ==> r.value.utcTicks - UnixStartTicks == token.i * TicksPerMillisecond
  {
    if token.JInt? then
      if !InInt64(token.i) then Err(Overflow)
      else
        var ticks := UnixStartTicks + TicksPerMillisecond * token.i;
        if ticks < 0 || ticks > MaxTicks then Err(ArgumentOutOfRange)
        else Ok(DateTimeOffset(ticks, 0))
    else if !IsValue(token) then Err(NotSupported)
    else
      var ticks :- parseDate(token);
      Ok(DateTimeOffset(ticks, 0))
  }

  /** The read handler the constructor registers: ParseDateTimeOffset as written. */
  function Read(parseDate: Token -> Result<int>): Token -> Result<DateTimeOffset> {
    token => ParseDateTimeOffsetAsWritten(token, parseDate)
  }

  /**
   * The serializer registered under a tag (g:Timestamp and gx:Instant): the
   * reader and writer above through the constructor that takes both handlers.
   */
  function Serializer(prefix: string, typeName: string, parseDate: Token -> Result<int>,
                      show: DateTimeOffset -> string): (s: TS.Serializer<DateTimeOffset>)
    ensures TS.FullTypeName(s) == prefix + ":" + typeName
    ensures forall token :: s.readHandler(token) == ParseDateTimeOffsetAsWritten(token, parseDate)
    ensures s.writeHandler == Write
  {
    TS.WithHandlers(prefix, typeName, Read(parseDate), Some(Write), show)
  }

  /** The read handler of the corrected serializer: ParseDateTimeOffset as evidently intended. */
  function CorrectedRead(parseDate: Token -> Result<int>): Token -> Result<DateTimeOffset> {
    token => ParseDateTimeOffset(token, parseDate)
  }

  /** The serializer as evidently intended: the same tag and writer, with the Int64 reader. */
  function CorrectedSerializer(prefix: string, typeName: string, parseDate: Token -> Result<int>,
                               show: DateTimeOffset -> string): (s: TS.Serializer<DateTimeOffset>)
    ensures TS.FullTypeName(s) == prefix + ":" + typeName
    ensures forall token :: s.readHandler(token) == ParseDateTimeOffset(token, parseDate)
    ensures s.writeHandler == Write
  {
    TS.WithHandlers(prefix, typeName, CorrectedRead(parseDate), Some(Write), show)
  }

  /** Truncation moves an instant toward the epoch by less than one millisecond, and stays a valid instant. */
  lemma {:induction false} TruncationBound(v: DateTimeOffset)
    requires Valid(v)
    ensures var w := Truncated(v);
      Valid(w) && w.offsetMinutes == 0
      && (v.utcTicks >= UnixStartTicks ==> UnixStartTicks <= w.utcTicks <= v.utcTicks < w.utcTicks + TicksPerMillisecond)
      && (v.utcTicks < UnixStartTicks ==> w.utcTicks - TicksPerMillisecond < v.utcTicks <= w.utcTicks <= UnixStartTicks)
  {
    var ms := ToUnixEpoch(v);
    assert ms * TicksPerMillisecond == TicksPerMillisecond * ms;
  }

  /** Whole-millisecond instants are left as they are: encoding loses only the ticks below a millisecond. */
  lemma {:induction false} WholeMillisecondsKept(v: DateTimeOffset)
    requires (v.utcTicks - UnixStartTicks) % TicksPerMillisecond == 0
    ensures Truncated(v).utcTicks == v.utcTicks
  {
    var t := v.utcTicks - UnixStartTicks;
    var ms := ToUnixEpoch(v);
    assert t == (t / TicksPerMillisecond) * TicksPerMillisecond;
    if t >= 0 {
      assert 0 <= t - ms * TicksPerMillisecond < TicksPerMillisecond;
      assert (t / TicksPerMillisecond - ms) * TicksPerMillisecond == t - ms * TicksPerMillisecond;
    } else {
      assert -TicksPerMillisecond < t - ms * TicksPerMillisecond <= 0;
      assert (t / TicksPerMillisecond - ms) * TicksPerMillisecond == t - ms * TicksPerMillisecond;
    }
  }

  /**
   * Round trip: reading back what is written gives the instant truncated toward
   * the epoch to whole milliseconds, at offset zero, for every valid instant.
   */
  lemma {:induction false} RoundTrip(v: DateTimeOffset, parseDate: Token -> Result<int>)
    requires Valid(v)
    ensures ParseDateTimeOffset(JInt(ToUnixEpoch(v)), parseDate) == Ok(Truncated(v))
  {
    TruncationBound(v);
    var ms := ToUnixEpoch(v);
    assert ms * TicksPerMillisecond == TicksPerMillisecond * ms;
    assert InInt64(ms) by {
      assert -TicksPerMillisecond * 0x8000_0000_0000_0000 < UnixStartTicks - MaxTicks;
      assert MaxTicks - UnixStartTicks < TicksPerMillisecond * 0x7FFF_FFFF_FFFF_FFFF;
    }
  }

  /** As written, the round trip holds only when the millisecond count fits in an Int32. */
  lemma {:induction false} RoundTripAsWritten(v: DateTimeOffset, parseDate: Token -> Result<int>)
    requires Valid(v)
    ensures ParseDateTimeOffsetAsWritten(JInt(ToUnixEpoch(v)), parseDate) == Ok(Truncated(v))
      <==> InInt32(ToUnixEpoch(v))
  {
    var ms := ToUnixEpoch(v);
    assert ms * TicksPerMillisecond == TicksPerMillisecond * ms;
  }

  /** Where both readers accept a token they agree: the corrected one only accepts more integers. */
  lemma {:induction false} AsWrittenAgrees(token: Token, parseDate: Token -> Result<int>)
    requires ParseDateTimeOffsetAsWritten(token, parseDate).Ok?
    ensures ParseDateTimeOffset(token, parseDate) == ParseDateTimeOffsetAsWritten(token, parseDate)
  {
  }

  /**
   * The instant 2017-08-09 17:21:29 +00:00 is written as 1 502 299 289 000
   * milliseconds, which the as-written reader refuses with an overflow and the
   * corrected one reads back.
   */
  lemma {:induction false} TimestampBeyondInt32(parseDate: Token -> Result<int>)
    ensures var v := DateTimeOffset(636_378_960_890_000_000, 0);
      ToUnixEpoch(v) == 1_502_299_289_000
      && ParseDateTimeOffsetAsWritten(JInt(ToUnixEpoch(v)), parseDate) == Err(Overflow)
      && ParseDateTimeOffset(JInt(ToUnixEpoch(v)), parseDate) == Ok(v)
  {
    var v := DateTimeOffset(636_378_960_890_000_000, 0);
    assert v.utcTicks - UnixStartTicks == 15_022_992_890_000_000;
    assert TruncDiv(15_022_992_890_000_000, 10_000) == 1_502_299_289_000;
  }

  /**
   * Through the registered serializer: Dictify writes the millisecond count under
   * the serializer's own tag, and Objectify of that count gives back the instant
   * truncated to whole milliseconds exactly when the count fits in an Int32.
   */
  lemma {:induction false} SerializerRoundTrip(prefix: string, typeName: string, parseDate: Token -> Result<int>,
                            show: DateTimeOffset -> string, v: DateTimeOffset)
    requires Valid(v)
    ensures TS.Dictify(Serializer(prefix, typeName, parseDate, show), v)
      == Ok(map[TypeKey := VString(prefix + ":" + typeName), ValueKey := VInt(ToUnixEpoch(v))])
    ensures TS.Objectify(Serializer(prefix, typeName, parseDate, show), JInt(ToUnixEpoch(v))) == Ok(Truncated(v))
      <==> InInt32(ToUnixEpoch(v))
  {
    RoundTripAsWritten(v, parseDate);
  }

  /** Through the corrected serializer the round trip holds for every valid instant. */
  lemma {:induction false} CorrectedSerializerRoundTrip(prefix: string, typeName: string, parseDate: Token -> Result<int>,
                            show: DateTimeOffset -> string, v: DateTimeOffset)
    requires Valid(v)
    ensures TS.Dictify(CorrectedSerializer(prefix, typeName, parseDate, show), v)
      == Ok(map[TypeKey := VString(prefix + ":" + typeName), ValueKey := VInt(ToUnixEpoch(v))])
    ensures TS.Objectify(CorrectedSerializer(prefix, typeName, parseDate, show), JInt(ToUnixEpoch(v))) == Ok(Truncated(v))
  {
    RoundTrip(v, parseDate);
  }
}
