/**
 * The reading side of a gx:Duration: the subset of java.time.Duration's ISO-8601
 * text form `[-]PT[nH][nM][n[.f]S]` (fields in this order, each optional, at most
 * nine fractional digits), mapped to the signed number of nanoseconds it denotes.
 * It is defined independently of the encoder and serves as its reference. The
 * reader walks the text by position, as a scanner does.
 */
module JavaDuration {
  import opened Wrappers
  import opened Numeric

  const SecondNanos: int := 1_000_000_000
  const MinuteNanos: int := 60_000_000_000
  const HourNanos: int := 3_600_000_000_000

  /** The signed nanosecond count the text denotes, or None when it is not of the form above. */
  function Parse(s: string): Option<int> {
    if |s| > 0 && s[0] == '-' then
      match ParseUnsigned(s, 1)
      case Some(n) => Some(0 - n as int)
      case None => None
    else
      match ParseUnsigned(s, 0)
      case Some(n) => Some(n as int)
      case None => None
  }

  /** "PT" at position i, followed by at least one field. */
  function ParseUnsigned(s: string, i: nat): Option<nat> {
    if i + 2 < |s| && s[i] == 'P' && s[i + 1] == 'T' then FieldsFrom(s, i + 2, 0) else None
  }

  function Plus(a: nat, r: Option<nat>): Option<nat> {
    match r
    case Some(b) => Some(a + b)
    case None => None
  }

  /** Whole seconds and a fraction written with `digits` digits, in nanoseconds. */
  function SecondsNanos(whole: nat, fraction: nat, digits: nat): nat
    requires digits <= 9
  {
    whole * SecondNanos + fraction * Pow10(9 - digits)
  }

  /** The position where the run of decimal digits starting at position i ends. */
  function DigitsEnd(s: string, i: nat): (j: nat)
    requires i <= |s|
    ensures i <= j <= |s|
    decreases |s| - i
  {
    if i < |s| && IsDigit(s[i]) then DigitsEnd(s, i + 1) else i
  }

  /** The number the characters from position i up to j denote; the reader applies it to digit runs only. */
  function ValueBetween(s: string, i: nat, j: nat): nat
    requires i <= j <= |s|
    decreases j - i
  {
    if j == i then 0
    else ValueBetween(s, i, j - 1) * 10 + (if IsDigit(s[j - 1]) then DigitValue(s[j - 1]) else 0)
  }

  /**
   * The fields from position i on. `stage` is the first unit still allowed: 0 hours,
   * 1 minutes, 2 seconds; seconds, with or without a fraction, end the text.
   */
  function FieldsFrom(s: string, i: nat, stage: nat): Option<nat>
    requires i <= |s|
    decreases |s| - i
  {
    if i == |s| then Some(0)
    else
      var j := DigitsEnd(s, i);
      if j == i || j == |s| then None
      else
        var v := ValueBetween(s, i, j);
        if s[j] == 'H' && stage == 0 then Plus(v * HourNanos, FieldsFrom(s, j + 1, 1))
        else if s[j] == 'M' && stage <= 1 then Plus(v * MinuteNanos, FieldsFrom(s, j + 1, 2))
        else if s[j] == 'S' && j + 1 == |s| then Some(v * SecondNanos)
        else if s[j] == '.' then
          var k := DigitsEnd(s, j + 1);
          if j + 1 < k <= j + 10 && k + 1 == |s| && s[k] == 'S' then
            Some(SecondsNanos(v, ValueBetween(s, j + 1, k), k - (j + 1)))
          else None
        else None
  }

  // ---- reading one field ----

  /** A digit run ds after the prefix p, then t not starting with a digit: the run from |p| ends after ds. */
  lemma {:induction false} DigitsEndOf(p: string, ds: string, t: string)
    requires AllDigits(ds) && (t == [] || !IsDigit(t[0]))
    ensures DigitsEnd(p + ds + t, |p|) == |p| + |ds|
    decreases |ds|
  {
    if ds == [] {
      assert p + ds + t == p + t;
    } else {
      var q := p + [ds[0]];
      assert p + ds + t == q + ds[1..] + t;
      assert (p + ds + t)[|p|] == ds[0];
      DigitsEndOf(q, ds[1..], t);
    }
  }

  /** The digits ds after the prefix p read back as the value they denote. */
  lemma {:induction false} ValueOf(p: string, ds: string, t: string)
    requires AllDigits(ds)
    ensures ValueBetween(p + ds + t, |p|, |p| + |ds|) == DigitsValue(ds)
    decreases |ds|
  {
    if ds != [] {
      var init := ds[..|ds| - 1];
      var last := ds[|ds| - 1];
      assert p + ds + t == p + init + ([last] + t);
      assert (p + ds + t)[|p| + |ds| - 1] == last;
      ValueOf(p, init, [last] + t);
    }
  }

  /** A digit run ds after the prefix p, followed by c: the reader stops at c and reads ds's value. */
  lemma {:induction false} FieldAt(s: string, p: string, ds: string, c: char, rest: string)
    requires s == p + ds + [c] + rest && AllDigits(ds) && !IsDigit(c)
    ensures DigitsEnd(s, |p|) == |p| + |ds| && s[|p| + |ds|] == c
    ensures ValueBetween(s, |p|, |p| + |ds|) == DigitsValue(ds)
  {
    assert s == p + ds + ([c] + rest);
    DigitsEndOf(p, ds, [c] + rest);
    ValueOf(p, ds, [c] + rest);
  }

  /** A sign and "PT" in front of fields that read back as n. */
  lemma {:induction false} SignedFields(s: string, p: string, body: string, n: nat, negative: bool)
    requires p == (if negative then "-" else "") + "PT"
    requires s == p + body && body != [] && FieldsFrom(s, |p|, 0) == Some(n)
    ensures negative ==> Parse(s) == Some(0 - n)
    ensures !negative ==> Parse(s) == Some(n)
  {
    if negative {
      assert s[0] == '-' && s[1] == 'P' && s[2] == 'T';
    } else {
      assert s[0] == 'P' && s[1] == 'T';
    }
  }

  /** The number n, written in decimal after the prefix p and followed by c, read back as n. */
  lemma {:induction false} NumberAt(s: string, p: string, n: nat, c: char, rest: string)
    requires s == p + Digits(n) + [c] + rest && !IsDigit(c)
    ensures DigitsEnd(s, |p|) == |p| + |Digits(n)| && s[|p| + |Digits(n)|] == c
    ensures ValueBetween(s, |p|, |p| + |Digits(n)|) == n
  {
    FieldAt(s, p, Digits(n), c, rest);
    DigitsRoundTrip(n);
  }

  /** An hours field n after the prefix p, followed by fields from the minutes on that read back as r. */
  lemma {:induction false} HoursThen(s: string, p: string, n: nat, rest: string, r: nat)
    requires s == p + Digits(n) + ['H'] + rest
    requires FieldsFrom(s, |p + Digits(n) + ['H']|, 1) == Some(r)
    ensures FieldsFrom(s, |p|, 0) == Some(n * HourNanos + r)
  {
    NumberAt(s, p, n, 'H', rest);
  }

  /** A minutes field n after the prefix p, followed by fields from the seconds on that read back as sec. */
  lemma {:induction false} MinutesThen(s: string, p: string, n: nat, rest: string, stage: nat, sec: nat)
    requires s == p + Digits(n) + ['M'] + rest && stage <= 1
    requires FieldsFrom(s, |p + Digits(n) + ['M']|, 2) == Some(sec)
    ensures FieldsFrom(s, |p|, stage) == Some(n * MinuteNanos + sec)
  {
    NumberAt(s, p, n, 'M', rest);
  }

  /** n whole seconds after the prefix p end the text. */
  lemma {:induction false} WholeSecondsThen(s: string, p: string, n: nat, stage: nat)
    requires s == p + Digits(n) + ['S']
    ensures FieldsFrom(s, |p|, stage) == Some(n * SecondNanos)
  {
    assert s == p + Digits(n) + ['S'] + [];
    NumberAt(s, p, n, 'S', []);
  }

  /** n seconds and a fraction of one to nine digits after the prefix p end the text. */
  lemma {:induction false} FractionalSecondsThen(s: string, p: string, n: nat, fs: string, stage: nat)
    requires s == p + Digits(n) + ['.'] + fs + ['S'] && 1 <= |fs| <= 9 && AllDigits(fs)
    ensures FieldsFrom(s, |p|, stage) == Some(SecondsNanos(n, DigitsValue(fs), |fs|))
  {
    var q := p + Digits(n) + ['.'];
    assert s == p + Digits(n) + ['.'] + (fs + ['S']);
    NumberAt(s, p, n, '.', fs + ['S']);
    assert s == q + fs + ['S'] + [];
    FieldAt(s, q, fs, 'S', []);
    var k := |q| + |fs|;
    assert k - |q| == |fs|;
    FractionAt(s, |p|, |p| + |Digits(n)|, |q|, k, stage);
  }

  /** The reader's fractional-seconds branch, by positions: whole digits up to j, a point, fraction digits from j1 up to k, then 'S'. */
  lemma {:induction false} FractionAt(s: string, i: nat, j: nat, j1: nat, k: nat, stage: nat)
    requires i < j && j1 == j + 1 && j1 < k <= j1 + 9 && k + 1 == |s|
    requires DigitsEnd(s, i) == j && s[j] == '.' && DigitsEnd(s, j1) == k && s[k] == 'S'
    ensures FieldsFrom(s, i, stage) == Some(SecondsNanos(ValueBetween(s, i, j), ValueBetween(s, j1, k), k - j1))
  {
  }

  /** Nothing left after the prefix p: no more fields, nothing more to add. */
  lemma {:induction false} NoFields(s: string, p: string, stage: nat)
    requires s == p
    ensures FieldsFrom(s, |p|, stage) == Some(0)
  {
  }
}
