/**
 * Base64 as in section 4 of RFC 4648, the way System.Convert uses it:
 * ToBase64String writes full groups of four characters with "=" padding, and
 * FromBase64String skips white space, requires whole groups and refuses any
 * character outside the alphabet or padding anywhere but at the end.
 */
module Base64 {
  import opened Wrappers
  import opened Numeric

  /** The character for a 6-bit value: A-Z, a-z, 0-9, '+', '/'. */
  function CharOf(v: int): (c: char)
    requires 0 <= v < 64
  {
    if v < 26 then ('A' as int + v) as char
    else if v < 52 then ('a' as int + (v - 26)) as char
    else if v < 62 then ('0' as int + (v - 52)) as char
    else if v == 62 then '+'
    else '/'
  }

  /** The 6-bit value of an alphabet character; None for anything else, '=' included. */
  function ValueOf(c: char): (r: Option<int>)
    ensures r.Some? ==> 0 <= r.value < 64 && CharOf(r.value) == c
  {
    if 'A' <= c <= 'Z' then Some(c as int - 'A' as int)
    else if 'a' <= c <= 'z' then Some(c as int - 'a' as int + 26)
    else if '0' <= c <= '9' then Some(c as int - '0' as int + 52)
    else if c == '+' then Some(62)
    else if c == '/' then Some(63)
    else None
  }

  predicate InAlphabet(c: char) {
    ValueOf(c).Some?
  }

  /** Every 6-bit value has a character, and that character reads back as the value. */
  lemma {:induction false} CharRoundTrip(v: int)
    requires 0 <= v < 64
    ensures ValueOf(CharOf(v)) == Some(v)
  {
  }

  /** The four characters for three bytes. */
  function Quad(x: byte, y: byte, z: byte): string {
    var a := x as int;
    var b := y as int;
    var c := z as int;
    [CharOf(a / 4), CharOf((a % 4) * 16 + b / 16), CharOf((b % 16) * 4 + c / 64), CharOf(c % 64)]
  }

  /** Convert.ToBase64String */
  function Encode(bytes: seq<byte>): (s: string)
    decreases |bytes|
  {
    if |bytes| == 0 then ""
    else if |bytes| == 1 then
      var a := bytes[0] as int;
      [CharOf(a / 4), CharOf((a % 4) * 16)] + "=="
    else if |bytes| == 2 then
      var a := bytes[0] as int;
      var b := bytes[1] as int;
      [CharOf(a / 4), CharOf((a % 4) * 16 + b / 16), CharOf((b % 16) * 4)] + "="
    else Quad(bytes[0], bytes[1], bytes[2]) + Encode(bytes[3..])
  }

  predicate IsWhiteSpace(c: char) {
    c == ' ' || c == '\t' || c == '\r' || c == '\n'
  }

  function StripWhiteSpace(s: string): (t: string)
    ensures forall i :: 0 <= i < |t| ==> !IsWhiteSpace(t[i])
    ensures |t| <= |s|
  {
    if s == [] then []
    else if IsWhiteSpace(s[0]) then StripWhiteSpace(s[1..])
    else [s[0]] + StripWhiteSpace(s[1..])
  }

  /** The three bytes four sextets carry. */
  function Bytes3(a: int, b: int, c: int, d: int): seq<byte>
    requires 0 <= a < 64 && 0 <= b < 64 && 0 <= c < 64 && 0 <= d < 64
  {
    [(a * 4 + b / 16) as byte, ((b % 16) * 16 + c / 4) as byte, ((c % 4) * 64 + d) as byte]
  }

  /** A group of four alphabet characters, no padding: three bytes. */
  function DecodeFull(q: string): (r: Result<seq<byte>>)
    requires |q| == 4
    ensures r.Err? ==> r.error == Format
  {
    var a, b, c, d := ValueOf(q[0]), ValueOf(q[1]), ValueOf(q[2]), ValueOf(q[3]);
    if a.Some? && b.Some? && c.Some? && d.Some? then Ok(Bytes3(a.value, b.value, c.value, d.value))
    else Err(Format)
  }

  /** The last group, which may end in "=" (two bytes) or "==" (one byte). Unused low bits are ignored. */
  function DecodeLast(q: string): (r: Result<seq<byte>>)
    requires |q| == 4
    ensures r.Err? ==> r.error == Format
  {
    var a, b, c := ValueOf(q[0]), ValueOf(q[1]), ValueOf(q[2]);
    if q[3] != '=' then DecodeFull(q)
    else if !(a.Some? && b.Some?) then Err(Format)
    else if q[2] == '=' then Ok(Bytes3(a.value, b.value, 0, 0)[..1])
    else if c.Some? then Ok(Bytes3(a.value, b.value, c.value, 0)[..2])
    else Err(Format)
  }

  function DecodeGroups(t: string): (r: Result<seq<byte>>)
    requires |t| % 4 == 0
    ensures r.Err? ==> r.error == Format
    decreases |t|
  {
    if t == [] then Ok([])
    else if |t| == 4 then DecodeLast(t)
    else
      DropGroup(t);
      var head :- DecodeFull(t[..4]);
      var rest :- DecodeGroups(t[4..]);
      Ok(head + rest)
  }

  /** Whole groups with the first one dropped are still whole groups. */
  lemma {:induction false} DropGroup(t: string)
    requires |t| % 4 == 0 && |t| > 4
    ensures |t[4..]| % 4 == 0
  {
  }

  /** Convert.FromBase64String: a FormatException for anything that is not whole, well-formed groups. */
  function Decode(s: string): (r: Result<seq<byte>>)
    ensures r.Err? ==> r.error == Format
  {
    var t := StripWhiteSpace(s);
    if |t| % 4 != 0 then Err(Format) else DecodeGroups(t)
  }

  // ---- properties ----

  /** Four characters per started group of three bytes. */
  lemma {:induction false} EncodedLength(bytes: seq<byte>)
    ensures |Encode(bytes)| == 4 * ((|bytes| + 2) / 3)
    decreases |bytes|
  {
    if |bytes| > 2 {
      EncodedLength(bytes[3..]);
      GroupCount(|bytes|);
    }
  }

  lemma {:induction false} GroupCount(n: int)
    requires n > 2
    ensures 4 * ((n + 2) / 3) == 4 + 4 * ((n - 3 + 2) / 3)
  {
    assert (n + 2) / 3 == (n - 1) / 3 + 1;
  }

  /** The text holds only alphabet characters and '=' padding, and the padding only at the end. */
  lemma {:induction false} EncodedAlphabet(bytes: seq<byte>)
    ensures forall i :: 0 <= i < |Encode(bytes)| ==> InAlphabet(Encode(bytes)[i]) || Encode(bytes)[i] == '='
    ensures forall i :: 0 <= i < |Encode(bytes)| - 2 ==> InAlphabet(Encode(bytes)[i])
    decreases |bytes|
  {
    var s := Encode(bytes);
    if |bytes| == 1 {
      var a := bytes[0] as int;
      CharRoundTrip(a / 4);
      CharRoundTrip((a % 4) * 16);
    } else if |bytes| == 2 {
      var a := bytes[0] as int;
      var b := bytes[1] as int;
      CharRoundTrip(a / 4);
      CharRoundTrip((a % 4) * 16 + b / 16);
      CharRoundTrip((b % 16) * 4);
    } else if |bytes| > 2 {
      QuadInAlphabet(bytes[0], bytes[1], bytes[2]);
      EncodedAlphabet(bytes[3..]);
      var q := Quad(bytes[0], bytes[1], bytes[2]);
      var r := Encode(bytes[3..]);
      assert s == q + r;
      forall i | 0 <= i < |s| ensures InAlphabet(s[i]) || s[i] == '=' {
        if i >= 4 {
          assert s[i] == r[i - 4];
        }
      }
      forall i | 0 <= i < |s| - 2 ensures InAlphabet(s[i]) {
        if i >= 4 {
          assert s[i] == r[i - 4];
        }
      }
    }
  }

  lemma {:induction false} QuadInAlphabet(x: byte, y: byte, z: byte)
    ensures forall i :: 0 <= i < 4 ==> InAlphabet(Quad(x, y, z)[i])
  {
    var a := x as int;
    var b := y as int;
    var c := z as int;
    CharRoundTrip(a / 4);
    CharRoundTrip((a % 4) * 16 + b / 16);
    CharRoundTrip((b % 16) * 4 + c / 64);
    CharRoundTrip(c % 64);
  }

  /** The sextets of three bytes carry the bytes back. */
  lemma {:induction false} SextetsRoundTrip(x: byte, y: byte, z: byte)
    ensures var a := x as int;
      var b := y as int;
      var c := z as int;
      Bytes3(a / 4, (a % 4) * 16 + b / 16, (b % 16) * 4 + c / 64, c % 64) == [x, y, z]
  {
    var a := x as int;
    var b := y as int;
    var c := z as int;
    HighLow16(a % 4, b / 16);
    HighLow4(b % 16, c / 64);
  }

  /** A high part u and a low part v below 16 are recovered by division and remainder. */
  lemma {:induction false} HighLow16(u: int, v: int)
    requires 0 <= v < 16
    ensures (u * 16 + v) / 16 == u && (u * 16 + v) % 16 == v
  {
  }

  lemma {:induction false} HighLow4(u: int, v: int)
    requires 0 <= v < 4
    ensures (u * 4 + v) / 4 == u && (u * 4 + v) % 4 == v
  {
  }

  lemma {:induction false} QuadRoundTrip(x: byte, y: byte, z: byte)
    ensures DecodeFull(Quad(x, y, z)) == Ok([x, y, z])
  {
    var a := x as int;
    var b := y as int;
    var c := z as int;
    CharRoundTrip(a / 4);
    CharRoundTrip((a % 4) * 16 + b / 16);
    CharRoundTrip((b % 16) * 4 + c / 64);
    CharRoundTrip(c % 64);
    SextetsRoundTrip(x, y, z);
  }

  lemma {:induction false} GroupsRoundTrip(bytes: seq<byte>)
    ensures |Encode(bytes)| % 4 == 0
    ensures DecodeGroups(Encode(bytes)) == Ok(bytes)
    decreases |bytes|
  {
    WholeGroups(bytes);
    if |bytes| == 1 {
      OneByteRoundTrip(bytes);
    } else if |bytes| == 2 {
      TwoBytesRoundTrip(bytes);
    } else if |bytes| > 2 {
      var rest := bytes[3..];
      GroupsRoundTrip(rest);
      FullGroupThen(bytes[0], bytes[1], bytes[2], rest);
      FirstThree(bytes);
    }
  }

  lemma {:induction false} WholeGroups(bytes: seq<byte>)
    ensures |Encode(bytes)| % 4 == 0
  {
    EncodedLength(bytes);
    FourTimes(|Encode(bytes)|, (|bytes| + 2) / 3);
  }

  lemma {:induction false} FourTimes(n: int, k: int)
    requires n == 4 * k
    ensures n % 4 == 0
  {
  }

  lemma {:induction false} FirstThree<T>(s: seq<T>)
    requires |s| > 2
    ensures [s[0], s[1], s[2]] + s[3..] == s
  {
  }

  lemma {:induction false} OneByteRoundTrip(bytes: seq<byte>)
    requires |bytes| == 1
    ensures DecodeGroups(Encode(bytes)) == Ok(bytes)
  {
    assert bytes == [bytes[0]];
    OneByteLast(bytes[0]);
  }

  /** One byte: two characters and "==", which the last-group rule reads back. */
  lemma {:induction false} OneByteLast(x: byte)
    ensures |Encode([x])| == 4 && DecodeLast(Encode([x])) == Ok([x])
  {
    var a := x as int;
    assert Encode([x]) == [CharOf(a / 4), CharOf((a % 4) * 16), '=', '='];
    CharRoundTrip(a / 4);
    CharRoundTrip((a % 4) * 16);
    OneByteSextets(x);
  }

  lemma {:induction false} OneByteSextets(x: byte)
    ensures var a := x as int;
      Bytes3(a / 4, (a % 4) * 16, 0, 0)[..1] == [x]
  {
    var a := x as int;
    HighLow16(a % 4, 0);
  }

  lemma {:induction false} TwoBytesRoundTrip(bytes: seq<byte>)
    requires |bytes| == 2
    ensures DecodeGroups(Encode(bytes)) == Ok(bytes)
  {
    assert bytes == [bytes[0], bytes[1]];
    TwoBytesLast(bytes[0], bytes[1]);
  }

  /** Two bytes: three characters and "=", which the last-group rule reads back. */
  lemma {:induction false} TwoBytesLast(x: byte, y: byte)
    ensures |Encode([x, y])| == 4 && DecodeLast(Encode([x, y])) == Ok([x, y])
  {
    var a := x as int;
    var b := y as int;
    assert Encode([x, y]) == [CharOf(a / 4), CharOf((a % 4) * 16 + b / 16), CharOf((b % 16) * 4), '='];
    CharRoundTrip(a / 4);
    CharRoundTrip((a % 4) * 16 + b / 16);
    CharRoundTrip((b % 16) * 4);
    TwoBytesSextets(x, y);
  }

  lemma {:induction false} TwoBytesSextets(x: byte, y: byte)
    ensures var a := x as int;
      var b := y as int;
      Bytes3(a / 4, (a % 4) * 16 + b / 16, (b % 16) * 4, 0)[..2] == [x, y]
  {
    var a := x as int;
    var b := y as int;
    HighLow16(a % 4, b / 16);
    HighLow4(b % 16, 0);
  }

  /** A full group in front of groups that decode to rest decodes to its three bytes then rest. */
  lemma {:induction false} FullGroupThen(x: byte, y: byte, z: byte, rest: seq<byte>)
    requires |Encode(rest)| % 4 == 0 && DecodeGroups(Encode(rest)) == Ok(rest)
    ensures var s := Quad(x, y, z) + Encode(rest);
      |s| % 4 == 0 && DecodeGroups(s) == Ok([x, y, z] + rest)
  {
    var q := Quad(x, y, z);
    QuadRoundTrip(x, y, z);
    if rest == [] {
      QuadInAlphabet(x, y, z);
      assert q[3] != '=';
      assert q + Encode(rest) == q;
      assert [x, y, z] + rest == [x, y, z];
    } else {
      GroupsCons(q, Encode(rest), [x, y, z], rest);
    }
  }

  lemma {:induction false} GroupsCons(q: string, t: string, head: seq<byte>, tail: seq<byte>)
    requires |q| == 4 && |t| % 4 == 0 && t != []
    requires DecodeFull(q) == Ok(head) && DecodeGroups(t) == Ok(tail)
    ensures |q + t| % 4 == 0 && DecodeGroups(q + t) == Ok(head + tail)
  {
    var s := q + t;
    GroupLength(q, t);
    assert s[..4] == q;
    assert s[4..] == t;
  }

  /** A group in front of whole groups leaves whole groups. */
  lemma {:induction false} GroupLength(q: string, t: string)
    requires |q| == 4 && |t| % 4 == 0
    ensures |q + t| % 4 == 0
  {
  }

  lemma {:induction false} NoWhiteSpaceKept(s: string)
    requires forall i :: 0 <= i < |s| ==> !IsWhiteSpace(s[i])
    ensures StripWhiteSpace(s) == s
  {
    if s != [] {
      NoWhiteSpaceKept(s[1..]);
    }
  }

  /** Decoding what was encoded gives back the bytes, for every byte string. */
  lemma {:induction false} RoundTrip(bytes: seq<byte>)
    ensures Decode(Encode(bytes)) == Ok(bytes)
  {
    var s := Encode(bytes);
    EncodedAlphabet(bytes);
    assert forall i :: 0 <= i < |s| ==> !IsWhiteSpace(s[i]);
    NoWhiteSpaceKept(s);
    GroupsRoundTrip(bytes);
  }

  /** Test vector: the bytes 1, 2, 3 are written "AQID". */
  lemma {:induction false} TestVector()
    ensures Encode([1, 2, 3]) == "AQID"
  {
  }
}
