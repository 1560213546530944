/**
 * dse:Blob. A byte array is written as its Base64 text and read back by decoding
 * the token's text.
 */
module ByteArraySerializer {
  import opened Wrappers
  import opened Numeric
  import opened Json
  import Base64
  import TS = TypeSerializer

  function Write(value: seq<byte>): (r: Result<Value>)
    ensures r.Ok? && r.value.VString?
    ensures |r.value.s| == 4 * ((|value| + 2) / 3)
  {
    Base64.EncodedLength(value);
    Ok(VString(Base64.Encode(value)))
  }

  function Read(token: Token): (r: Result<seq<byte>>)
    ensures r.Err? ==> r.error == Format
  {
    Base64.Decode(Text(token))
  }

  /** byte[].ToString(), which the default writer would use. */
  function TypeNameText(value: seq<byte>): string {
    "System.Byte[]"
  }

  /**
   * The serializer with tag "dse", "Blob" and the two handlers above, as the
   * four-argument base constructor sets it up.
   */
  function Serializer(): (s: TS.Serializer<seq<byte>>)
    ensures TS.FullTypeName(s) == "dse:Blob"
  {
    TS.WithHandlers("dse", "Blob", Read, Some(Write), TypeNameText)
  }

  /**
   * What Dictify writes reads back: the "@value" string, received as a JSON string
   * token, decodes to the original bytes.
   */
  lemma {:induction false} RoundTrip(value: seq<byte>)
    ensures TS.Dictify(Serializer(), value).Ok?
    ensures var d := TS.Dictify(Serializer(), value).value;
      ValueKey in d && d[ValueKey].VString?
      && TypeTag(d) == Some("dse:Blob")
      && TS.Objectify(Serializer(), JString(d[ValueKey].s)) == Ok(value)
  {
    Base64.RoundTrip(value);
  }

  /** The empty array is written as the empty string. */
  lemma {:induction false} EmptyArray()
    ensures Write([]) == Ok(VString(""))
  {
  }

  /** Test vector: the blob {1, 2, 3} is written "AQID" and read back. */
  lemma {:induction false} TestVector()
    ensures Write([1, 2, 3]) == Ok(VString("AQID"))
    ensures Read(JString("AQID")) == Ok([1, 2, 3])
  {
    Base64.TestVector();
    Base64.RoundTrip([1, 2, 3]);
  }
}
