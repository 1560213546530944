/**
 * TypeSerializer<T>: a GraphSON (de)serializer for one CLR type under the tag
 * `prefix:typeName`. Its fields are set once by a constructor, so it is a value
 * here; the handlers it composes are functions, and a `show` function stands for
 * the runtime's ToString of a T.
 */
module TypeSerializer {
  import opened Wrappers
  import opened Json

  datatype Serializer<!T> = Serializer(
    prefix: string,
    typeName: string,
    readHandler: Token -> Result<T>,
    writeHandler: T -> Result<Value>)

  /** DefaultWriteHandler: the value's ToString. */
  function DefaultWriteHandler<T>(show: T -> string): T -> Result<Value> {
    x => Ok(VString(show(x)))
  }

  /** The public constructor: a parser of the token's text, and the default writer. */
  function FromStringParser<T>(prefix: string, typeName: string, readHandler: string -> Result<T>, show: T -> string): (s: Serializer<T>)
    ensures s.prefix == prefix && s.typeName == typeName
  {
    Serializer(prefix, typeName, token => readHandler(Text(token)), DefaultWriteHandler(show))
  }

  /** The protected constructor: both handlers given; a null write handler falls back to the default. */
  function WithHandlers<T>(prefix: string, typeName: string, readHandler: Token -> Result<T>,
                           writeHandler: Option<T -> Result<Value>>, show: T -> string): (s: Serializer<T>)
    ensures s.prefix == prefix && s.typeName == typeName
  {
    var write := if writeHandler.Some? then writeHandler.value else DefaultWriteHandler(show);
    Serializer(prefix, typeName, readHandler, write)
  }

  /** FullTypeName: the prefix, a colon and the type name. */
  function FullTypeName<T>(s: Serializer<T>): (name: string)
    ensures |name| == |s.prefix| + 1 + |s.typeName|
    ensures name[..|s.prefix|] == s.prefix && name[|s.prefix|] == ':' && name[|s.prefix| + 1..] == s.typeName
  {
    s.prefix + ":" + s.typeName
  }

  /** Dictify: the write handler's output wrapped as a typed value under this serializer's tag. */
  function Dictify<T>(s: Serializer<T>, objectData: T): Result<map<string, Value>> {
    var v :- s.writeHandler(objectData);
    Ok(ToTypedValue(s.typeName, v, s.prefix))
  }

  /** Objectify: whatever the read handler makes of the token; the GraphSON reader is not consulted. */
  function Objectify<T>(s: Serializer<T>, graphsonObject: Token): Result<T> {
    s.readHandler(graphsonObject)
  }

  /** The position of the first ':' in a tag, if any. */
  function ColonAt(tag: string): (r: Option<nat>)
    ensures r.Some? ==> r.value < |tag| && tag[r.value] == ':' && ':' !in tag[..r.value]
    ensures r.None? ==> ':' !in tag
  {
    if tag == [] then None
    else if tag[0] == ':' then Some(0)
    else match ColonAt(tag[1..])
      case None => None
      case Some(i) => Some(i + 1)
  }

  /** The tag split at its first colon into prefix and type name, as a GraphSON reader reads it. */
  function SplitTag(tag: string): Option<(string, string)> {
    match ColonAt(tag)
    case None => None
    case Some(i) => Some((tag[..i], tag[i + 1..]))
  }

  /** FullTypeName splits back into the prefix and the type name whenever the prefix has no colon. */
  lemma {:induction false} TagRoundTrip<T>(s: Serializer<T>)
    requires ':' !in s.prefix
    ensures SplitTag(FullTypeName(s)) == Some((s.prefix, s.typeName))
  {
    var name := FullTypeName(s);
    var i := |s.prefix|;
    assert name[..i] == s.prefix;
    FirstColon(name, i);
  }

  lemma {:induction false} FirstColon(tag: string, i: nat)
    requires i < |tag| && tag[i] == ':' && ':' !in tag[..i]
    ensures ColonAt(tag) == Some(i)
    decreases i
  {
    if i > 0 {
      assert tag[0] in tag[..i];
      assert tag[1..][..i - 1] == tag[..i][1..];
      FirstColon(tag[1..], i - 1);
    }
  }

  /** Dictify writes exactly "@type" (the full type name) and, unless the written value is null, "@value". */
  lemma {:induction false} DictifyIsTyped<T>(s: Serializer<T>, x: T)
    requires s.writeHandler(x).Ok?
    ensures var v := s.writeHandler(x).value;
      Dictify(s, x).Ok?
      && Dictify(s, x).value.Keys == (if v == VNull then {TypeKey} else {TypeKey, ValueKey})
      && TypeTag(Dictify(s, x).value) == Some(FullTypeName(s))
      && (v != VNull ==> Dictify(s, x).value[ValueKey] == v)
  {
  }

  /** A failing write handler makes Dictify fail with the same error. */
  lemma {:induction false} DictifyPropagates<T>(s: Serializer<T>, x: T)
    requires s.writeHandler(x).Err?
    ensures Dictify(s, x) == Err(s.writeHandler(x).error)
  {
  }

  /** Without a write handler (or with null) the value is written as its ToString. */
  lemma {:induction false} DefaultWriterWritesText<T>(prefix: string, typeName: string, read: Token -> Result<T>,
                                   parser: string -> Result<T>, show: T -> string, x: T)
    ensures Dictify(WithHandlers(prefix, typeName, read, None, show), x)
      == Ok(map[TypeKey := VString(prefix + ":" + typeName), ValueKey := VString(show(x))])
    ensures Dictify(FromStringParser(prefix, typeName, parser, show), x)
      == Ok(map[TypeKey := VString(prefix + ":" + typeName), ValueKey := VString(show(x))])
  {
  }

  /** The string-parser constructor parses the token's text, whatever kind of token it is. */
  lemma {:induction false} StringParserReadsText<T>(prefix: string, typeName: string, parser: string -> Result<T>, show: T -> string, token: Token)
    ensures Objectify(FromStringParser(prefix, typeName, parser, show), token) == parser(Text(token))
  {
  }

  /** The handlers given to the protected constructor are the ones used. */
  lemma {:induction false} GivenHandlersUsed<T>(prefix: string, typeName: string, read: Token -> Result<T>,
                             write: T -> Result<Value>, show: T -> string, x: T, token: Token)
    ensures Objectify(WithHandlers(prefix, typeName, read, Some(write), show), token) == read(token)
    ensures Dictify(WithHandlers(prefix, typeName, read, Some(write), show), x)
      == (match write(x)
          case Ok(v) => Ok(ToTypedValue(typeName, v, prefix))
          case Err(e) => Err(e))
  {
  }
}
