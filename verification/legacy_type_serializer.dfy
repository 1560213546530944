/**
 * The older generation's TypeSerializer<T>: a parser of the token's text, and a
 * writer that always writes the value's ToString; there is no custom write handler.
 */
module LegacyTypeSerializer {
  import opened Wrappers
  import opened Json
  import TS = TypeSerializer

  datatype Serializer<!T> = Serializer(prefix: string, typeName: string, parser: Token -> Result<T>)

  /** The only constructor: the parser is applied to the token's ToString. */
  function New<T>(prefix: string, typeName: string, parser: string -> Result<T>): (s: Serializer<T>)
    ensures s.prefix == prefix && s.typeName == typeName
  {
    Serializer(prefix, typeName, token => parser(Text(token)))
  }

  function FullTypeName<T>(s: Serializer<T>): string {
    s.prefix + ":" + s.typeName
  }

  /** Dictify: `objectData.ToString()` as a typed value; `show` stands for that ToString. */
  function Dictify<T>(s: Serializer<T>, objectData: T, show: T -> string): (r: map<string, Value>)
    ensures r.Keys == {TypeKey, ValueKey}
    ensures TypeTag(r) == Some(FullTypeName(s)) && r[ValueKey] == VString(show(objectData))
  {
    ToTypedValue(s.typeName, VString(show(objectData)), s.prefix)
  }

  function Objectify<T>(s: Serializer<T>, graphsonObject: Token): Result<T> {
    s.parser(graphsonObject)
  }

  /**
   * The legacy serializer behaves as the current one built with the string-parser
   * constructor, whose writer is the default ToString: same tag, same dictionary,
   * same parse of every token.
   */
  lemma {:induction false} AgreesWithCurrent<T>(prefix: string, typeName: string, parser: string -> Result<T>, show: T -> string, x: T, token: Token)
    ensures var legacy := New(prefix, typeName, parser);
      var current := TS.FromStringParser(prefix, typeName, parser, show);
      FullTypeName(legacy) == TS.FullTypeName(current)
      && TS.Dictify(current, x) == Ok(Dictify(legacy, x, show))
      && Objectify(legacy, token) == TS.Objectify(current, token)
      && Objectify(legacy, token) == parser(Text(token))
  {
  }
}
