/**
 * The two JSON-shaped worlds the serializers sit between: Json.NET tokens
 * (`Token`, what the reader receives) and the dictionaries, arrays and
 * primitives the GraphSON writer consumes (`Value`).
 */
module Json {
  import opened Wrappers
  import opened Numeric

  /** A Json.NET JToken. Kinds whose payload the model does not interpret carry their text. */
  datatype Token =
    | JNull
    | JUndefined
    | JBool(b: bool)
    | JInt(i: int)                         // JTokenType.Integer (Int64 or BigInteger payload)
    | JFloat(text: string)                 // JTokenType.Float, payload kept opaque
    | JString(s: string)
    | JOther(text: string)                 // Date, Guid, Uri, TimeSpan, Bytes, Raw, Comment
    | JArray(items: seq<Token>)
    | JObject(props: seq<Prop>)
    | JProperty(name: string, value: Token)  // what enumerating a JObject yields

  datatype Prop = Prop(key: string, value: Token)

  /** `token is JValue` */
  predicate IsValue(t: Token) {
    !(t.JArray? || t.JObject? || t.JProperty?)
  }

  /** What `(string) token` accepts: a JValue, or a property whose value is one. */
  predicate Castable(t: Token) {
    IsValue(t) || (t.JProperty? && IsValue(t.value))
  }

  /** The value of the first property named key. */
  function Lookup(props: seq<Prop>, key: string): (r: Option<Token>)
    ensures r.Some? <==> exists i :: 0 <= i < |props| && props[i].key == key
    ensures r.Some? ==> exists i :: 0 <= i < |props| && props[i].key == key && props[i].value == r.value
  {
    if props == [] then None
    else if props[0].key == key then Some(props[0].value)
    else Lookup(props[1..], key)
  }

  /** `token[key]`: null when the object has no such property; only objects can be indexed by name. */
  function Index(t: Token, key: string): Result<Option<Token>> {
    match t
    case JObject(props) => Ok(Lookup(props, key))
    case JArray(_) => Err(Argument)
    case _ => Err(InvalidOperation)
  }

  /**
   * `(string) token`: null for a missing token or a JSON null, the text of a scalar,
   * a failure otherwise; a property is first replaced by its value, once.
   */
  function CastString(t: Option<Token>): (r: Result<Option<string>>)
    ensures r.Ok? <==> t.None? || Castable(t.value)
    ensures r.Err? ==> r.error == Argument
  {
    match t
    case None => Ok(None)
    case Some(JProperty(_, v)) => ScalarString(v)
    case Some(v) => ScalarString(v)
  }

  /** The string conversion of a token that is not unwrapped any further. */
  function ScalarString(t: Token): Result<Option<string>> {
    match t
    case JNull => Ok(None)
    case JUndefined => Ok(None)
    case JBool(b) => Ok(Some(BoolText(b)))
    case JInt(i) => Ok(Some(IntText(i)))
    case JFloat(x) => Ok(Some(x))
    case JString(s) => Ok(Some(s))
    case JOther(x) => Ok(Some(x))
    case _ => Err(Argument)
  }

  /** Boolean.ToString() */
  function BoolText(b: bool): string {
    if b then "True" else "False"
  }

  /** The children enumerated by `foreach` over a token. */
  function Children(t: Token): seq<Token> {
    match t
    case JArray(items) => items
    case JObject(props) => seq(|props|, i requires 0 <= i < |props| => JProperty(props[i].key, props[i].value))
    case JProperty(_, v) => [v]
    case _ => []
  }

  /**
   * `token.ToString()`: the raw text of a scalar; containers as JSON text. The
   * line breaks and indentation Json.NET puts between members are not modelled.
   */
  function Text(t: Token): string
    decreases t, 0
  {
    match t
    case JNull => ""
    case JUndefined => ""
    case JBool(b) => BoolText(b)
    case JInt(i) => IntText(i)
    case JFloat(x) => x
    case JString(s) => s
    case JOther(x) => x
    case JArray(items) => "[" + ItemsText(items) + "]"
    case JObject(props) => "{" + PropsText(props) + "}"
    case JProperty(n, v) => "\"" + n + "\": " + Quoted(v)
  }

  function Quoted(t: Token): string
    decreases t, 1
  {
    match t
    case JString(s) => "\"" + s + "\""
    case JNull => "null"
    case _ => Text(t)
  }

  function ItemsText(items: seq<Token>): string
    decreases items, 0
  {
    if items == [] then ""
    else if |items| == 1 then Quoted(items[0])
    else Quoted(items[0]) + "," + ItemsText(items[1..])
  }

  function PropsText(props: seq<Prop>): string
    decreases props, 0
  {
    if props == [] then ""
    else
      var p := props[0];
      var head := "\"" + p.key + "\":" + Quoted(p.value);
      if |props| == 1 then head else head + "," + PropsText(props[1..])
  }

  /** What the GraphSON writer consumes: Dictionary<string, dynamic>, object[] and primitives. */
  datatype Value =
    | VNull
    | VBool(b: bool)
    | VInt(i: int)
    | VDouble(text: string)
    | VString(s: string)
    | VArray(items: seq<Value>)
    | VDict(entries: map<string, Value>)

  const TypeKey: string := "@type"
  const ValueKey: string := "@value"

  /**
   * GraphSONUtil.ToTypedValue (Gremlin.Net): `{"@type": prefix:typeName, "@value": value}`,
   * the value entry left out when the value is null.
   */
  function ToTypedValue(typeName: string, value: Value, prefix: string): map<string, Value> {
    var tagged := map[TypeKey := VString(prefix + ":" + typeName)];
    if value == VNull then tagged else tagged[ValueKey := value]
  }

  /** The string held under "@type" in a typed value, if any. */
  function TypeTag(d: map<string, Value>): Option<string> {
    if TypeKey in d && d[TypeKey].VString? then Some(d[TypeKey].s) else None
  }
}
