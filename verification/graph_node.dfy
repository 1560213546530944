/**
 * GraphNodeSerializer: a write-only serializer that turns the raw JSON object
 * behind a GraphNode into the dictionaries, arrays and primitives the GraphSON
 * writer consumes.
 */
module GraphNodeSerializer {
  import opened Wrappers
  import opened Numeric
  import opened Json

  /** The property names of an object. */
  function KeysOf(props: seq<Prop>): set<string> {
    set i | 0 <= i < |props| :: props[i].key
  }

  /** No property name occurs twice. */
  predicate DistinctKeys(props: seq<Prop>) {
    forall i, j :: 0 <= i < j < |props| ==> props[i].key != props[j].key
  }

  /**
   * ToGraphSON: objects and arrays converted recursively, booleans as bool,
   * integers through ToObject<int> (an OverflowException outside the Int32 range),
   * floats as double, null and undefined as null, and every other token through
   * ToObject<string>.
   */
  function ToGraphSON(token: Token): Result<Value>
    decreases token, 1
  {
    match token
    case JObject(props) =>
      var d :- ObjectToGraphSON(map[], props);
      Ok(VDict(d))
    case JArray(items) =>
      var a :- ArrayToGraphSON(items);
      Ok(VArray(a))
    case JBool(b) => Ok(VBool(b))
    case JInt(i) => if InInt32(i) then Ok(VInt(i)) else Err(Overflow)
    case JFloat(x) => Ok(VDouble(x))
    case JNull => Ok(VNull)
    case JUndefined => Ok(VNull)
    case JString(s) => Ok(VString(s))
    case JOther(x) => Ok(VString(x))
    case JProperty(_, _) => Err(Argument)
  }

  /**
   * JObjectToGraphSON as a function: each property's value converted, then
   * `result.Add(key, value)`, in order, onto `result`; Add throws an
   * ArgumentException on a key already present. A JObject parsed by Json.NET
   * never holds two properties of one name, so that branch is reached only by
   * a Token value that Json.NET itself could not build.
   */
  function ObjectToGraphSON(result: map<string, Value>, props: seq<Prop>): (r: Result<map<string, Value>>)
    ensures r.Ok? ==> r.value.Keys == result.Keys + KeysOf(props)
    ensures r.Ok? ==> forall k :: k in result ==> r.value[k] == result[k]
    ensures r.Ok? ==> forall i :: 0 <= i < |props| ==>
      ToGraphSON(props[i].value).Ok? && r.value[props[i].key] == ToGraphSON(props[i].value).value
    decreases props, 0
  {
    if props == [] then Ok(result)
    else
      var v :- ToGraphSON(props[0].value);
      if props[0].key in result then Err(Argument)
      else
        var r := ObjectToGraphSON(result[props[0].key := v], props[1..]);
        assert forall i :: 1 <= i < |props| ==> props[i] == props[1..][i - 1];
        KeysOfCons(props);
        r
  }

  /** `array.Select(ToGraphSON).ToArray()`: each item converted, in order. */
  function ArrayToGraphSON(items: seq<Token>): (r: Result<seq<Value>>)
    ensures r.Ok? ==> |r.value| == |items|
    ensures r.Ok? ==> forall i :: 0 <= i < |items| ==> ToGraphSON(items[i]) == Ok(r.value[i])
    decreases items, 0
  {
    if items == [] then Ok([])
    else
      var first :- ToGraphSON(items[0]);
      var rest :- ArrayToGraphSON(items[1..]);
      assert forall i :: 1 <= i < |items| ==> items[i] == items[1..][i - 1];
      Ok([first] + rest)
  }

  /** JObjectToGraphSON: a new dictionary filled by a loop over the object's properties. */
  method JObjectToGraphSON(props: seq<Prop>) returns (r: Result<map<string, Value>>)
    ensures r == ObjectToGraphSON(map[], props)
  {
    var result: map<string, Value> := map[];
    for i := 0 to |props|
      invariant ObjectToGraphSON(result, props[i..]) == ObjectToGraphSON(map[], props)
    {
      assert props[i..][1..] == props[i + 1..];
      var v := ToGraphSON(props[i].value);
      if v.Err? {
        return Err(v.error);
      }
      if props[i].key in result {
        return Err(Argument);
      }
      result := result[props[i].key := v.value];
    }
    assert props[|props|..] == [];
    r := Ok(result);
  }

  /** Dictify: the raw token of the GraphNode must be an object; anything else is a NotSupportedException. */
  method Dictify(raw: Token) returns (r: Result<map<string, Value>>)
    ensures !raw.JObject? ==> r == Err(NotSupported)
    ensures raw.JObject? ==> r == ObjectToGraphSON(map[], raw.props)
    ensures raw.JObject? ==> (r.Ok? <==> Convertible(raw))
    ensures r.Ok? ==> r.value.Keys == KeysOf(raw.props)
  {
    if !raw.JObject? {
      return Err(NotSupported);
    }
    ConvertibleIff(raw);
    r := JObjectToGraphSON(raw.props);
  }

  /** Objectify: the serializer is write-only and always refuses. */
  function Objectify(graphsonObject: Token): (r: Result<Value>)
    ensures r == Err(NotSupported)
  {
    Err(NotSupported)
  }

  /** FullTypeName is null, so the reader registry leaves this serializer out. */
  const FullTypeName: Option<string> := None

  /**
   * The tokens ToGraphSON accepts, defined independently of it: no property token
   * as a value, integers within Int32, and distinct property names in every object
   * (the last always holds of a real JObject; Token does not enforce it).
   */
  predicate Convertible(token: Token)
    decreases token, 1
  {
    match token
    case JObject(props) => DistinctKeys(props) && AllConvertibleProps(props)
    case JArray(items) => AllConvertible(items)
    case JInt(i) => InInt32(i)
    case JProperty(_, _) => false
    case _ => true
  }

  predicate AllConvertible(items: seq<Token>)
    decreases items, 0
  {
    items == [] || (Convertible(items[0]) && AllConvertible(items[1..]))
  }

  predicate AllConvertibleProps(props: seq<Prop>)
    decreases props, 0
  {
    props == [] || (Convertible(props[0].value) && AllConvertibleProps(props[1..]))
  }

  /** ToGraphSON succeeds exactly on the convertible tokens. */
  lemma {:induction false} ConvertibleIff(token: Token)
    ensures ToGraphSON(token).Ok? <==> Convertible(token)
    decreases token, 1
  {
    match token
    case JObject(props) => ObjectConvertibleIff(map[], props);
    case JArray(items) => ArrayConvertibleIff(items);
    case _ =>
  }

  lemma {:induction false} ArrayConvertibleIff(items: seq<Token>)
    ensures ArrayToGraphSON(items).Ok? <==> AllConvertible(items)
    decreases items, 0
  {
    if items != [] {
      ConvertibleIff(items[0]);
      ArrayConvertibleIff(items[1..]);
    }
  }

  /** Filling `result` succeeds exactly when the names are distinct, new to it, and every value converts. */
  lemma {:induction false} ObjectConvertibleIff(result: map<string, Value>, props: seq<Prop>)
    ensures ObjectToGraphSON(result, props).Ok?
      <==> DistinctKeys(props) && result.Keys !! KeysOf(props) && AllConvertibleProps(props)
    decreases props, 0
  {
    if props != [] {
      var k := props[0].key;
      var rest := props[1..];
      ConvertibleIff(props[0].value);
      if ToGraphSON(props[0].value).Ok? {
        ObjectConvertibleIff(result[k := ToGraphSON(props[0].value).value], rest);
      }
      KeysOfCons(props);
      DistinctKeysCons(props);
    }
  }

  /** The names of a non-empty object: the first one and those of the rest. */
  lemma {:induction false} KeysOfCons(props: seq<Prop>)
    requires props != []
    ensures KeysOf(props) == {props[0].key} + KeysOf(props[1..])
  {
    var k := props[0].key;
    var rest := props[1..];
    forall x | x in KeysOf(props) ensures x in {k} + KeysOf(rest) {
      var i :| 0 <= i < |props| && props[i].key == x;
      if i > 0 { assert rest[i - 1] == props[i]; }
    }
    forall x | x in KeysOf(rest) ensures x in KeysOf(props) {
      var i :| 0 <= i < |rest| && rest[i].key == x;
      assert props[i + 1] == rest[i];
    }
  }

  /** A non-empty object has distinct names exactly when its first name is not among the rest, which are distinct. */
  lemma {:induction false} DistinctKeysCons(props: seq<Prop>)
    requires props != []
    ensures DistinctKeys(props) <==> props[0].key !in KeysOf(props[1..]) && DistinctKeys(props[1..])
  {
    var k := props[0].key;
    var rest := props[1..];
    KeysOfCons(props);
    if DistinctKeys(props) {
      forall j | 0 <= j < |rest| ensures rest[j].key != k {
        assert rest[j] == props[j + 1];
      }
      forall i, j | 0 <= i < j < |rest| ensures rest[i].key != rest[j].key {
        assert rest[i] == props[i + 1] && rest[j] == props[j + 1];
      }
    }
    if k !in KeysOf(rest) && DistinctKeys(rest) {
      forall i, j | 0 <= i < j < |props| ensures props[i].key != props[j].key {
        assert props[j] == rest[j - 1];
        if i > 0 { assert props[i] == rest[i - 1]; }
      }
    }
  }

  /**
   * An object converts to a dictionary with exactly its property names, each
   * holding its value converted; an array converts to an array of the same length
   * with each item converted in place.
   */
  lemma {:induction false} ContainersMirrored(token: Token)
    requires ToGraphSON(token).Ok? && (token.JObject? || token.JArray?)
    ensures token.JObject? ==>
      var d := ToGraphSON(token).value;
      d.VDict? && d.entries.Keys == KeysOf(token.props)
      && forall i :: 0 <= i < |token.props| ==>
           ToGraphSON(token.props[i].value) == Ok(d.entries[token.props[i].key])
    ensures token.JArray? ==>
      var a := ToGraphSON(token).value;
      a.VArray? && |a.items| == |token.items|
      && forall i :: 0 <= i < |token.items| ==> ToGraphSON(token.items[i]) == Ok(a.items[i])
  {
  }

  /**
   * Scalars: null and undefined become null, booleans bool, integers an Int32
   * (an overflow outside its range), strings and the other scalar kinds their text.
   */
  lemma {:induction false} ScalarsMapped(token: Token)
    requires IsValue(token)
    ensures (token.JNull? || token.JUndefined?) <==> ToGraphSON(token) == Ok(VNull)
    ensures token.JBool? ==> ToGraphSON(token) == Ok(VBool(token.b))
    ensures token.JInt? ==> ToGraphSON(token) == (if InInt32(token.i) then Ok(VInt(token.i)) else Err(Overflow))
    ensures token.JString? || token.JOther? ==> ToGraphSON(token) == Ok(VString(Text(token)))
  {
  }
}
