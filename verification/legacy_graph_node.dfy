/**
 * GraphNodeSerializer in the older driver generation: the same conversion,
 * so its loop is proved against the current generation's functions.
 */
module LegacyGraphNodeSerializer {
  import opened Wrappers
  import opened Json
  import G = GraphNodeSerializer

  /** JObjectToGraphSON: a new dictionary filled by a loop over the object's properties. */
  method JObjectToGraphSON(props: seq<Prop>) returns (r: Result<map<string, Value>>)
    ensures r == G.ObjectToGraphSON(map[], props)
  {
    var result: map<string, Value> := map[];
    for i := 0 to |props|
      invariant G.ObjectToGraphSON(result, props[i..]) == G.ObjectToGraphSON(map[], props)
    {
      assert props[i..][1..] == props[i + 1..];
      var v := G.ToGraphSON(props[i].value);
      if v.Err? {
        return Err(v.error);
      }
      if props[i].key in result {
        return Err(Argument);
      }
      result := result[props[i].key := v.value];
    }
    assert props[|props|..] == [];
    r := Ok(result);
  }

  /**
   * Dictify: a raw token that is not an object is a NotSupportedException; an
   * object with distinct names whose values all convert becomes a dictionary with
   * exactly those names.
   */
  method Dictify(raw: Token) returns (r: Result<map<string, Value>>)
    ensures !raw.JObject? ==> r == Err(NotSupported)
    ensures raw.JObject? ==> r == G.ObjectToGraphSON(map[], raw.props)
    ensures raw.JObject? ==> (r.Ok? <==> G.Convertible(raw))
    ensures r.Ok? ==> r.value.Keys == G.KeysOf(raw.props)
  {
    if !raw.JObject? {
      return Err(NotSupported);
    }
    G.ConvertibleIff(raw);
    r := JObjectToGraphSON(raw.props);
  }

  /** Objectify: the serializer is write-only and always refuses. */
  function Objectify(graphsonObject: Token): (r: Result<Value>)
    ensures r == Err(NotSupported)
  {
    Err(NotSupported)
  }

  /** FullTypeName is null. */
  const FullTypeName: Option<string> := None
}
