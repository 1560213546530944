/**
 * PropertySerializer: a Gremlin property written as a g:Property typed value
 * whose owning element is written by the GraphSON writer and then stripped of
 * the keys a property's element does not carry.
 */
module PropertySerializer {
  import opened Wrappers
  import opened Json

  /** A Gremlin property: its key, its value and the element owning it (null for none). */
  datatype Property<X, E> = Property(key: string, value: X, element: Option<E>)

  /** The keys removed from the element's inner value dictionary. */
  const PrunedKeys: set<string> := {"outVLabel", "inVLabel", "properties", "value"}

  /** A Dictionary<string, dynamic> the writer produced, changed in place. */
  class Dictionary {
    var entries: map<string, Value>

    constructor (m: map<string, Value>)
      ensures entries == m
    {
      entries := m;
    }

    /** Remove: drops the key if present and says whether it was. */
    method Remove(key: string) returns (removed: bool)
      modifies this
      ensures entries == old(entries) - {key}
      ensures removed == (key in old(entries))
    {
      removed := key in entries;
      entries := entries - {key};
    }
  }

  /**
   * What CreateElementDict makes of the writer's output for a non-null element:
   * a null output fails at ContainsKey, an output that is not a dictionary fails
   * the conversion, and a dictionary whose "@value" holds a dictionary has the
   * pruned keys removed from that inner dictionary.
   */
  function Pruned(serialized: Value): Result<Value> {
    if serialized.VNull? then Err(NullReference)
    else if !serialized.VDict? then Err(InvalidCast)
    else if ValueKey !in serialized.entries then Ok(serialized)
    else
      var inner := serialized.entries[ValueKey];
      if inner.VNull? then Ok(serialized)
      else if !inner.VDict? then Err(InvalidCast)
      else Ok(VDict(serialized.entries[ValueKey := VDict(inner.entries - PrunedKeys)]))
  }

  /** CreateElementDict's result: null for a null element, else the pruned serialization. */
  function ElementDict<E>(element: Option<E>, toDict: E -> Value): Result<Value> {
    if element.None? then Ok(VNull) else Pruned(toDict(element.value))
  }

  /** CreateElementDict: writes the element, then removes the four keys from its inner value dictionary in place. */
  method CreateElementDict<E>(element: Option<E>, toDict: E -> Value) returns (r: Result<Value>)
    ensures r == ElementDict(element, toDict)
  {
    if element.None? {
      return Ok(VNull);
    }
    var serialized := toDict(element.value);
    if serialized.VNull? {
      return Err(NullReference);
    }
    if !serialized.VDict? {
      return Err(InvalidCast);
    }
    r := Ok(serialized);
    if ValueKey in serialized.entries {
      var inner := serialized.entries[ValueKey];
      if inner.VDict? {
        var elementValueDict := new Dictionary(inner.entries);
        var _ := elementValueDict.Remove("outVLabel");
        var _ := elementValueDict.Remove("inVLabel");
        var _ := elementValueDict.Remove("properties");
        var _ := elementValueDict.Remove("value");
        assert elementValueDict.entries == inner.entries - PrunedKeys;
        r := Ok(VDict(serialized.entries[ValueKey := VDict(elementValueDict.entries)]));
      } else if !inner.VNull? {
        r := Err(InvalidCast);
      }
    }
  }

  /**
   * Dictify: the element dictionary first, then `{"key", "value", "element"}`
   * wrapped as a g:Property typed value. `toDictValue` and `toDictElement` are the
   * writer's ToDict on the property's value and on its element.
   */
  function Dictify<X, E>(property: Property<X, E>, toDictValue: X -> Value, toDictElement: E -> Value): (r: Result<map<string, Value>>)
    ensures r.Ok? <==> ElementDict(property.element, toDictElement).Ok?
    ensures r.Err? ==> r.error == ElementDict(property.element, toDictElement).error
  {
    var elementDict :- ElementDict(property.element, toDictElement);
    var valueDict := map["key" := VString(property.key), "value" := toDictValue(property.value), "element" := elementDict];
    Ok(ToTypedValue("Property", VDict(valueDict), "g"))
  }

  /**
   * Dictify succeeds exactly when the element dictionary can be made; the result
   * is tagged "g:Property" and its value has exactly the keys "key", "value" and
   * "element", holding the key, the written value and the element dictionary; a
   * null element is written as null.
   */
  lemma {:induction false} DictifyShape<X, E>(property: Property<X, E>, toDictValue: X -> Value, toDictElement: E -> Value)
    ensures Dictify(property, toDictValue, toDictElement).Ok? <==> ElementDict(property.element, toDictElement).Ok?
    ensures Dictify(property, toDictValue, toDictElement).Ok? ==>
      var d := Dictify(property, toDictValue, toDictElement).value;
      d.Keys == {TypeKey, ValueKey}
      && TypeTag(d) == Some("g:Property")
      && d[ValueKey].VDict?
      && d[ValueKey].entries.Keys == {"key", "value", "element"}
      && d[ValueKey].entries["key"] == VString(property.key)
      && d[ValueKey].entries["value"] == toDictValue(property.value)
      && d[ValueKey].entries["element"] == ElementDict(property.element, toDictElement).value
      && (property.element.None? ==> d[ValueKey].entries["element"] == VNull)
  {
    assert "g" + ":" + "Property" == "g:Property";
  }

  /**
   * Pruning removes the four keys from the element's inner value dictionary and
   * keeps every other key of it, and every other key of the element, unchanged.
   */
  lemma {:induction false} PruningSpec(outer: map<string, Value>, inner: map<string, Value>)
    requires ValueKey in outer && outer[ValueKey] == VDict(inner)
    ensures Pruned(VDict(outer)).Ok?
    ensures var r := Pruned(VDict(outer)).value;
      r.VDict? && r.entries.Keys == outer.Keys
      && (forall k :: k in outer && k != ValueKey ==> r.entries[k] == outer[k])
      && r.entries[ValueKey].VDict?
      && r.entries[ValueKey].entries.Keys !! PrunedKeys
      && (forall k :: k in inner && k !in PrunedKeys ==>
            k in r.entries[ValueKey].entries && r.entries[ValueKey].entries[k] == inner[k])
      && r.entries[ValueKey].entries.Keys <= inner.Keys
  {
  }

  /** A serialized element without "@value", or with a null one, is returned untouched. */
  lemma {:induction false} NoValueUntouched(outer: map<string, Value>)
    requires ValueKey !in outer || outer[ValueKey] == VNull
    ensures Pruned(VDict(outer)) == Ok(VDict(outer))
  {
  }
}
