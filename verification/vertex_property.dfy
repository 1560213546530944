/**
 * VertexPropertySerializer: a Gremlin vertex property written as a
 * g:VertexProperty typed value of four entries.
 */
module VertexPropertySerializer {
  import opened Wrappers
  import opened Json

  /** The vertex owning a property, as far as it is written: its id. */
  datatype VertexRef<X> = VertexRef(id: X)

  /** A Gremlin vertex property; its vertex may be null. */
  datatype VertexProperty<X> = VertexProperty(id: X, name: string, value: X, vertex: Option<VertexRef<X>>)

  /**
   * Dictify: id, label, value and the owning vertex's id, wrapped as a
   * g:VertexProperty typed value; `toDict` is the writer's ToDict. A null vertex
   * fails on `.Id` with a NullReferenceException.
   */
  function Dictify<X>(vertexProperty: VertexProperty<X>, toDict: X -> Value): (r: Result<map<string, Value>>)
    ensures r.Err? <==> vertexProperty.vertex.None?
    ensures r.Err? ==> r.error == NullReference
  {
    if vertexProperty.vertex.None? then Err(NullReference)
    else
      var valueDict := map[
        "id" := toDict(vertexProperty.id),
        "label" := VString(vertexProperty.name),
        "value" := toDict(vertexProperty.value),
        "vertex" := toDict(vertexProperty.vertex.value.id)];
      Ok(ToTypedValue("VertexProperty", VDict(valueDict), "g"))
  }

  /**
   * The result is tagged "g:VertexProperty" and its value has exactly the keys
   * id, label, value and vertex; the label is the property's own string, not
   * passed through the writer, and vertex is the written id of the owning vertex.
   */
  lemma {:induction false} DictifyShape<X>(vertexProperty: VertexProperty<X>, toDict: X -> Value)
    ensures Dictify(vertexProperty, toDict).Ok? <==> vertexProperty.vertex.Some?
    ensures Dictify(vertexProperty, toDict).Ok? ==>
      var d := Dictify(vertexProperty, toDict).value;
      d.Keys == {TypeKey, ValueKey}
      && TypeTag(d) == Some("g:VertexProperty")
      && d[ValueKey].VDict?
      && d[ValueKey].entries.Keys == {"id", "label", "value", "vertex"}
      && d[ValueKey].entries["id"] == toDict(vertexProperty.id)
      && d[ValueKey].entries["label"] == VString(vertexProperty.name)
      && d[ValueKey].entries["value"] == toDict(vertexProperty.value)
      && d[ValueKey].entries["vertex"] == toDict(vertexProperty.vertex.value.id)
  {
    assert "g" + ":" + "VertexProperty" == "g:VertexProperty";
  }
}
