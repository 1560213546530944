/**
 * EdgeDeserializer: a g:Edge value object read into an edge between two
 * vertices, each id decoded by the GraphSON reader and the labels defaulted
 * when they are absent.
 */
module EdgeDeserializer {
  import opened Wrappers
  import opened Json

  /** Gremlin.Net's Vertex.DefaultLabel. */
  const DefaultVertexLabel: string := "vertex"
  /** The label an edge gets when none is given. */
  const DefaultEdgeLabel: string := "edge"

  /** A Gremlin vertex reference; its label may be null. */
  datatype Vertex<O> = Vertex(id: O, vertexLabel: Option<string>)

  /** A Gremlin edge from outV to inV. */
  datatype Edge<O> = Edge(id: O, outV: Vertex<O>, edgeLabel: Option<string>, inV: Vertex<O>)

  /**
   * `(string) (token ?? DefaultLabel)`: the default only stands in for a missing
   * property; a property holding JSON null is cast, and so gives a null label.
   */
  function VertexLabel(token: Option<Token>): (r: Result<Option<string>>)
    ensures token.None? ==> r == Ok(Some(DefaultVertexLabel))
    ensures token.Some? ==> r == CastString(token)
  {
    if token.None? then Ok(Some(DefaultVertexLabel)) else CastString(token)
  }

  /** `(string) token ?? "edge"`: the default stands in for a missing property and for JSON null alike. */
  function EdgeLabel(token: Option<Token>): (r: Result<Option<string>>)
    ensures r.Ok? ==> r.value.Some?
    ensures CastString(token) == Ok(None) ==> r == Ok(Some(DefaultEdgeLabel))
    ensures CastString(token).Ok? && CastString(token).value.Some? ==> r == CastString(token)
  {
    var text :- CastString(token);
    Ok(if text.None? then Some(DefaultEdgeLabel) else text)
  }

  /**
   * Objectify: out-vertex (id, then label), in-vertex (id, then label), edge id,
   * edge label, in that order; the first failure is the result. `reader` is the
   * GraphSON reader's ToObject, which receives null for a missing property.
   */
  function Objectify<O>(graphsonObject: Token, reader: Option<Token> -> Result<O>): (r: Result<Edge<O>>)
    ensures r.Ok? ==> graphsonObject.JObject? && r.value.edgeLabel.Some?
    ensures r.Ok? ==> (reader(Lookup(graphsonObject.props, "outV")) == Ok(r.value.outV.id)
      && reader(Lookup(graphsonObject.props, "inV")) == Ok(r.value.inV.id)
      && reader(Lookup(graphsonObject.props, "id")) == Ok(r.value.id))
  {
    var outVToken :- Index(graphsonObject, "outV");
    var outVId :- reader(outVToken);
    var outVLabelToken :- Index(graphsonObject, "outVLabel");
    var outVLabel :- VertexLabel(outVLabelToken);
    var inVToken :- Index(graphsonObject, "inV");
    var inVId :- reader(inVToken);
    var inVLabelToken :- Index(graphsonObject, "inVLabel");
    var inVLabel :- VertexLabel(inVLabelToken);
    var idToken :- Index(graphsonObject, "id");
    var edgeId :- reader(idToken);
    var labelToken :- Index(graphsonObject, "label");
    var edgeLabel :- EdgeLabel(labelToken);
    Ok(Edge(edgeId, Vertex(outVId, outVLabel), edgeLabel, Vertex(inVId, inVLabel)))
  }

  /** Whether a property's value can be read as a label: missing, or a scalar. */
  predicate Castable(token: Option<Token>) {
    token.None? || IsValue(token.value)
  }

  /** The label a present property gives: its string, when it holds a JSON string. */
  predicate LabelFrom(token: Option<Token>, text: Option<string>) {
    token.Some? && token.value.JString? ==> text == Some(token.value.s)
  }

  /**
   * For an object whose ids decode and whose labels are missing or scalars, the
   * edge links the out-vertex to the in-vertex, each with the reader's decoding of
   * its id, and the edge id is the reader's decoding of "id".
   */
  lemma {:induction false} ObjectifyEdge<O>(props: seq<Prop>, reader: Option<Token> -> Result<O>)
    requires reader(Lookup(props, "outV")).Ok? && reader(Lookup(props, "inV")).Ok? && reader(Lookup(props, "id")).Ok?
    requires Castable(Lookup(props, "outVLabel")) && Castable(Lookup(props, "inVLabel")) && Castable(Lookup(props, "label"))
    ensures Objectify(JObject(props), reader) == Ok(Edge(
      reader(Lookup(props, "id")).value,
      Vertex(reader(Lookup(props, "outV")).value, VertexLabel(Lookup(props, "outVLabel")).value),
      EdgeLabel(Lookup(props, "label")).value,
      Vertex(reader(Lookup(props, "inV")).value, VertexLabel(Lookup(props, "inVLabel")).value)))
  {
    assert VertexLabel(Lookup(props, "outVLabel")).Ok? by { LabelCast(Lookup(props, "outVLabel")); }
    assert VertexLabel(Lookup(props, "inVLabel")).Ok? by { LabelCast(Lookup(props, "inVLabel")); }
    assert EdgeLabel(Lookup(props, "label")).Ok? by { LabelCast(Lookup(props, "label")); }
  }

  /**
   * A missing or scalar label is read: a missing vertex label is "vertex" and a
   * JSON null one is null; a missing or JSON null edge label is "edge"; a JSON
   * string is taken as it is.
   */
  lemma {:induction false} LabelCast(token: Option<Token>)
    requires Castable(token)
    ensures VertexLabel(token).Ok? && EdgeLabel(token).Ok?
    ensures token.None? ==> VertexLabel(token).value == Some("vertex")
    ensures token == Some(JNull) ==> VertexLabel(token).value.None?
    ensures token.None? || token == Some(JNull) ==> EdgeLabel(token).value == Some("edge")
    ensures LabelFrom(token, VertexLabel(token).value) && LabelFrom(token, EdgeLabel(token).value)
  {
  }

  /** Only an object can be read as an edge: an array is refused with an ArgumentException, a scalar with an InvalidOperationException. */
  lemma {:induction false} ObjectifyNonObject<O>(graphsonObject: Token, reader: Option<Token> -> Result<O>)
    requires !graphsonObject.JObject?
    ensures Objectify(graphsonObject, reader) == Err(if graphsonObject.JArray? then Argument else InvalidOperation)
  {
  }
}
