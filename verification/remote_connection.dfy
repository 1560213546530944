/**
 * DseRemoteConnection: the table of custom serializers, the reader and writer
 * registries built from it, and the statement a traversal's query is sent in.
 */
module DseRemoteConnection {
  import opened Wrappers
  import J = Json
  import TS = TypeSerializer
  import DS = DurationSerializer
  import BA = ByteArraySerializer
  import DTO = DateTimeOffsetSerializer
  import GN = GraphNodeSerializer

  // ---- the custom serializers and the registries built from them ----

  /** The CLR types the custom serializers handle. */
  datatype ClrType = Duration | LocalDate | LocalTime | Point | LineString | Polygon | ByteArray | DateTimeOffset | GraphNode

  /** What the registries see of a serializer: its FullTypeName (null for a write-only one) and its Type. */
  datatype Entry = Entry(tag: Option<string>, clrType: ClrType)

  /** CustomSerializers, in declaration order. */
  const CustomSerializers: seq<Entry> := [
    Entry(Some("gx:Duration"), Duration),
    Entry(Some("gx:LocalDate"), LocalDate),
    Entry(Some("gx:LocalTime"), LocalTime),
    Entry(Some("dse:Point"), Point),
    Entry(Some("dse:LineString"), LineString),
    Entry(Some("dse:Polygon"), Polygon),
    Entry(Some("dse:Blob"), ByteArray),
    Entry(Some("g:Timestamp"), DateTimeOffset),
    Entry(Some("gx:Instant"), DateTimeOffset),
    Entry(None, GraphNode)
  ]

  /**
   * Each entry's tag is the FullTypeName of the serializer it stands for, built
   * with the prefix and type name the table passes it (the write-only
   * GraphNodeSerializer has none); the parsers and printers are left open.
   */
  lemma {:induction false} CustomSerializerTags<LD, LT, P, LS, PG>(
    parseDuration: string -> Result<DS.Duration>, showDuration: DS.Duration -> string,
    parseLocalDate: string -> Result<LD>, showLocalDate: LD -> string,
    parseLocalTime: string -> Result<LT>, showLocalTime: LT -> string,
    parsePoint: string -> Result<P>, showPoint: P -> string,
    parseLineString: string -> Result<LS>, showLineString: LS -> string,
    parsePolygon: string -> Result<PG>, showPolygon: PG -> string,
    parseDate: J.Token -> Result<int>, showDate: DTO.DateTimeOffset -> string)
    ensures CustomSerializers[0].tag == Some(TS.FullTypeName(DS.Serializer(parseDuration, showDuration)))
    ensures CustomSerializers[1].tag == Some(TS.FullTypeName(TS.FromStringParser("gx", "LocalDate", parseLocalDate, showLocalDate)))
    ensures CustomSerializers[2].tag == Some(TS.FullTypeName(TS.FromStringParser("gx", "LocalTime", parseLocalTime, showLocalTime)))
    ensures CustomSerializers[3].tag == Some(TS.FullTypeName(TS.FromStringParser("dse", "Point", parsePoint, showPoint)))
    ensures CustomSerializers[4].tag == Some(TS.FullTypeName(TS.FromStringParser("dse", "LineString", parseLineString, showLineString)))
    ensures CustomSerializers[5].tag == Some(TS.FullTypeName(TS.FromStringParser("dse", "Polygon", parsePolygon, showPolygon)))
    ensures CustomSerializers[6].tag == Some(TS.FullTypeName(BA.Serializer()))
    ensures CustomSerializers[7].tag == Some(TS.FullTypeName(DTO.Serializer("g", "Timestamp", parseDate, showDate)))
    ensures CustomSerializers[8].tag == Some(TS.FullTypeName(DTO.Serializer("gx", "Instant", parseDate, showDate)))
    ensures CustomSerializers[9].tag == GN.FullTypeName
  {
    assert Layout(CustomSerializers);
    StringParsedTags(CustomSerializers, parseLocalDate, showLocalDate, parseLocalTime, showLocalTime,
      parsePoint, showPoint, parseLineString, showLineString, parsePolygon, showPolygon);
    HandlerTags(CustomSerializers, parseDuration, showDuration, parseDate, showDate);
  }

  /** The tags of the serializers built by FromStringParser. */
  lemma {:induction false} StringParsedTags<LD, LT, P, LS, PG>(es: seq<Entry>,
    parseLocalDate: string -> Result<LD>, showLocalDate: LD -> string,
    parseLocalTime: string -> Result<LT>, showLocalTime: LT -> string,
    parsePoint: string -> Result<P>, showPoint: P -> string,
    parseLineString: string -> Result<LS>, showLineString: LS -> string,
    parsePolygon: string -> Result<PG>, showPolygon: PG -> string)
    requires Layout(es)
    ensures es[1].tag == Some(TS.FullTypeName(TS.FromStringParser("gx", "LocalDate", parseLocalDate, showLocalDate)))
    ensures es[2].tag == Some(TS.FullTypeName(TS.FromStringParser("gx", "LocalTime", parseLocalTime, showLocalTime)))
    ensures es[3].tag == Some(TS.FullTypeName(TS.FromStringParser("dse", "Point", parsePoint, showPoint)))
    ensures es[4].tag == Some(TS.FullTypeName(TS.FromStringParser("dse", "LineString", parseLineString, showLineString)))
    ensures es[5].tag == Some(TS.FullTypeName(TS.FromStringParser("dse", "Polygon", parsePolygon, showPolygon)))
  {
    assert "gx" + ":" + "LocalDate" == "gx:LocalDate";
    assert "gx" + ":" + "LocalTime" == "gx:LocalTime";
    assert "dse" + ":" + "Point" == "dse:Point";
    assert "dse" + ":" + "LineString" == "dse:LineString";
    assert "dse" + ":" + "Polygon" == "dse:Polygon";
  }

  /** The tags of the serializers with handlers of their own, and of the write-only one. */
  lemma {:induction false} HandlerTags(es: seq<Entry>,
    parseDuration: string -> Result<DS.Duration>, showDuration: DS.Duration -> string,
    parseDate: J.Token -> Result<int>, showDate: DTO.DateTimeOffset -> string)
    requires Layout(es)
    ensures es[0].tag == Some(TS.FullTypeName(DS.Serializer(parseDuration, showDuration)))
    ensures es[6].tag == Some(TS.FullTypeName(BA.Serializer()))
    ensures es[7].tag == Some(TS.FullTypeName(DTO.Serializer("g", "Timestamp", parseDate, showDate)))
    ensures es[8].tag == Some(TS.FullTypeName(DTO.Serializer("gx", "Instant", parseDate, showDate)))
    ensures es[9].tag == GN.FullTypeName
  {
    assert "g" + ":" + "Timestamp" == "g:Timestamp";
    assert "gx" + ":" + "Instant" == "gx:Instant";
  }

  /** No two entries from i on carry the same non-null tag. */
  predicate DistinctTags(es: seq<Entry>, i: nat) {
    forall j, k :: i <= j < k < |es| && es[j].tag.Some? ==> es[j].tag != es[k].tag
  }

  /**
   * The reader registry over the entries from i on: `Where(FullTypeName != null)`
   * then `ToDictionary(FullTypeName)`, tag to position; ToDictionary throws an
   * ArgumentException on a repeated key.
   */
  function ReaderFrom(es: seq<Entry>, i: nat): (r: Result<map<string, nat>>)
    requires i <= |es|
    ensures r.Err? ==> r.error == Argument
    decreases |es| - i
  {
    if i == |es| then Ok(map[])
    else
      var rest :- ReaderFrom(es, i + 1);
      match es[i].tag
      case None => Ok(rest)
      case Some(tag) => if tag in rest then Err(Argument) else Ok(rest[tag := i])
  }

  function Reader(es: seq<Entry>): Result<map<string, nat>> {
    ReaderFrom(es, 0)
  }

  /**
   * The writer registry over the entries from i on: `GroupBy(Type)`, the first
   * of each group, `ToDictionary(Type)`; type to position.
   */
  function WriterFrom(es: seq<Entry>, i: nat): map<ClrType, nat>
    requires i <= |es|
    decreases |es| - i
  {
    if i == |es| then map[]
    else WriterFrom(es, i + 1)[es[i].clrType := i]
  }

  function Writer(es: seq<Entry>): map<ClrType, nat> {
    WriterFrom(es, 0)
  }

  /**
   * The reader registry is built exactly when the non-null tags are distinct, and
   * then it maps each non-null tag, and nothing else, to the entry carrying it.
   */
  lemma {:induction false} ReaderSpec(es: seq<Entry>, i: nat)
    requires i <= |es|
    ensures ReaderFrom(es, i).Ok? <==> DistinctTags(es, i)
    ensures ReaderFrom(es, i).Ok? ==> forall tag ::
      (tag in ReaderFrom(es, i).value <==> exists j :: i <= j < |es| && es[j].tag == Some(tag))
    ensures ReaderFrom(es, i).Ok? ==> forall tag :: tag in ReaderFrom(es, i).value ==>
      var j := ReaderFrom(es, i).value[tag]; i <= j < |es| && es[j].tag == Some(tag)
    decreases |es| - i
  {
    if i < |es| {
      ReaderSpec(es, i + 1);
      var rest := ReaderFrom(es, i + 1);
      if rest.Ok? && es[i].tag.Some? && es[i].tag.value in rest.value {
        var j := rest.value[es[i].tag.value];
        assert es[j].tag == es[i].tag;
        assert !DistinctTags(es, i);
      }
      if !DistinctTags(es, i + 1) {
        assert !DistinctTags(es, i);
      }
      if rest.Ok? && DistinctTags(es, i + 1) && (es[i].tag.None? || es[i].tag.value !in rest.value) {
        forall j, k | i <= j < k < |es| && es[j].tag.Some?
          ensures es[j].tag != es[k].tag
        {
          if j == i {
            assert es[k].tag.Some? ==> es[k].tag.value in rest.value;
          }
        }
      }
    }
  }

  /** The writer registry maps each type present, and nothing else, to its first entry. */
  lemma {:induction false} WriterSpec(es: seq<Entry>, i: nat)
    requires i <= |es|
    ensures forall t :: t in WriterFrom(es, i) <==> exists j :: i <= j < |es| && es[j].clrType == t
    ensures forall t :: t in WriterFrom(es, i) ==>
      var j := WriterFrom(es, i)[t];
      i <= j < |es| && es[j].clrType == t && forall k :: i <= k < j ==> es[k].clrType != t
    decreases |es| - i
  {
    if i < |es| {
      WriterSpec(es, i + 1);
    }
  }

  /** The reader registry CustomSerializers gives: each tag to the position of its serializer. */
  const ReaderTags: map<string, nat> := map[]
      ["gx:Instant" := 8]
      ["g:Timestamp" := 7]
      ["dse:Blob" := 6]
      ["dse:Polygon" := 5]
      ["dse:LineString" := 4]
      ["dse:Point" := 3]
      ["gx:LocalTime" := 2]
      ["gx:LocalDate" := 1]
      ["gx:Duration" := 0]

  /** The registry is built without a duplicate key, and it is ReaderTags. */
  lemma {:induction false} ReaderRegistryBuilt()
    ensures Reader(CustomSerializers) == Ok(ReaderTags)
  {
    assert Layout(CustomSerializers);
    ReaderOfLayout(CustomSerializers);
  }

  /** The tags of CustomSerializers, position by position. */
  predicate Layout(es: seq<Entry>) {
    |es| == 10
    && es[0].tag == Some("gx:Duration") && es[1].tag == Some("gx:LocalDate") && es[2].tag == Some("gx:LocalTime")
    && es[3].tag == Some("dse:Point") && es[4].tag == Some("dse:LineString") && es[5].tag == Some("dse:Polygon")
    && es[6].tag == Some("dse:Blob") && es[7].tag == Some("g:Timestamp") && es[8].tag == Some("gx:Instant")
    && es[9].tag == None
  }

  /** Entries with these tags, in this order, give ReaderTags. */
  lemma {:induction false} ReaderOfLayout(es: seq<Entry>)
    requires Layout(es)
    ensures ReaderFrom(es, 0) == Ok(ReaderTags)
  {
    var m3 := map[]["gx:Instant" := 8]["g:Timestamp" := 7]["dse:Blob" := 6]["dse:Polygon" := 5]["dse:LineString" := 4]["dse:Point" := 3];
    ReaderOfLayoutFrom3(es);
    ReaderStep(es, 2, "gx:LocalTime", m3);
    ReaderStep(es, 1, "gx:LocalDate", m3["gx:LocalTime" := 2]);
    ReaderStep(es, 0, "gx:Duration", m3["gx:LocalTime" := 2]["gx:LocalDate" := 1]);
  }

  lemma {:induction false} ReaderOfLayoutFrom3(es: seq<Entry>)
    requires Layout(es)
    ensures ReaderFrom(es, 3)
      == Ok(map[]["gx:Instant" := 8]["g:Timestamp" := 7]["dse:Blob" := 6]["dse:Polygon" := 5]["dse:LineString" := 4]["dse:Point" := 3])
  {
    var m6 := map[]["gx:Instant" := 8]["g:Timestamp" := 7];
    ReaderOfLayoutFrom6(es);
    ReaderStep(es, 5, "dse:Polygon", m6["dse:Blob" := 6]);
    ReaderStep(es, 4, "dse:LineString", m6["dse:Blob" := 6]["dse:Polygon" := 5]);
    ReaderStep(es, 3, "dse:Point", m6["dse:Blob" := 6]["dse:Polygon" := 5]["dse:LineString" := 4]);
  }

  lemma {:induction false} ReaderOfLayoutFrom6(es: seq<Entry>)
    requires Layout(es)
    ensures ReaderFrom(es, 6) == Ok(map[]["gx:Instant" := 8]["g:Timestamp" := 7]["dse:Blob" := 6])
  {
    ReaderSkip(es, 9, map[]);
    ReaderStep(es, 8, "gx:Instant", map[]);
    ReaderStep(es, 7, "g:Timestamp", map[]["gx:Instant" := 8]);
    ReaderStep(es, 6, "dse:Blob", map[]["gx:Instant" := 8]["g:Timestamp" := 7]);
  }

  /** An entry without a tag leaves the registry of the entries after it as it is. */
  lemma {:induction false} ReaderSkip(es: seq<Entry>, i: nat, m: map<string, nat>)
    requires i < |es| && es[i].tag.None? && ReaderFrom(es, i + 1) == Ok(m)
    ensures ReaderFrom(es, i) == Ok(m)
  {
  }

  /** An entry whose tag is new to the registry of the entries after it adds that tag at its position. */
  lemma {:induction false} ReaderStep(es: seq<Entry>, i: nat, tag: string, m: map<string, nat>)
    requires i < |es| && es[i].tag == Some(tag) && ReaderFrom(es, i + 1) == Ok(m) && tag !in m
    ensures ReaderFrom(es, i) == Ok(m[tag := i])
  {
  }

  /**
   * The reader accepts exactly the tags of the table, both g:Timestamp and
   * gx:Instant included; GraphNodeSerializer, which has no tag, is not in it.
   */
  lemma {:induction false} ReaderRegistry()
    ensures Reader(CustomSerializers).Ok?
    ensures Reader(CustomSerializers).value.Keys
      == {"gx:Duration", "gx:LocalDate", "gx:LocalTime", "dse:Point", "dse:LineString",
          "dse:Polygon", "dse:Blob", "g:Timestamp", "gx:Instant"}
    ensures Reader(CustomSerializers).value["g:Timestamp"] == 7
    ensures Reader(CustomSerializers).value["gx:Instant"] == 8
    ensures forall tag :: tag in Reader(CustomSerializers).value ==>
      Reader(CustomSerializers).value[tag] < |CustomSerializers|
      && CustomSerializers[Reader(CustomSerializers).value[tag]].clrType != GraphNode
  {
    ReaderRegistryBuilt();
    ReaderTagsFacts();
  }

  /** What ReaderRegistry states, about the table itself. */
  lemma {:induction false} ReaderTagsFacts()
    ensures ReaderTags.Keys == {"gx:Duration", "gx:LocalDate", "gx:LocalTime", "dse:Point", "dse:LineString",
                                "dse:Polygon", "dse:Blob", "g:Timestamp", "gx:Instant"}
    ensures ReaderTags["g:Timestamp"] == 7 && ReaderTags["gx:Instant"] == 8
    ensures forall tag :: tag in ReaderTags ==>
      ReaderTags[tag] < |CustomSerializers| && CustomSerializers[ReaderTags[tag]].clrType != GraphNode
  {
    ReaderTagsKeys();
    forall tag | tag in ReaderTags
      ensures ReaderTags[tag] < |CustomSerializers| && CustomSerializers[ReaderTags[tag]].clrType != GraphNode
    {
      ReaderTagsBelow(tag);
    }
  }

  lemma {:induction false} ReaderTagsKeys()
    ensures ReaderTags.Keys == {"gx:Duration", "gx:LocalDate", "gx:LocalTime", "dse:Point", "dse:LineString",
                                "dse:Polygon", "dse:Blob", "g:Timestamp", "gx:Instant"}
  {
  }

  /** Every position in ReaderTags is before the write-only GraphNodeSerializer. */
  lemma {:induction false} ReaderTagsBelow(tag: string)
    requires tag in ReaderTags
    ensures ReaderTags[tag] < 9 && CustomSerializers[ReaderTags[tag]].clrType != GraphNode
  {
    ReaderTagsKeys();
    assert ReaderTags[tag] in {0, 1, 2, 3, 4, 5, 6, 7, 8};
  }

  /** A DateTimeOffset is always written by the g:Timestamp serializer, never the gx:Instant one. */
  lemma {:induction false} WriterRegistry()
    ensures var m := Writer(CustomSerializers);
      m.Keys == {Duration, LocalDate, LocalTime, Point, LineString, Polygon, ByteArray, DateTimeOffset, GraphNode}
      && m[DateTimeOffset] == 7 && CustomSerializers[m[DateTimeOffset]].tag == Some("g:Timestamp")
      && m[GraphNode] == 9
  {
  }

  // ---- the statement ----

  /** Cassandra consistency levels. */
  datatype ConsistencyLevel = Any | One | Two | Three | Quorum | All | LocalQuorum | EachQuorum | Serial | LocalSerial | LocalOne

  /** GraphOptions, as far as CreateStatement reads them. */
  datatype GraphOptions = GraphOptions(
    source: Option<string>,
    name: Option<string>,
    readTimeoutMillis: int,
    readConsistencyLevel: Option<ConsistencyLevel>,
    writeConsistencyLevel: Option<ConsistencyLevel>)

  /** The settings of a graph statement. */
  datatype StatementState = StatementState(
    query: string,
    language: Option<string>,
    source: Option<string>,
    name: Option<string>,
    readTimeoutMillis: int,
    readConsistencyLevel: Option<ConsistencyLevel>,
    writeConsistencyLevel: Option<ConsistencyLevel>)

  const GraphLanguage: string := "bytecode-json"

  /** A new SimpleGraphStatement: only the query set. */
  function Initial(query: string): StatementState {
    StatementState(query, None, None, None, 0, None, None)
  }

  /** SimpleGraphStatement, whose fluent setters change one setting each and return the statement. */
  class GraphStatement {
    var query: string
    var language: Option<string>
    var source: Option<string>
    var name: Option<string>
    var readTimeoutMillis: int
    var readConsistencyLevel: Option<ConsistencyLevel>
    var writeConsistencyLevel: Option<ConsistencyLevel>

    function State(): StatementState
      reads this
    {
      StatementState(query, language, source, name, readTimeoutMillis, readConsistencyLevel, writeConsistencyLevel)
    }

    constructor (q: string)
      ensures State() == Initial(q)
    {
      query := q;
      language := None;
      source := None;
      name := None;
      readTimeoutMillis := 0;
      readConsistencyLevel := None;
      writeConsistencyLevel := None;
    }

    method SetGraphLanguage(l: string) returns (self: GraphStatement)
      modifies this
      ensures self == this && State() == old(State()).(language := Some(l))
    {
      language := Some(l);
      self := this;
    }

    method SetGraphSource(s: Option<string>) returns (self: GraphStatement)
      modifies this
      ensures self == this && State() == old(State()).(source := s)
    {
      source := s;
      self := this;
    }

    method SetGraphName(n: Option<string>) returns (self: GraphStatement)
      modifies this
      ensures self == this && State() == old(State()).(name := n)
    {
      name := n;
      self := this;
    }

    method SetReadTimeoutMillis(t: int) returns (self: GraphStatement)
      modifies this
      ensures self == this && State() == old(State()).(readTimeoutMillis := t)
    {
      readTimeoutMillis := t;
      self := this;
    }

    method SetGraphReadConsistencyLevel(c: ConsistencyLevel) returns (self: GraphStatement)
      modifies this
      ensures self == this && State() == old(State()).(readConsistencyLevel := Some(c))
    {
      readConsistencyLevel := Some(c);
      self := this;
    }

    method SetGraphWriteConsistencyLevel(c: ConsistencyLevel) returns (self: GraphStatement)
      modifies this
      ensures self == this && State() == old(State()).(writeConsistencyLevel := Some(c))
    {
      writeConsistencyLevel := Some(c);
      self := this;
    }
  }

  /** The settings CreateStatement gives a statement for the query, with null options as None. */
  function Configured(query: string, options: Option<GraphOptions>): StatementState {
    var base := Initial(query).(language := Some(GraphLanguage));
    match options
    case None => base
    case Some(o) =>
      base.(source := o.source, name := o.name, readTimeoutMillis := o.readTimeoutMillis,
            readConsistencyLevel := if o.readConsistencyLevel.Some? then o.readConsistencyLevel else base.readConsistencyLevel,
            writeConsistencyLevel := if o.writeConsistencyLevel.Some? then o.writeConsistencyLevel else base.writeConsistencyLevel)
  }

  /** CreateStatement: a new statement, its language set, then the options' settings copied through the setters. */
  method CreateStatement(query: string, options: Option<GraphOptions>) returns (statement: GraphStatement)
    ensures fresh(statement)
    ensures statement.State() == Configured(query, options)
  {
    var s := new GraphStatement(query);
    statement := s.SetGraphLanguage(GraphLanguage);
    if options.None? {
      return;
    }
    var o := options.value;
    statement := statement.SetGraphSource(o.source);
    statement := statement.SetGraphName(o.name);
    statement := statement.SetReadTimeoutMillis(o.readTimeoutMillis);
    if o.readConsistencyLevel.Some? {
      statement := statement.SetGraphReadConsistencyLevel(o.readConsistencyLevel.value);
    }
    if o.writeConsistencyLevel.Some? {
      statement := statement.SetGraphWriteConsistencyLevel(o.writeConsistencyLevel.value);
    }
  }

  /**
   * Every statement is in the "bytecode-json" language and carries the query; with
   * null options nothing else is set; with options, source, name and read timeout
   * are copied, and each consistency level is copied when present and left unset
   * otherwise.
   */
  lemma {:induction false} ConfiguredSettings(query: string, options: Option<GraphOptions>)
    ensures var s := Configured(query, options);
      s.language == Some("bytecode-json") && s.query == query
      && (options.None? ==> s == Initial(query).(language := Some("bytecode-json")))
      && (options.Some? ==>
            s.source == options.value.source && s.name == options.value.name
            && s.readTimeoutMillis == options.value.readTimeoutMillis
            && s.readConsistencyLevel == options.value.readConsistencyLevel
            && s.writeConsistencyLevel == options.value.writeConsistencyLevel)
  {
  }

  // ---- the connection ----

  /** The driver session; the model only needs to know whether one was given. */
  datatype Session = Session(id: nat)

  datatype Connection = Connection(session: Session, options: Option<GraphOptions>)

  /** The constructor: a null session is refused with an ArgumentNullException; the options may be null. */
  function Connect(session: Option<Session>, options: Option<GraphOptions>): (r: Result<Connection>)
    ensures r.Err? <==> session.None?
    ensures r.Err? ==> r.error == ArgumentNull
    ensures r.Ok? ==> r.value.session == session.value && r.value.options == options
  {
    match session
    case None => Err(ArgumentNull)
    case Some(s) => Ok(Connection(s, options))
  }
}
