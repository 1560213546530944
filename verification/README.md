# GraphSON value codec of the DataStax C# graph driver

This project models the GraphSON layer that the DataStax C# graph driver adds to
Gremlin.Net. There are two generations of the driver: the current
`Cassandra.DataStax.Graph` and the older `Dse.Graph`. The model covers the
following.

- **Typed values.** Each driver type becomes a typed value
  `{"@type": "prefix:Name", "@value": …}`, and a typed value is read back from a
  JSON token. The types are `gx:Duration`, `g:Timestamp`, `gx:Instant` and
  `dse:Blob`, plus the string-parsed types `gx:LocalDate`, `gx:LocalTime` and
  `dse:Point`/`LineString`/`Polygon`.
- **GraphNode.** A raw GraphNode is converted into the dictionaries and arrays
  the GraphSON writer consumes. The serializer is write-only.
- **Gremlin structures.** A `g:Edge` and a `g:Path` are read. A `g:Property` and
  a `g:VertexProperty` are written.
- **Registries.**
  - The reader registry is keyed by type tag.
  - The writer registry is keyed by CLR type.
  - The GraphSON 2 deserializer table is built. The GraphSON 3 table is built
    from it by a loop that overrides `g:Path`.
- **Statements and batches.** A traversal's query is put into a graph
  statement, and a batch of traversals is turned into one statement.

Every conversion is a function from the token or value to a `Result`. Each
exception the C# code throws is an `Err` carrying the exception's kind. Code
that changes things step by step is modelled with methods:

- the StringBuilder used to write a duration;
- the loops that fill a dictionary;
- the statement's fluent setters;
- the batch's list of traversals;
- the in-place pruning of a property's element.

Each of these methods is proved equal to a function of its inputs. The
properties are then proved about that function.

Two independent definitions serve as partners:

- `JavaDuration.Parse` reads the ISO-8601 text the way `java.time.Duration`
  does, walking it position by position as a scanner does. It is used to prove that the written duration text denotes the
  duration's length.
- Base64 decoding is the partner of Base64 encoding. Both are defined in full
  (`Convert.ToBase64String` and `Convert.FromBase64String`).

The model does not include these external parts:

- `Duration.Parse`, `LocalDate.Parse`, `LocalTime.Parse` and the geometry
  parsers;
- Json.NET's date conversion;
- the Gremlin writer's `WriteObject` and `ToDict`;
- the Gremlin reader's `ToObject`.

Each of these is a function parameter of the member that calls it. `ToString`
of a value is a parameter `show`.

## Model

| member | source | states |
|---|---|---|
| DurationSerializer.UnitsAreConsistent | src/Cassandra.DataStax.Graph/Serialization/DurationSerializer.cs:26-30 | each unit constant is the previous one times 1000, 1000, 60 and 60; a day is 24 hours |
| DurationSerializer.DurationText | src/Cassandra.DataStax.Graph/Serialization/DurationSerializer.cs:42-75 | the zero duration is "PT0S"; a non-zero month count is an ArgumentOutOfRangeException; the text fails exactly for months, or for a day or nanosecond count whose Math.Abs overflows |
| DurationSerializer.SignedBody | src/Cassandra.DataStax.Graph/Serialization/DurationSerializer.cs:54-73 | a non-zero text is the sign ("-" when days or nanoseconds are negative), "PT" and a non-empty body of hours and a remainder below one hour that together make up days·24h + abs(nanoseconds) |
| DurationSerializer.Append | src/Cassandra.DataStax.Graph/Serialization/DurationSerializer.cs:77-85 | appends nothing and returns the dividend below the divisor (or at zero); otherwise appends quotient and unit and returns the remainder |
| DurationSerializer.ToJavaDurationString | src/Cassandra.DataStax.Graph/Serialization/DurationSerializer.cs:42-75 | the StringBuilder method produces exactly DurationText, error cases included |
| DurationSerializer.Write | src/Cassandra.DataStax.Graph/Serialization/DurationSerializer.cs:32 | the write handler succeeds exactly when the text exists and writes it as a string |
| DurationSerializer.Serializer | src/Cassandra.DataStax.Graph/Serialization/DurationSerializer.cs:32-40 | the serializer's FullTypeName is "gx:Duration" |
| DurationSerializer.SerializerWritesText | src/Cassandra.DataStax.Graph/Serialization/DurationSerializer.cs:32-40 | Dictify gives exactly {"@type": "gx:Duration", "@value": text}, or the text's exception |
| DurationSerializer.ZeroTextDenotesZero | src/Cassandra.DataStax.Graph/Serialization/DurationSerializer.cs:44-47 | "PT0S" parses, as java.time.Duration reads it, to zero |
| DurationSerializer.TextDenotesMagnitude | src/Cassandra.DataStax.Graph/Serialization/DurationSerializer.cs:54-73 | for every duration with a text, java.time.Duration parses it back to days·24h + abs(nanoseconds), negated when the sign was written |
| DurationSerializer.TextDenotesDuration | src/Cassandra.DataStax.Graph/Serialization/DurationSerializer.cs:54-73 | when days and nanoseconds do not have opposite signs, the text parses back to exactly days·24h + nanoseconds |
| DurationSerializer.MixedSignsAddMagnitudes | src/Cassandra.DataStax.Graph/Serialization/DurationSerializer.cs:54-63 | with opposite signs the magnitudes are added under one minus: 1 day and −1 ns is written as −(1 day + 1 ns) |
| DurationSerializer.HoursWritten | src/Cassandra.DataStax.Graph/Serialization/DurationSerializer.cs:63-67 | the text has an "H" field exactly when the hour count is positive |
| DurationSerializer.AppendSplitsDividend | src/Cassandra.DataStax.Graph/Serialization/DurationSerializer.cs:77-85 | the remainder is below the divisor; below the divisor nothing is written; otherwise quotient·divisor + remainder is the dividend |
| DurationSerializer.TestVector | src/Cassandra.DataStax.Graph.Test.Integration/TraversalCoreIntegrationTest.cs:35 | Duration(0, 0, 123000000) is written "PT0.123S" |
| LegacyDurationSerializer.DurationText | src/Dse.Graph/Serialization/DurationSerializer.cs:32-65 | the same zero, month and overflow cases as the current text, with the fraction written with the culture's decimal separator |
| LegacyDurationSerializer.Append | src/Dse.Graph/Serialization/DurationSerializer.cs:67-75 | as the current Append: quotient and unit appended, remainder returned |
| LegacyDurationSerializer.ToJavaDurationString | src/Dse.Graph/Serialization/DurationSerializer.cs:32-65 | the StringBuilder method produces exactly the legacy DurationText |
| LegacyDurationSerializer.InvariantCultureAgrees | src/Dse.Graph/Serialization/DurationSerializer.cs:62 | with "." as separator the legacy text equals the current one for every duration |
| LegacyDurationSerializer.SeparatorOnlyWithFraction | src/Dse.Graph/Serialization/DurationSerializer.cs:59-63 | for whole seconds the culture makes no difference |
| DateTimeOffsetSerializer.ToUnixEpoch | src/Cassandra.DataStax.Graph/Serialization/DateTimeOffsetSerializer.cs:29-33 | milliseconds since the epoch, truncated toward zero: the dropped ticks are under one millisecond and have the sign of the offset from the epoch |
| DateTimeOffsetSerializer.ParseDateTimeOffsetAsWritten | src/Cassandra.DataStax.Graph/Serialization/DateTimeOffsetSerializer.cs:37-50 | an integer token is accepted exactly when it fits in an Int32; a non-JValue is a NotSupportedException; the result is at offset zero |
| DateTimeOffsetSerializer.ParseDateTimeOffset | src/Cassandra.DataStax.Graph/Serialization/DateTimeOffsetSerializer.cs:37-50 | corrected reader: an integer token n gives the instant n ms after the epoch; non-JValues refused; offset zero |
| DateTimeOffsetSerializer.Serializer | src/Cassandra.DataStax.Graph/Serialization/DateTimeOffsetSerializer.cs:24-27 | the serializer the constructor builds: FullTypeName prefix:typeName (g:Timestamp, gx:Instant), the millisecond writer, and the reader as written, which reads an integer token as an Int32 |
| DateTimeOffsetSerializer.TruncationBound | src/Cassandra.DataStax.Graph/Serialization/DateTimeOffsetSerializer.cs:29-33 | truncation moves a valid instant toward the epoch by under a millisecond and keeps it valid |
| DateTimeOffsetSerializer.WholeMillisecondsKept | src/Cassandra.DataStax.Graph/Serialization/DateTimeOffsetSerializer.cs:29-33 | an instant on a whole millisecond is unchanged by truncation |
| DateTimeOffsetSerializer.RoundTrip | src/Cassandra.DataStax.Graph/Serialization/DateTimeOffsetSerializer.cs:29-50 | for every valid instant, reading what is written gives the instant truncated to milliseconds at offset zero |
| DateTimeOffsetSerializer.RoundTripAsWritten | src/Cassandra.DataStax.Graph/Serialization/DateTimeOffsetSerializer.cs:39-43 | as written, the round trip holds exactly when the millisecond count fits in an Int32 |
| DateTimeOffsetSerializer.AsWrittenAgrees | src/Cassandra.DataStax.Graph/Serialization/DateTimeOffsetSerializer.cs:37-50 | wherever the as-written reader succeeds the corrected one gives the same result |
| DateTimeOffsetSerializer.TimestampBeyondInt32 | src/Cassandra.DataStax.Graph/Serialization/DateTimeOffsetSerializer.cs:41 | 2017-08-09T17:21:29Z is written as 1502299289000 ms, refused with an OverflowException as written and read back by the corrected reader |
| DateTimeOffsetSerializer.SerializerRoundTrip | src/Cassandra.DataStax.Graph/Serialization/DateTimeOffsetSerializer.cs:24-50 | Dictify writes {"@type": prefix:typeName, "@value": ms}; Objectify of that ms gives the truncated instant back exactly when ms fits in an Int32 |
| DateTimeOffsetSerializer.CorrectedSerializer | src/Cassandra.DataStax.Graph/Serialization/DateTimeOffsetSerializer.cs:24-50 | the serializer with the Int64 reader: same FullTypeName and writer, reader ParseDateTimeOffset |
| DateTimeOffsetSerializer.CorrectedSerializerRoundTrip | src/Cassandra.DataStax.Graph/Serialization/DateTimeOffsetSerializer.cs:24-50 | with the Int64 reader, Objectify of what Dictify writes gives every valid instant back, truncated to milliseconds |
| DateTimeOffsetSerializer.Write | src/Cassandra.DataStax.Graph/Serialization/DateTimeOffsetSerializer.cs:29-33 | writing never fails and always gives an integer; its value is the subject of SerializerRoundTrip |
| DateTimeOffsetSerializer.Read | src/Cassandra.DataStax.Graph/Serialization/DateTimeOffsetSerializer.cs:24-25 | no contract of its own: the registered read handler is ParseDateTimeOffsetAsWritten; Serializer states that it is the one registered |
| LegacyDateTimeOffsetSerializer.ToUnixEpoch | src/Dse.Graph/Serialization/DateTimeOffsetSerializer.cs:13-17 | milliseconds since the epoch, truncated toward zero |
| LegacyDateTimeOffsetSerializer.ParseDateTimeOffset | src/Dse.Graph/Serialization/DateTimeOffsetSerializer.cs:21-34 | integer tokens accepted exactly within Int32; non-JValues refused; offset zero |
| LegacyDateTimeOffsetSerializer.SameAsCurrent | src/Dse.Graph/Serialization/DateTimeOffsetSerializer.cs:13-34 | both generations encode alike and decode every token alike (the current one as written) |
| LegacyDateTimeOffsetSerializer.RoundTripOnlyInInt32 | src/Dse.Graph/Serialization/DateTimeOffsetSerializer.cs:23-27 | the legacy round trip holds exactly when the millisecond count fits in an Int32 |
| LegacyDateTimeOffsetSerializer.TimestampBeyondInt32 | src/Dse.Graph/Serialization/DateTimeOffsetSerializer.cs:25 | the test instant of 2017-08-09 is written but reading it back overflows |
| TypeSerializer.FromStringParser | src/Cassandra.DataStax.Graph/Serialization/TypeSerializer.cs:40-43 | the string-parser constructor keeps prefix and type name |
| TypeSerializer.WithHandlers | src/Cassandra.DataStax.Graph/Serialization/TypeSerializer.cs:45-50 | the two-handler constructor keeps prefix and type name |
| TypeSerializer.FullTypeName | src/Cassandra.DataStax.Graph/Serialization/TypeSerializer.cs:31 | the tag is the prefix, a colon, then the type name |
| TypeSerializer.TagRoundTrip | src/Cassandra.DataStax.Graph/Serialization/TypeSerializer.cs:31 | a tag whose prefix has no colon splits at its first colon back into prefix and type name |
| TypeSerializer.DictifyIsTyped | src/Cassandra.DataStax.Graph/Serialization/TypeSerializer.cs:58-61 | Dictify tags the written value with FullTypeName and holds it under "@value" unless it is null |
| TypeSerializer.DictifyPropagates | src/Cassandra.DataStax.Graph/Serialization/TypeSerializer.cs:58-61 | an exception of the write handler is the exception of Dictify |
| TypeSerializer.DefaultWriterWritesText | src/Cassandra.DataStax.Graph/Serialization/TypeSerializer.cs:35-38 | without a write handler (null, or the string constructor) the value is written as its ToString |
| TypeSerializer.StringParserReadsText | src/Cassandra.DataStax.Graph/Serialization/TypeSerializer.cs:40-43 | with the string constructor, Objectify is the parser applied to the token's text |
| TypeSerializer.GivenHandlersUsed | src/Cassandra.DataStax.Graph/Serialization/TypeSerializer.cs:45-66 | with given handlers, Objectify is the read handler and Dictify writes the write handler's result |
| TypeSerializer.Dictify | src/Cassandra.DataStax.Graph/Serialization/TypeSerializer.cs:58-61 | no contract of its own: DictifyIsTyped states the typed value {"@type": prefix:typeName, "@value": …} it writes, DictifyPropagates that a failing writer fails it |
| TypeSerializer.Objectify | src/Cassandra.DataStax.Graph/Serialization/TypeSerializer.cs:63-66 | no contract of its own: it applies the read handler; StringParserReadsText and GivenHandlersUsed state which handler that is |
| LegacyTypeSerializer.New | src/Dse.Graph/Serialization/TypeSerializer.cs:25-30 | the only constructor keeps prefix and type name |
| LegacyTypeSerializer.Dictify | src/Dse.Graph/Serialization/TypeSerializer.cs:32-35 | the result holds exactly "@type" = FullTypeName and "@value" = the value's ToString |
| LegacyTypeSerializer.AgreesWithCurrent | src/Dse.Graph/Serialization/TypeSerializer.cs:21-40 | the legacy serializer has the tag, Dictify and Objectify of the current string-parser one |
| LegacyTypeSerializer.Objectify | src/Dse.Graph/Serialization/TypeSerializer.cs:37-40 | no contract of its own: it applies the parser; AgreesWithCurrent states that it reads every token as the current TypeSerializer does |
| ByteArraySerializer.Write | src/Dse.Graph/Serialization/ByteArraySerializer.cs:19-22 | bytes are written as a Base64 string of length 4·⌈n/3⌉ |
| ByteArraySerializer.Serializer | src/Dse.Graph/Serialization/ByteArraySerializer.cs:15 | the serializer's FullTypeName is "dse:Blob" |
| ByteArraySerializer.RoundTrip | src/Dse.Graph/Serialization/ByteArraySerializer.cs:19-27 | for every byte array, Dictify writes a string under "dse:Blob" which Objectify decodes to the same bytes |
| ByteArraySerializer.EmptyArray | src/Dse.Graph/Serialization/ByteArraySerializer.cs:21 | the empty array is the empty string |
| ByteArraySerializer.TestVector | src/Dse.Graph.Test.Integration/TraversalIntegrationTest.cs:28 | bytes {1, 2, 3} are written "AQID" and read back |
| ByteArraySerializer.Read | src/Dse.Graph/Serialization/ByteArraySerializer.cs:24-27 | reading fails only with a FormatException; RoundTrip states that it gives back every written array |
| Base64.EncodedLength | src/Dse.Graph/Serialization/ByteArraySerializer.cs:21 | the encoding has 4·⌈n/3⌉ characters |
| Base64.EncodedAlphabet | src/Dse.Graph/Serialization/ByteArraySerializer.cs:21 | the encoding uses only the Base64 alphabet, with '=' only in the last two places |
| Base64.RoundTrip | src/Dse.Graph/Serialization/ByteArraySerializer.cs:19-27 | FromBase64String of ToBase64String gives back every byte array |
| Base64.Encode | src/Dse.Graph/Serialization/ByteArraySerializer.cs:21 | no contract of its own: EncodedLength, EncodedAlphabet and RoundTrip state its length, alphabet and inverse |
| Base64.Decode | src/Dse.Graph/Serialization/ByteArraySerializer.cs:26 | decoding fails only with a FormatException; RoundTrip states that it inverts Encode |
| DseRemoteConnection.ReaderSpec | src/Cassandra.DataStax.Graph/DseRemoteConnection.cs:46-47 | the tag registry is built exactly when no two serializers share a non-null tag, else an ArgumentException; its keys are exactly the non-null tags, each mapping to a serializer with that tag |
| DseRemoteConnection.WriterSpec | src/Cassandra.DataStax.Graph/DseRemoteConnection.cs:49-51 | the type registry has exactly the serializers' types, each mapping to the first serializer of that type |
| DseRemoteConnection.CustomSerializerTags | src/Cassandra.DataStax.Graph/DseRemoteConnection.cs:32-43 | each entry of the serializer table carries the FullTypeName of the serializer the source builds at that position (null for GraphNodeSerializer), whatever the parsers and printers |
| DseRemoteConnection.ReaderFrom | src/Cassandra.DataStax.Graph/DseRemoteConnection.cs:46-47 | building the tag registry fails only with an ArgumentException; ReaderSpec states when it fails and what it holds |
| DseRemoteConnection.WriterFrom | src/Cassandra.DataStax.Graph/DseRemoteConnection.cs:49-51 | no contract of its own: WriterSpec states which types it maps and to which serializer |
| DseRemoteConnection.ReaderRegistryBuilt | src/Cassandra.DataStax.Graph/DseRemoteConnection.cs:32-47 | the reader registry over the ten custom serializers is built without a duplicate tag |
| DseRemoteConnection.ReaderRegistry | src/Cassandra.DataStax.Graph/DseRemoteConnection.cs:32-47 | the reader accepts exactly the nine tags, g:Timestamp and gx:Instant both, and never GraphNodeSerializer |
| DseRemoteConnection.WriterRegistry | src/Cassandra.DataStax.Graph/DseRemoteConnection.cs:32-51 | every one of the nine types has a writer; DateTimeOffset is written by g:Timestamp, GraphNode by GraphNodeSerializer |
| DseRemoteConnection.GraphStatement.constructor | src/Cassandra.DataStax.Graph/DseRemoteConnection.cs:78 | a new statement has only its query set |
| DseRemoteConnection.GraphStatement.SetGraphLanguage | src/Cassandra.DataStax.Graph/DseRemoteConnection.cs:78 | sets the language, leaves every other setting, returns the same statement |
| DseRemoteConnection.GraphStatement.SetGraphSource | src/Cassandra.DataStax.Graph/DseRemoteConnection.cs:84 | sets the source only and returns the same statement |
| DseRemoteConnection.GraphStatement.SetGraphName | src/Cassandra.DataStax.Graph/DseRemoteConnection.cs:85 | sets the graph name only and returns the same statement |
| DseRemoteConnection.GraphStatement.SetReadTimeoutMillis | src/Cassandra.DataStax.Graph/DseRemoteConnection.cs:86 | sets the read timeout only and returns the same statement |
| DseRemoteConnection.GraphStatement.SetGraphReadConsistencyLevel | src/Cassandra.DataStax.Graph/DseRemoteConnection.cs:89 | sets the read consistency level only and returns the same statement |
| DseRemoteConnection.GraphStatement.SetGraphWriteConsistencyLevel | src/Cassandra.DataStax.Graph/DseRemoteConnection.cs:93 | sets the write consistency level only and returns the same statement |
| DseRemoteConnection.CreateStatement | src/Cassandra.DataStax.Graph/DseRemoteConnection.cs:76-96 | a fresh statement whose settings are Configured(query, options) |
| DseRemoteConnection.ConfiguredSettings | src/Cassandra.DataStax.Graph.Test.Unit/TraversalUnitTest.cs:123-130 | every statement is "bytecode-json" with the query; null options set nothing else; otherwise name, source, timeout and both consistency levels equal the options' |
| DseRemoteConnection.Connect | src/Cassandra.DataStax.Graph/DseRemoteConnection.cs:58-62 | a null session is an ArgumentNullException, and only that; otherwise session and options are kept |
| TraversalBatch.Bytecodes | src/Cassandra.DataStax.Graph/TraversalBatch.cs:53 | one bytecode per traversal, in order |
| TraversalBatch.TraversalBatch.constructor | src/Cassandra.DataStax.Graph/TraversalBatch.cs:32-35 | a new batch is empty and keeps its options |
| TraversalBatch.TraversalBatch.Add | src/Cassandra.DataStax.Graph/TraversalBatch.cs:41-45 | appends the traversal, Count grows by one, earlier traversals keep their places, the batch itself is returned |
| TraversalBatch.TraversalBatch.ToGraphStatement | src/Cassandra.DataStax.Graph/TraversalBatch.cs:47-55 | an InvalidOperationException exactly for an empty batch; otherwise a fresh statement for the written bytecodes with the batch's options |
| TraversalBatch.StatementOfBatch | src/Cassandra.DataStax.Graph/TraversalBatch.cs:47-55 | the statement exists exactly for a non-empty batch, is "bytecode-json", holds the writer's output for the bytecodes in order, and carries the options |
| TraversalBatch.BytecodesOfAppend | src/Cassandra.DataStax.Graph/TraversalBatch.cs:41-45 | adding a traversal appends its bytecode after the earlier ones |
| TraversalBatch.AddThenStatement | src/Cassandra.DataStax.Graph/TraversalBatch.cs:41-55 | after Add, the statement's query is written from the earlier bytecodes followed by the new one |
| LegacyTraversalBatch.TraversalBatch.constructor | src/Dse.Graph/TraversalBatch.cs:23-26 | a new batch is empty and keeps its options |
| LegacyTraversalBatch.TraversalBatch.Add | src/Dse.Graph/TraversalBatch.cs:32-36 | appends the traversal and returns the batch; earlier traversals keep their places |
| LegacyTraversalBatch.TraversalBatch.ToGraphStatement | src/Dse.Graph/TraversalBatch.cs:38-46 | an InvalidOperationException exactly for an empty batch; otherwise the same statement as the current batch |
| GraphSONDeserializers.StoreKeys | src/Cassandra.DataStax.Graph/Serialization/GraphSON3Deserializers.cs:39-47 | storing entries with the indexer leaves exactly the old keys plus the entries' keys |
| GraphSONDeserializers.StoreKeeps | src/Cassandra.DataStax.Graph/Serialization/GraphSON3Deserializers.cs:39-47 | a key no entry names keeps its old value |
| GraphSONDeserializers.StoreDistinct | src/Cassandra.DataStax.Graph/Serialization/GraphSON3Deserializers.cs:39-47 | with distinct keys, each entry's key holds that entry's value |
| GraphSONDeserializers.InitializeSpec | src/Cassandra.DataStax.Graph/Serialization/GraphSON2Deserializers.cs:27-38 | a collection initializer succeeds exactly for distinct keys new to the dictionary (else an ArgumentException) and then equals storing them |
| GraphSONDeserializers.Initialize | src/Cassandra.DataStax.Graph/Serialization/GraphSON2Deserializers.cs:27-38 | the collection initializer fails only with an ArgumentException; InitializeSpec states when and what it builds |
| GraphSONDeserializers.Store | src/Cassandra.DataStax.Graph/Serialization/GraphSON3Deserializers.cs:39-47 | no contract of its own: StoreKeys, StoreKeeps and StoreDistinct state its keys, the entries it keeps and the last-write-wins rule |
| GraphSONDeserializers.GraphSON2 | src/Cassandra.DataStax.Graph/Serialization/GraphSON2Deserializers.cs:27-38 | no contract of its own: GraphSON2Built, GraphSON2Size and GraphSON2Lookups state that it is built and what it holds |
| GraphSONDeserializers.GraphSON2EntriesDistinct | src/Cassandra.DataStax.Graph/Serialization/GraphSON2Deserializers.cs:30-37 | the eight GraphSON 2 tags are distinct |
| GraphSONDeserializers.GraphSON2Built | src/Cassandra.DataStax.Graph/Serialization/GraphSON2Deserializers.cs:27-38 | the GraphSON 2 table is built, its keys are the listed tags and each maps to its listed deserializer |
| GraphSONDeserializers.GraphSON2EntriesKeys | src/Cassandra.DataStax.Graph/Serialization/GraphSON2Deserializers.cs:30-37 | the listed tags are g:Traverser, g:Direction, g:Vertex, g:Edge, g:Property, g:VertexProperty, g:Path, g:T |
| GraphSONDeserializers.GraphSON2Size | src/Cassandra.DataStax.Graph/Serialization/GraphSON2Deserializers.cs:27-38 | the GraphSON 2 table has eight entries |
| GraphSONDeserializers.GraphSON2Namespace | src/Cassandra.DataStax.Graph/Serialization/GraphSON2Deserializers.cs:30-37 | every GraphSON 2 tag is in the "g:" namespace |
| GraphSONDeserializers.GraphSON2Lookups | src/Cassandra.DataStax.Graph/Serialization/GraphSON2Deserializers.cs:32-36 | g:Path, g:Edge and g:Vertex map to the path, edge and vertex deserializers |
| GraphSONDeserializers.BuildGraphSON3 | src/Cassandra.DataStax.Graph/Serialization/GraphSON3Deserializers.cs:35-50 | the two loops give the GraphSON 2 entries stored with the indexer, then the GraphSON 3 ones stored over them |
| GraphSONDeserializers.GraphSON3Overrides | src/Cassandra.DataStax.Graph/Serialization/GraphSON3Deserializers.cs:29-50 | the GraphSON 3 table is the GraphSON 2 table with g:Path replaced by Path3Deserializer |
| GraphSONDeserializers.GraphSON3Table | src/Cassandra.DataStax.Graph/Serialization/GraphSON3Deserializers.cs:35-50 | same keys as GraphSON 2; g:Path is Path3Deserializer; every other tag keeps its GraphSON 2 deserializer |
| GraphSONDeserializers.GraphSON3 | src/Cassandra.DataStax.Graph/Serialization/GraphSON3Deserializers.cs:35-50 | no contract of its own: GraphSON3Overrides and GraphSON3Table state that it is the GraphSON 2 table with g:Path replaced |
| EdgeDeserializer.VertexLabel | src/Cassandra.DataStax.Graph/Serialization/Tinkerpop/Structure/IO/GraphSON/EdgeDeserializer.cs:34 | a missing vertex label is "vertex"; a present one is cast to string, JSON null giving null |
| EdgeDeserializer.EdgeLabel | src/Cassandra.DataStax.Graph/Serialization/Tinkerpop/Structure/IO/GraphSON/EdgeDeserializer.cs:40 | the edge label is never null: a missing or JSON null label is "edge", a string is kept |
| EdgeDeserializer.ObjectifyEdge | src/Cassandra.DataStax.Graph/Serialization/Tinkerpop/Structure/IO/GraphSON/EdgeDeserializer.cs:31-42 | the edge has the reader's id, links the out-vertex to the in-vertex with the reader's ids and the defaulted labels |
| EdgeDeserializer.LabelCast | src/Cassandra.DataStax.Graph/Serialization/Tinkerpop/Structure/IO/GraphSON/EdgeDeserializer.cs:34-40 | missing or scalar labels are read; the defaults differ: JSON null is a null vertex label but the "edge" edge label |
| EdgeDeserializer.ObjectifyNonObject | src/Cassandra.DataStax.Graph/Serialization/Tinkerpop/Structure/IO/GraphSON/EdgeDeserializer.cs:33 | an array is refused with an ArgumentException and a scalar with an InvalidOperationException |
| EdgeDeserializer.Objectify | src/Cassandra.DataStax.Graph/Serialization/Tinkerpop/Structure/IO/GraphSON/EdgeDeserializer.cs:31-42 | an edge is read only from an object; its edge label is never null, and its id, out-vertex id and in-vertex id are what the reader makes of "id", "outV" and "inV" |
| Json.CastString | src/Cassandra.DataStax.Graph/Serialization/Tinkerpop/Structure/IO/GraphSON/PathDeserializer.cs:37 | a string cast succeeds exactly for a missing token, a JValue or a property holding a JValue, and otherwise fails with an ArgumentException |
| PathDeserializer.LabelSet | src/Cassandra.DataStax.Graph/Serialization/Tinkerpop/Structure/IO/GraphSON/PathDeserializer.cs:37 | succeeds exactly when every label is a scalar; the set holds exactly the items' strings |
| PathDeserializer.LabelSets | src/Cassandra.DataStax.Graph/Serialization/Tinkerpop/Structure/IO/GraphSON/PathDeserializer.cs:35-38 | one label set per step, in order, and succeeds exactly when every step's does |
| PathDeserializer.Objects | src/Cassandra.DataStax.Graph/Serialization/Tinkerpop/Structure/IO/GraphSON/PathDeserializer.cs:39 | one object per item, in order, as the reader decodes it; fails exactly when the reader fails on one |
| PathDeserializer.ObjectifyPath | src/Cassandra.DataStax.Graph/Serialization/Tinkerpop/Structure/IO/GraphSON/PathDeserializer.cs:33-41 | the path has one label set per inner array holding its strings, and one decoded object per item, both in order |
| PathDeserializer.MissingListRefused | src/Cassandra.DataStax.Graph/Serialization/Tinkerpop/Structure/IO/GraphSON/PathDeserializer.cs:36-39 | a missing "labels" or "objects" is an ArgumentNullException |
| PathDeserializer.Objectify | src/Cassandra.DataStax.Graph/Serialization/Tinkerpop/Structure/IO/GraphSON/PathDeserializer.cs:33-41 | a path is read only from an object holding both "labels" and "objects", with one label set per labels item and one object per objects item |
| PropertySerializer.Dictionary.Remove | src/Cassandra.DataStax.Graph/Serialization/Tinkerpop/Structure/IO/GraphSON/PropertySerializer.cs:58-61 | removes the key and reports whether it was present |
| PropertySerializer.CreateElementDict | src/Cassandra.DataStax.Graph/Serialization/Tinkerpop/Structure/IO/GraphSON/PropertySerializer.cs:46-65 | the method's removals give exactly ElementDict: null for no element, the pruned serialization otherwise |
| PropertySerializer.DictifyShape | src/Cassandra.DataStax.Graph/Serialization/Tinkerpop/Structure/IO/GraphSON/PropertySerializer.cs:33-44 | Dictify succeeds exactly when the element can be written; it is a "g:Property" whose value has exactly key, value and element |
| PropertySerializer.PruningSpec | src/Cassandra.DataStax.Graph/Serialization/Tinkerpop/Structure/IO/GraphSON/PropertySerializer.cs:52-64 | the inner value dictionary loses exactly outVLabel, inVLabel, properties and value; every other key, inner or outer, is unchanged |
| PropertySerializer.NoValueUntouched | src/Cassandra.DataStax.Graph/Serialization/Tinkerpop/Structure/IO/GraphSON/PropertySerializer.cs:52-56 | an element without "@value", or with a null one, is returned as it was |
| PropertySerializer.Dictify | src/Cassandra.DataStax.Graph/Serialization/Tinkerpop/Structure/IO/GraphSON/PropertySerializer.cs:33-44 | the property is written exactly when its element can be, and otherwise fails with the element's error |
| VertexPropertySerializer.DictifyShape | src/Cassandra.DataStax.Graph/Serialization/Tinkerpop/Structure/IO/GraphSON/VertexPropertySerializer.cs:34-45 | succeeds exactly when the vertex is not null; a "g:VertexProperty" with exactly id, label, value and vertex; the label is not passed through the writer |
| VertexPropertySerializer.Dictify | src/Cassandra.DataStax.Graph/Serialization/Tinkerpop/Structure/IO/GraphSON/VertexPropertySerializer.cs:34-45 | the vertex property is written exactly when its vertex is not null, and otherwise fails with a NullReferenceException |
| GraphNodeSerializer.ObjectToGraphSON | src/Cassandra.DataStax.Graph/Serialization/GraphNodeSerializer.cs:38-46 | on success the keys are the old ones plus the property names, old entries are kept, each property holds its converted value |
| GraphNodeSerializer.ArrayToGraphSON | src/Cassandra.DataStax.Graph/Serialization/GraphNodeSerializer.cs:54-58 | on success, the same length with each item converted in place |
| GraphNodeSerializer.JObjectToGraphSON | src/Cassandra.DataStax.Graph/Serialization/GraphNodeSerializer.cs:38-46 | the loop with Dictionary.Add gives exactly ObjectToGraphSON from an empty dictionary |
| GraphNodeSerializer.Dictify | src/Cassandra.DataStax.Graph/Serialization/GraphNodeSerializer.cs:27-36 | a non-object is a NotSupportedException; an object converts exactly when Convertible, to a dictionary with its property names |
| GraphNodeSerializer.Objectify | src/Cassandra.DataStax.Graph/Serialization/GraphNodeSerializer.cs:73-76 | reading is always refused with a NotSupportedException |
| GraphNodeSerializer.ConvertibleIff | src/Cassandra.DataStax.Graph/Serialization/GraphNodeSerializer.cs:48-71 | ToGraphSON succeeds exactly on tokens with Int32 integers, distinct property names and no property token as a value |
| GraphNodeSerializer.ArrayConvertibleIff | src/Cassandra.DataStax.Graph/Serialization/GraphNodeSerializer.cs:54-58 | an array converts exactly when every item does |
| GraphNodeSerializer.ObjectConvertibleIff | src/Cassandra.DataStax.Graph/Serialization/GraphNodeSerializer.cs:38-46 | filling a dictionary succeeds exactly for distinct names new to it whose values all convert |
| GraphNodeSerializer.ContainersMirrored | src/Cassandra.DataStax.Graph/Serialization/GraphNodeSerializer.cs:52-58 | an object becomes a dictionary with exactly its names, an array an array of its length, each part converted |
| GraphNodeSerializer.ScalarsMapped | src/Cassandra.DataStax.Graph/Serialization/GraphNodeSerializer.cs:59-69 | null and undefined become null (and nothing else does), booleans bool, integers Int32 or an OverflowException, strings their text |
| GraphNodeSerializer.ToGraphSON | src/Cassandra.DataStax.Graph/Serialization/GraphNodeSerializer.cs:48-71 | no contract of its own: ConvertibleIff states exactly which tokens it converts, ContainersMirrored and ScalarsMapped what it gives for each |
| LegacyGraphNodeSerializer.JObjectToGraphSON | src/Dse.Graph/Serialization/GraphNodeSerializer.cs:29-37 | the legacy loop gives exactly the current ObjectToGraphSON |
| LegacyGraphNodeSerializer.Dictify | src/Dse.Graph/Serialization/GraphNodeSerializer.cs:18-27 | the same refusal, result and success condition as the current Dictify |
| LegacyGraphNodeSerializer.Objectify | src/Dse.Graph/Serialization/GraphNodeSerializer.cs:64-67 | reading is always refused with a NotSupportedException |

## Left out

- Reading gx:Duration, gx:LocalDate, gx:LocalTime, dse:Point, dse:LineString and dse:Polygon. These are the driver's own `Parse` methods. They are function parameters, so only their composition with the tag handling is modelled.
- Json.NET's `token.Value<DateTime>()` for non-integer timestamp tokens. It is the parameter `parseDate`.
- The Gremlin.Net reader (`ToObject`) and writer (`ToDict`, `WriteObject`). These are parameters. `ToDict` is taken to be total, and a failing writer is not modelled.
- `ToString` of an arbitrary value, and Duration's `ToString`. Each is the parameter `show`.
- Floating point. A JSON float is kept as its text. The duration's fraction is built from integer arithmetic: trailing zeros are dropped after nine fixed digits, which is what the `0.#########` format gives.
- The culture in the older generation's `string.Format`. It is reduced to a decimal-separator parameter; other culture effects are not modelled.
- `SubmitAsync`, `GetTraversers` and `AdaptGraphNode`. These are session I/O and traversal plumbing. The model covers only the registries they use.
- `DseGraph`, the older generation's `DseRemoteConnection`, `GraphSON2Serializers` and `GraphSONUtils`. These are context, not part of this model.
- The older generation's ByteArraySerializer and DateTimeOffsetSerializer call a four-argument base constructor. The older TypeSerializer does not declare one. They are modelled through the current TypeSerializer, which has that constructor.
- LegacyTraversalBatch.TraversalBatch.ToGraphStatement: uses the current generation's writer and CreateStatement, because the older DseRemoteConnection is not part of this model.
- PropertySerializer.CreateElementDict: models the in-place removal on a copy of the nested dictionary and rebuilds the outer one. It does not model the aliasing through which the writer's own dictionary is changed.
- PropertySerializer.CreateElementDict: a dynamic conversion that fails (a non-dictionary where a dictionary is expected) raises a RuntimeBinderException in C#. The model names it InvalidCast.
- Dictionary enumeration order is taken to be insertion order. The GraphSON 3 loops and the property loop of GraphNodeSerializer rely on that.
- Property keys in PropertySerializer and label strings in VertexPropertySerializer are taken to be non-null.
- `ToString` of a JSON array or object. The model writes the members in order without the line breaks and indentation Json.NET puts between them. Only the Base64 reader and the string parsers read that text. The Base64 reader refuses any container text either way, because '{' and '[' are outside its alphabet.
- Integer widths: Duration's fields are Int32/Int64 newtypes. `Math.Abs` of the minimum value is the OverflowException the code raises. The day-to-hour multiplication cannot overflow an Int64 and is not checked.

## Findings

| source | as written | input that shows it | evidently intended | confidence | as-written member | corrected member |
|---|---|---|---|---|---|---|
| src/Cassandra.DataStax.Graph/Serialization/DateTimeOffsetSerializer.cs:41 | an integer token is read with `ToObject<int>`, but ToUnixEpoch writes a long millisecond count; the older generation does the same at src/Dse.Graph/Serialization/DateTimeOffsetSerializer.cs:25 | 2017-08-09T17:21:29Z, the timestamp of the integration tests, written as 1502299289000 ms, above Int32.MaxValue; every instant after 1970-01-25T20:31:23.647Z overflows | read the token as a long so that every written instant reads back, truncated to milliseconds | not executed | DateTimeOffsetSerializer.ParseDateTimeOffsetAsWritten, shown by DateTimeOffsetSerializer.TimestampBeyondInt32 and DateTimeOffsetSerializer.RoundTripAsWritten | DateTimeOffsetSerializer.ParseDateTimeOffset, proved by DateTimeOffsetSerializer.RoundTrip, registered by DateTimeOffsetSerializer.CorrectedSerializer and proved of it by DateTimeOffsetSerializer.CorrectedSerializerRoundTrip |
