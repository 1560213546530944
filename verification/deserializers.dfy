/**
 * The tables of custom GraphSON deserializers by type tag: the GraphSON 2 table,
 * a dictionary initializer, and the GraphSON 3 table, a copy of it with the
 * GraphSON 3 specific entries written over it.
 */
module GraphSONDeserializers {
  import opened Wrappers

  /** The deserializers the tables hold. */
  datatype Deserializer =
    | TraverserReader | DirectionDeserializer | VertexDeserializer | EdgeDeserializer
    | PropertyDeserializer | VertexPropertyDeserializer | PathDeserializer | TDeserializer
    | Path3Deserializer

  /** A dictionary's entries in their enumeration order. */
  type Entries = seq<(string, Deserializer)>

  /** The keys of some entries. */
  function KeysOf(entries: Entries): set<string> {
    set i | 0 <= i < |entries| :: entries[i].0
  }

  /** No key occurs twice. */
  predicate DistinctKeys(entries: Entries) {
    forall i, j :: 0 <= i < j < |entries| ==> entries[i].0 != entries[j].0
  }

  /** `dictionary[key] = value` for each entry in turn: a later entry overrides an earlier one. */
  function Store(m: map<string, Deserializer>, entries: Entries): map<string, Deserializer>
    decreases |entries|
  {
    if entries == [] then m else Store(m[entries[0].0 := entries[0].1], entries[1..])
  }

  /** A collection initializer: `Add` for each entry in turn, which throws an ArgumentException on a key already present. */
  function Initialize(m: map<string, Deserializer>, entries: Entries): (r: Result<map<string, Deserializer>>)
    ensures r.Err? ==> r.error == Argument
    decreases |entries|
  {
    if entries == [] then Ok(m)
    else if entries[0].0 in m then Err(Argument)
    else Initialize(m[entries[0].0 := entries[0].1], entries[1..])
  }

  /** Storing adds exactly the entries' keys. */
  lemma {:induction false} StoreKeys(m: map<string, Deserializer>, entries: Entries)
    ensures Store(m, entries).Keys == m.Keys + KeysOf(entries)
    decreases |entries|
  {
    if entries != [] {
      StoreKeys(m[entries[0].0 := entries[0].1], entries[1..]);
      assert KeysOf(entries) == {entries[0].0} + KeysOf(entries[1..]) by {
        forall k | k in KeysOf(entries) ensures k in {entries[0].0} + KeysOf(entries[1..]) {
          var i :| 0 <= i < |entries| && entries[i].0 == k;
          if i > 0 { assert entries[1..][i - 1] == entries[i]; }
        }
        forall k | k in KeysOf(entries[1..]) ensures k in KeysOf(entries) {
          var i :| 0 <= i < |entries[1..]| && entries[1..][i].0 == k;
          assert entries[i + 1] == entries[1..][i];
        }
      }
    }
  }

  /** A key no entry names keeps its value. */
  lemma {:induction false} StoreKeeps(m: map<string, Deserializer>, entries: Entries, k: string)
    requires k in m && k !in KeysOf(entries)
    ensures k in Store(m, entries) && Store(m, entries)[k] == m[k]
    decreases |entries|
  {
    if entries != [] {
      assert entries[0].0 in KeysOf(entries);
      assert KeysOf(entries[1..]) <= KeysOf(entries) by {
        forall k' | k' in KeysOf(entries[1..]) ensures k' in KeysOf(entries) {
          var i :| 0 <= i < |entries[1..]| && entries[1..][i].0 == k';
          assert entries[i + 1] == entries[1..][i];
        }
      }
      StoreKeeps(m[entries[0].0 := entries[0].1], entries[1..], k);
    }
  }

  /** With distinct keys, each entry's key ends up holding that entry's value. */
  lemma {:induction false} StoreDistinct(m: map<string, Deserializer>, entries: Entries, i: nat)
    requires DistinctKeys(entries) && i < |entries|
    ensures entries[i].0 in Store(m, entries) && Store(m, entries)[entries[i].0] == entries[i].1
    decreases |entries|
  {
    var m' := m[entries[0].0 := entries[0].1];
    if i == 0 {
      assert entries[0].0 !in KeysOf(entries[1..]) by {
        forall j | 0 <= j < |entries[1..]| ensures entries[1..][j].0 != entries[0].0 {
          assert entries[1..][j] == entries[j + 1];
        }
      }
      StoreKeeps(m', entries[1..], entries[0].0);
    } else {
      assert entries[1..][i - 1] == entries[i];
      StoreDistinct(m', entries[1..], i - 1);
    }
  }

  /** The initializer succeeds exactly when no key repeats or is already present, and then it stores the entries. */
  lemma {:induction false} InitializeSpec(m: map<string, Deserializer>, entries: Entries)
    ensures Initialize(m, entries).Ok? <==> DistinctKeys(entries) && m.Keys !! KeysOf(entries)
    ensures Initialize(m, entries).Ok? ==> Initialize(m, entries).value == Store(m, entries)
    decreases |entries|
  {
    if entries != [] {
      var k := entries[0].0;
      var rest := entries[1..];
      var m' := m[k := entries[0].1];
      InitializeSpec(m', rest);
      KeysOfCons(entries);
    }
  }

  /** The keys of a non-empty list: the first key and the rest's; distinct exactly when the first is new and the rest distinct. */
  lemma {:induction false} KeysOfCons(entries: Entries)
    requires entries != []
    ensures KeysOf(entries) == {entries[0].0} + KeysOf(entries[1..])
    ensures DistinctKeys(entries) <==> entries[0].0 !in KeysOf(entries[1..]) && DistinctKeys(entries[1..])
  {
    var k := entries[0].0;
    var rest := entries[1..];
    forall x | x in KeysOf(entries) ensures x in {k} + KeysOf(rest) {
      var i :| 0 <= i < |entries| && entries[i].0 == x;
      if i > 0 { assert rest[i - 1] == entries[i]; }
    }
    forall x | x in KeysOf(rest) ensures x in KeysOf(entries) {
      var i :| 0 <= i < |rest| && rest[i].0 == x;
      assert entries[i + 1] == rest[i];
    }
    if DistinctKeys(entries) {
      forall j | 0 <= j < |rest| ensures rest[j].0 != k {
        assert rest[j] == entries[j + 1];
      }
      forall i, j | 0 <= i < j < |rest| ensures rest[i].0 != rest[j].0 {
        assert rest[i] == entries[i + 1] && rest[j] == entries[j + 1];
      }
    }
    if k !in KeysOf(rest) && DistinctKeys(rest) {
      forall i, j | 0 <= i < j < |entries| ensures entries[i].0 != entries[j].0 {
        assert entries[j] == rest[j - 1];
        if i > 0 { assert entries[i] == rest[i - 1]; }
      }
    }
  }

  /** Distinct keys: as many keys as entries. */
  lemma {:induction false} DistinctCount(entries: Entries)
    requires DistinctKeys(entries)
    ensures |KeysOf(entries)| == |entries|
    decreases |entries|
  {
    if entries != [] {
      KeysOfCons(entries);
      DistinctCount(entries[1..]);
    }
  }

  // ---- GraphSON 2 ----

  /** The GraphSON 2 initializer's entries, in order. */
  const GraphSON2Entries: Entries := [
    ("g:Traverser", TraverserReader),
    ("g:Direction", DirectionDeserializer),
    ("g:Vertex", VertexDeserializer),
    ("g:Edge", EdgeDeserializer),
    ("g:Property", PropertyDeserializer),
    ("g:VertexProperty", VertexPropertyDeserializer),
    ("g:Path", PathDeserializer),
    ("g:T", TDeserializer)
  ]

  /** GraphSON2Deserializers.CustomDeserializers. */
  function GraphSON2(): Result<map<string, Deserializer>> {
    Initialize(map[], GraphSON2Entries)
  }

  lemma {:induction false} GraphSON2EntriesDistinct()
    ensures DistinctKeys(GraphSON2Entries)
  {
    var e := GraphSON2Entries;
    forall i, j | 0 <= i < j < |e| ensures e[i].0 != e[j].0 {
      // the tags differ in length or in their third character
      assert |e[i].0| != |e[j].0| || e[i].0[2] != e[j].0[2] || e[i].0[3] != e[j].0[3];
    }
  }

  /** The GraphSON 2 table is built without a duplicate key, and it holds exactly the initializer's entries. */
  lemma {:induction false} GraphSON2Built()
    ensures GraphSON2().Ok?
    ensures GraphSON2().value.Keys == KeysOf(GraphSON2Entries)
    ensures forall i :: 0 <= i < |GraphSON2Entries| ==>
      GraphSON2().value[GraphSON2Entries[i].0] == GraphSON2Entries[i].1
  {
    var e := GraphSON2Entries;
    GraphSON2EntriesDistinct();
    InitializeSpec(map[], e);
    StoreKeys(map[], e);
    forall i | 0 <= i < |e| ensures GraphSON2().value[e[i].0] == e[i].1 {
      StoreDistinct(map[], e, i);
    }
  }

  /** Every tag of the GraphSON 2 initializer is in the "g:" namespace. */
  lemma {:induction false} GraphSON2EntriesNamespace()
    ensures forall i :: 0 <= i < |GraphSON2Entries| ==>
      |GraphSON2Entries[i].0| > 2 && GraphSON2Entries[i].0[..2] == "g:"
  {
    var e := GraphSON2Entries;
    assert e[0].0[..2] == "g:" && e[1].0[..2] == "g:" && e[2].0[..2] == "g:" && e[3].0[..2] == "g:";
    assert e[4].0[..2] == "g:" && e[5].0[..2] == "g:" && e[6].0[..2] == "g:" && e[7].0[..2] == "g:";
  }

  lemma {:induction false} GraphSON2EntriesKeys()
    ensures KeysOf(GraphSON2Entries) == {"g:Traverser", "g:Direction", "g:Vertex", "g:Edge",
                                         "g:Property", "g:VertexProperty", "g:Path", "g:T"}
  {
    var e := GraphSON2Entries;
    assert e[0].0 in KeysOf(e) && e[1].0 in KeysOf(e) && e[2].0 in KeysOf(e) && e[3].0 in KeysOf(e);
    assert e[4].0 in KeysOf(e) && e[5].0 in KeysOf(e) && e[6].0 in KeysOf(e) && e[7].0 in KeysOf(e);
  }

  /** The GraphSON 2 table has exactly eight entries. */
  lemma {:induction false} GraphSON2Size()
    ensures GraphSON2().Ok?
    ensures |GraphSON2().value.Keys| == 8
  {
    GraphSON2Built();
    GraphSON2EntriesDistinct();
    DistinctCount(GraphSON2Entries);
  }

  /** Every key of the GraphSON 2 table is in the "g:" namespace. */
  lemma {:induction false} GraphSON2Namespace()
    ensures GraphSON2().Ok?
    ensures forall k :: k in GraphSON2().value ==> |k| > 2 && k[..2] == "g:"
  {
    var e := GraphSON2Entries;
    GraphSON2Built();
    GraphSON2EntriesNamespace();
    forall k | k in KeysOf(e) ensures |k| > 2 && k[..2] == "g:" {
      var i :| 0 <= i < |e| && e[i].0 == k;
    }
  }

  /** In the GraphSON 2 table g:Path is read by the GraphSON 2 path deserializer, g:Edge by the edge one and g:Vertex by the vertex one. */
  lemma {:induction false} GraphSON2Lookups()
    ensures GraphSON2().Ok?
    ensures GraphSON2().value["g:Path"] == PathDeserializer
    ensures GraphSON2().value["g:Edge"] == EdgeDeserializer
    ensures GraphSON2().value["g:Vertex"] == VertexDeserializer
  {
    var e := GraphSON2Entries;
    GraphSON2Built();
    assert e[6].0 == "g:Path" && e[3].0 == "g:Edge" && e[2].0 == "g:Vertex";
  }

  // ---- GraphSON 3 ----

  /** GraphSON3SpecificCustomDeserializers. */
  const GraphSON3SpecificEntries: Entries := [("g:Path", Path3Deserializer)]

  /**
   * The static constructor of the GraphSON 3 table: a new dictionary, every entry
   * of the GraphSON 2 table written into it, then every GraphSON 3 specific entry
   * written over it.
   */
  method BuildGraphSON3(graphSON2: Entries, specific: Entries) returns (dictionary: map<string, Deserializer>)
    ensures dictionary == Store(Store(map[], graphSON2), specific)
  {
    dictionary := map[];
    for i := 0 to |graphSON2|
      invariant Store(dictionary, graphSON2[i..]) == Store(map[], graphSON2)
    {
      assert graphSON2[i..][1..] == graphSON2[i + 1..];
      dictionary := dictionary[graphSON2[i].0 := graphSON2[i].1];
    }
    assert graphSON2[|graphSON2|..] == [];
    ghost var copied := dictionary;
    for i := 0 to |specific|
      invariant Store(dictionary, specific[i..]) == Store(copied, specific)
    {
      assert specific[i..][1..] == specific[i + 1..];
      dictionary := dictionary[specific[i].0 := specific[i].1];
    }
    assert specific[|specific|..] == [];
  }

  /** GraphSON3Deserializers.CustomDeserializers, from the GraphSON 2 table enumerated in insertion order. */
  function GraphSON3(): map<string, Deserializer> {
    Store(Store(map[], GraphSON2Entries), GraphSON3SpecificEntries)
  }

  /** The GraphSON 3 table is the GraphSON 2 one with g:Path written over. */
  lemma {:induction false} GraphSON3Overrides()
    ensures GraphSON2().Ok?
    ensures GraphSON3() == GraphSON2().value["g:Path" := Path3Deserializer]
  {
    var e := GraphSON2Entries;
    GraphSON2Built();
    InitializeSpec(map[], e);
    var t2 := GraphSON2().value;
    assert Store(t2, GraphSON3SpecificEntries) == Store(t2["g:Path" := Path3Deserializer], []);
  }

  /**
   * The GraphSON 3 table has the same keys as the GraphSON 2 one; g:Path is read
   * by the GraphSON 3 path deserializer, and every other key by the same
   * deserializer as in GraphSON 2.
   */
  lemma {:induction false} GraphSON3Table()
    ensures GraphSON2().Ok?
    ensures GraphSON3().Keys == GraphSON2().value.Keys
    ensures GraphSON3()["g:Path"] == Path3Deserializer
    ensures forall k :: k in GraphSON2().value && k != "g:Path" ==> GraphSON3()[k] == GraphSON2().value[k]
  {
    GraphSON3Overrides();
    GraphSON2Lookups();
  }
}
