/**
 * TraversalBatch: an append-only list of traversals, sent together as one graph
 * statement whose query is the GraphSON of their bytecodes.
 */
module TraversalBatch {
  import opened Wrappers
  import opened DseRemoteConnection

  /** A traversal's Gremlin bytecode: its steps, as opaque instructions. */
  datatype Bytecode = Bytecode(steps: seq<string>)

  /** A traversal, as far as a batch uses it. */
  datatype Traversal = Traversal(bytecode: Bytecode)

  /** `list.Select(t => t.Bytecode)`: the bytecodes, one per traversal, in order. */
  function Bytecodes(list: seq<Traversal>): (r: seq<Bytecode>)
    ensures |r| == |list|
    ensures forall i :: 0 <= i < |list| ==> r[i] == list[i].bytecode
  {
    if list == [] then [] else [list[0].bytecode] + Bytecodes(list[1..])
  }

  /**
   * What ToGraphStatement yields for a batch holding `list` with `options`, given
   * the GraphSON writer `writeObject`: an InvalidOperationException for an empty
   * batch, otherwise the settings of the statement CreateStatement builds.
   */
  function StatementFor(list: seq<Traversal>, options: Option<GraphOptions>,
                        writeObject: seq<Bytecode> -> string): Result<StatementState>
  {
    if |list| == 0 then Err(InvalidOperation)
    else Ok(Configured(writeObject(Bytecodes(list)), options))
  }

  class TraversalBatch {
    var list: seq<Traversal>
    const options: Option<GraphOptions>

    /** A new batch is empty and keeps the options it is given. */
    constructor (options: Option<GraphOptions>)
      ensures list == [] && this.options == options
    {
      list := [];
      this.options := options;
    }

    /** Count: the number of traversals added so far. */
    function Count(): nat
      reads this
    {
      |list|
    }

    /** GetEnumerator: the traversals, in the order they were added. */
    function Enumerate(): seq<Traversal>
      reads this
    {
      list
    }

    /** Add: appends at the end and returns this batch. */
    method Add(traversal: Traversal) returns (self: TraversalBatch)
      modifies this
      ensures self == this
      ensures list == old(list) + [traversal]
      ensures Count() == old(Count()) + 1
      ensures Enumerate()[..old(Count())] == old(Enumerate()) && Enumerate()[old(Count())] == traversal
    {
      list := list + [traversal];
      self := this;
    }

    /**
     * ToGraphStatement: refuses an empty batch; otherwise writes the bytecodes in
     * order and builds a statement with this batch's options. The batch is not changed.
     */
    method ToGraphStatement(writeObject: seq<Bytecode> -> string) returns (r: Result<GraphStatement>)
      ensures r.Err? <==> Count() == 0
      ensures r.Err? ==> r.error == InvalidOperation
      ensures r.Ok? ==> fresh(r.value) && Ok(r.value.State()) == StatementFor(list, options, writeObject)
    {
      if |list| == 0 {
        return Err(InvalidOperation);
      }
      var query := writeObject(Bytecodes(list));
      var statement := CreateStatement(query, options);
      r := Ok(statement);
    }
  }

  /**
   * A batch's statement exists exactly when the batch is not empty; it is a
   * "bytecode-json" statement whose query is the writer's output for the
   * bytecodes in insertion order, and which carries the batch's options.
   */
  lemma {:induction false} StatementOfBatch(list: seq<Traversal>, options: Option<GraphOptions>, writeObject: seq<Bytecode> -> string)
    ensures StatementFor(list, options, writeObject).Err? <==> list == []
    ensures StatementFor(list, options, writeObject).Err? ==> StatementFor(list, options, writeObject).error == InvalidOperation
    ensures StatementFor(list, options, writeObject).Ok? ==>
      var s := StatementFor(list, options, writeObject).value;
      s.language == Some("bytecode-json")
      && s.query == writeObject(Bytecodes(list))
      && (options.Some? ==> s.source == options.value.source && s.name == options.value.name
                            && s.readTimeoutMillis == options.value.readTimeoutMillis)
  {
    if list != [] {
      ConfiguredSettings(writeObject(Bytecodes(list)), options);
    }
  }

  /** Adding traversals one at a time enumerates them back in the same order. */
  lemma {:induction false} BytecodesOfAppend(list: seq<Traversal>, t: Traversal)
    ensures Bytecodes(list + [t]) == Bytecodes(list) + [t.bytecode]
  {
    var l, r := Bytecodes(list + [t]), Bytecodes(list) + [t.bytecode];
    assert |l| == |r|;
    forall i | 0 <= i < |l| ensures l[i] == r[i] {
      if i < |list| {
        assert (list + [t])[i] == list[i];
      }
    }
  }

  /**
   * Adding a traversal to a batch and converting it gives the statement whose
   * query is written from the earlier bytecodes followed by the new one.
   */
  lemma {:induction false} AddThenStatement(list: seq<Traversal>, t: Traversal, options: Option<GraphOptions>,
                         writeObject: seq<Bytecode> -> string)
    ensures StatementFor(list + [t], options, writeObject)
      == Ok(Configured(writeObject(Bytecodes(list) + [t.bytecode]), options))
  {
    BytecodesOfAppend(list, t);
  }
}
