/**
 * TraversalBatch in the older driver generation. Its body is the same as the
 * current one's; the writer and CreateStatement it calls are those of the
 * current connection, since the older connection declares neither.
 */
module LegacyTraversalBatch {
  import opened Wrappers
  import opened DseRemoteConnection
  import B = TraversalBatch

  class TraversalBatch {
    var list: seq<B.Traversal>
    const options: Option<GraphOptions>

    /** A new batch is empty and keeps the options it is given. */
    constructor (options: Option<GraphOptions>)
      ensures list == [] && this.options == options
    {
      list := [];
      this.options := options;
    }

    /** Count: the number of traversals added so far. */
    function Count(): nat
      reads this
    {
      |list|
    }

    /** GetEnumerator: the traversals, in the order they were added. */
    function Enumerate(): seq<B.Traversal>
      reads this
    {
      list
    }

    /** Add: appends at the end and returns this batch. */
    method Add(traversal: B.Traversal) returns (self: TraversalBatch)
      modifies this
      ensures self == this
      ensures list == old(list) + [traversal]
      ensures Count() == old(Count()) + 1
      ensures Enumerate()[..old(Count())] == old(Enumerate()) && Enumerate()[old(Count())] == traversal
    {
      list := list + [traversal];
      self := this;
    }

    /** ToGraphStatement: refuses an empty batch; otherwise the bytecodes in order, with this batch's options. */
    method ToGraphStatement(writeObject: seq<B.Bytecode> -> string) returns (r: Result<GraphStatement>)
      ensures r.Err? <==> Count() == 0
      ensures r.Err? ==> r.error == InvalidOperation
      ensures r.Ok? ==> fresh(r.value) && Ok(r.value.State()) == B.StatementFor(list, options, writeObject)
    {
      if |list| == 0 {
        return Err(InvalidOperation);
      }
      var query := writeObject(B.Bytecodes(list));
      var statement := CreateStatement(query, options);
      r := Ok(statement);
    }
  }
}
