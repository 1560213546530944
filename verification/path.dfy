/**
 * PathDeserializer: a g:Path value object read into the label sets and the
 * objects of a Gremlin path.
 */
module PathDeserializer {
  import opened Wrappers
  import opened Json

  /** A Gremlin path: one label set per step, and the step objects. Labels may be null. */
  datatype Path<O> = Path(labels: seq<set<Option<string>>>, objects: seq<O>)

  /** Whether every item can be cast to a string. */
  predicate AllCastable(items: seq<Token>) {
    forall i :: 0 <= i < |items| ==> Castable(items[i])
  }

  /** The strings of castable items, as a set. */
  function Strings(items: seq<Token>): set<Option<string>>
    requires AllCastable(items)
  {
    set i | 0 <= i < |items| :: CastString(Some(items[i])).value
  }

  /** `new HashSet<string>(items.Select(l => (string) l))`: the strings of the items, duplicates collapsed. */
  function LabelSet(items: seq<Token>): (r: Result<set<Option<string>>>)
    ensures r.Ok? <==> AllCastable(items)
    ensures r.Ok? ==> r.value == Strings(items)
  {
    if items == [] then Ok({})
    else
      var first :- CastString(Some(items[0]));
      var rest :- LabelSet(items[1..]);
      assert forall i :: 1 <= i < |items| ==> items[i] == items[1..][i - 1];
      Ok({first} + rest)
  }

  /** `items.Select(f).ToList()` where f may throw: every item mapped, in order, or the first failure. */
  function Select<T, U>(items: seq<T>, f: T -> Result<U>): (r: Result<seq<U>>)
    ensures r.Ok? <==> forall i :: 0 <= i < |items| ==> f(items[i]).Ok?
    ensures r.Ok? ==> |r.value| == |items|
    ensures r.Ok? ==> forall i :: 0 <= i < |items| ==> f(items[i]) == Ok(r.value[i])
  {
    if items == [] then Ok([])
    else
      var first :- f(items[0]);
      var rest :- Select(items[1..], f);
      assert forall i :: 1 <= i < |items| ==> items[i] == items[1..][i - 1];
      Ok([first] + rest)
  }

  /** `labels.Select(l => new HashSet<string>(...)).ToList()`: one label set per child of `labels`, in order. */
  function LabelSets(steps: seq<Token>): (r: Result<seq<set<Option<string>>>>)
    ensures r.Ok? <==> forall i :: 0 <= i < |steps| ==> LabelSet(Children(steps[i])).Ok?
    ensures r.Ok? ==> |r.value| == |steps|
    ensures r.Ok? ==> forall i :: 0 <= i < |steps| ==> LabelSet(Children(steps[i])) == Ok(r.value[i])
  {
    Select(steps, (t: Token) => LabelSet(Children(t)))
  }

  /** `objects.Select(o => reader.ToObject(o)).ToList()`: each child decoded by the reader, in order. */
  function Objects<O>(items: seq<Token>, reader: Option<Token> -> Result<O>): (r: Result<seq<O>>)
    ensures r.Ok? <==> forall i :: 0 <= i < |items| ==> reader(Some(items[i])).Ok?
    ensures r.Ok? ==> |r.value| == |items|
    ensures r.Ok? ==> forall i :: 0 <= i < |items| ==> reader(Some(items[i])) == Ok(r.value[i])
  {
    Select(items, (t: Token) => reader(Some(t)))
  }

  /**
   * Objectify: the label sets first, then the objects. A missing "labels" or
   * "objects" property is a null source for Select, an ArgumentNullException.
   */
  function Objectify<O>(graphsonObject: Token, reader: Option<Token> -> Result<O>): (r: Result<Path<O>>)
    ensures r.Ok? ==> (graphsonObject.JObject?
      && Lookup(graphsonObject.props, "labels").Some? && Lookup(graphsonObject.props, "objects").Some?)
    ensures r.Ok? ==> (|r.value.labels| == |Children(Lookup(graphsonObject.props, "labels").value)|
      && |r.value.objects| == |Children(Lookup(graphsonObject.props, "objects").value)|)
  {
    var labelsToken :- Index(graphsonObject, "labels");
    if labelsToken.None? then Err(ArgumentNull) else
    var labels :- LabelSets(Children(labelsToken.value));
    var objectsToken :- Index(graphsonObject, "objects");
    if objectsToken.None? then Err(ArgumentNull) else
    var objects :- Objects(Children(objectsToken.value), reader);
    Ok(Path(labels, objects))
  }

  /**
   * For an object whose "labels" is an array of arrays of scalars and whose
   * "objects" is an array the reader decodes item by item, the path has one label
   * set per inner array, in order, holding exactly that array's strings, and one
   * object per item of "objects", in order, as the reader decodes it.
   */
  lemma {:induction false} ObjectifyPath<O>(props: seq<Prop>, labels: seq<Token>, objects: seq<Token>, reader: Option<Token> -> Result<O>)
    requires Lookup(props, "labels") == Some(JArray(labels)) && Lookup(props, "objects") == Some(JArray(objects))
    requires forall i :: 0 <= i < |labels| ==> labels[i].JArray? && AllCastable(labels[i].items)
    requires forall i :: 0 <= i < |objects| ==> reader(Some(objects[i])).Ok?
    ensures Objectify(JObject(props), reader).Ok?
    ensures var p := Objectify(JObject(props), reader).value;
      |p.labels| == |labels| && |p.objects| == |objects|
      && (forall i :: 0 <= i < |labels| ==> p.labels[i] == Strings(labels[i].items))
      && (forall i :: 0 <= i < |objects| ==> reader(Some(objects[i])) == Ok(p.objects[i]))
  {
    LabelsRead(labels);
    ObjectifyOf(JObject(props), labels, objects, reader);
  }

  /** Both lists present and read: the path is made of what they read as. */
  lemma {:induction false} ObjectifyOf<O>(t: Token, labels: seq<Token>, objects: seq<Token>, reader: Option<Token> -> Result<O>)
    requires Index(t, "labels") == Ok(Some(JArray(labels))) && Index(t, "objects") == Ok(Some(JArray(objects)))
    requires LabelSets(labels).Ok? && Objects(objects, reader).Ok?
    ensures Objectify(t, reader) == Ok(Path(LabelSets(labels).value, Objects(objects, reader).value))
  {
  }

  /** Steps that are arrays of scalars give one label set per step, holding that step's strings. */
  lemma {:induction false} LabelsRead(labels: seq<Token>)
    requires forall i :: 0 <= i < |labels| ==> labels[i].JArray? && AllCastable(labels[i].items)
    ensures LabelSets(labels).Ok? && |LabelSets(labels).value| == |labels|
    ensures forall i :: 0 <= i < |labels| ==> LabelSets(labels).value[i] == Strings(labels[i].items)
  {
    forall i | 0 <= i < |labels| ensures LabelSet(Children(labels[i])) == Ok(Strings(labels[i].items)) {
      assert Children(labels[i]) == labels[i].items;
    }
  }

  /** A path object without "labels" or without "objects" is refused with an ArgumentNullException. */
  lemma {:induction false} MissingListRefused<O>(props: seq<Prop>, reader: Option<Token> -> Result<O>)
    requires Lookup(props, "labels").None? || Lookup(props, "objects").None?
    requires Lookup(props, "labels").Some? ==> LabelSets(Children(Lookup(props, "labels").value)).Ok?
    ensures Objectify(JObject(props), reader) == Err(ArgumentNull)
  {
  }
}
