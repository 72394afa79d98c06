/** `MagnumObjectSerializer` and the module-level `obj_to_primitive`
    (magnum/objects/base.py:427-483). The serializer maps containers item
    by item, turns objects into their primitives and primitives carrying an
    object name back into objects; a set comes back as a tuple. */
module Serializer {
  import opened Values
  import opened Registry
  import opened Codec
  import opened Objects
  import opened RoundTrip

  /* ---------------------------------------------------------------- */
  /* The serializer                                                   */
  /* ---------------------------------------------------------------- */

  /** `_process_iterable`: the processed items in a container of the same
      kind, except that a set becomes a tuple. */
  function ProcessIterable(e: Value, processed: seq<Value>): (r: Value)
    requires IsSequence(e)
    ensures IsSequence(r) && r.items == processed
    ensures e.VList? ==> r.VList?
    ensures e.VTuple? || e.VSet? ==> r.VTuple?
  {
    if e.VList? then VList(processed) else VTuple(processed)
  }

  /** `serialize_entity`: lists, tuples and sets item by item, an object
      through `obj_to_primitive()`, anything else as it is. */
  ghost function SerializeEntity(env: Env, e: Value): (r: Result<Value>)
    ensures r.Ok? ==> !r.value.VSet? && !r.value.VObj?
    ensures r.Ok? && IsSequence(e) ==> IsSequence(r.value) && |r.value.items| == |e.items|
    ensures !IsSequence(e) && !e.VObj? ==> r == Ok(e)
    decreases e
  {
    match e
    case VObj(o) => ToPrimitive(env, o)
    case VList(items) => Processed(e, SerializeItems(env, items))
    case VTuple(items) => Processed(e, SerializeItems(env, items))
    case VSet(items) => Processed(e, SerializeItems(env, items))
    case _ => Ok(e)
  }

  /** The list comprehension of `_process_iterable`: the first item that
      fails stops it. */
  ghost function SerializeItems(env: Env, items: seq<Value>): (r: Result<seq<Value>>)
    ensures r.Ok? ==> |r.value| == |items|
    decreases items
  {
    if items == [] then Ok([])
    else
      match SerializeEntity(env, items[0])
      case Err(x) => Err(x)
      case Ok(p) =>
        match SerializeItems(env, items[1..])
        case Err(x) => Err(x)
        case Ok(ps) => Ok([p] + ps)
  }

  function Processed(e: Value, items: Result<seq<Value>>): (r: Result<Value>)
    requires IsSequence(e)
    ensures r.Ok? <==> items.Ok?
    ensures r.Ok? ==> r.value == ProcessIterable(e, items.value)
  {
    match items
    case Err(x) => Err(x)
    case Ok(ps) => Ok(ProcessIterable(e, ps))
  }

  /** A dictionary the deserializer takes for an object primitive. */
  predicate NamesObject(e: Value)
  {
    e.VDict? && NameKey in e.entries
  }

  /** `deserialize_entity`: a dictionary with an object name through
      `obj_from_primitive` in the receiving context, lists, tuples and sets
      item by item, anything else as it is. */
  ghost function DeserializeEntity(env: Env, classes: Classes, e: Value, ctx: Option<Context>): (r: Result<Value>)
    ensures r.Ok? ==> !r.value.VSet?
    ensures NamesObject(e) ==> (r.Ok? <==> FromPrimitive(env, classes, e, ctx).Ok?)
    ensures NamesObject(e) && r.Ok? ==> r.value == VObj(FromPrimitive(env, classes, e, ctx).value)
    ensures r.Ok? && IsSequence(e) ==> IsSequence(r.value) && |r.value.items| == |e.items|
    ensures !IsSequence(e) && !NamesObject(e) ==> r == Ok(e)
    decreases e
  {
    if NamesObject(e) then
      match FromPrimitive(env, classes, e, ctx)
      case Err(x) => Err(x)
      case Ok(o) => Ok(VObj(o))
    else if IsSequence(e) then Processed(e, DeserializeItems(env, classes, e.items, ctx))
    else Ok(e)
  }

  ghost function DeserializeItems(env: Env, classes: Classes, items: seq<Value>, ctx: Option<Context>)
    : (r: Result<seq<Value>>)
    ensures r.Ok? ==> |r.value| == |items|
    decreases items
  {
    if items == [] then Ok([])
    else
      match DeserializeEntity(env, classes, items[0], ctx)
      case Err(x) => Err(x)
      case Ok(p) =>
        match DeserializeItems(env, classes, items[1..], ctx)
        case Err(x) => Err(x)
        case Ok(ps) => Ok([p] + ps)
  }

  /** An entity the serializer carries across: objects that survive their
      own encoding, containers of such entities, dictionaries that do not
      look like object primitives, and scalars. */
  ghost predicate Transportable(env: Env, classes: Classes, e: Value, ctx: Option<Context>)
    decreases e
  {
    match e
    case VObj(o) => Canonical(env, classes, o, ctx)
    case VList(items) => forall k :: 0 <= k < |items| ==> Transportable(env, classes, items[k], ctx)
    case VTuple(items) => forall k :: 0 <= k < |items| ==> Transportable(env, classes, items[k], ctx)
    case VSet(items) => forall k :: 0 <= k < |items| ==> Transportable(env, classes, items[k], ctx)
    case VDict(m) => NameKey !in m
    case _ => true
  }

  /** What arrives: the entity with every set, at any depth of containers,
      turned into a tuple. */
  function Arrived(e: Value): Value
    decreases e
  {
    match e
    case VList(items) => VList(ArrivedItems(items))
    case VTuple(items) => VTuple(ArrivedItems(items))
    case VSet(items) => VTuple(ArrivedItems(items))
    case _ => e
  }

  function ArrivedItems(items: seq<Value>): (r: seq<Value>)
    decreases items
  {
    if items == [] then [] else [Arrived(items[0])] + ArrivedItems(items[1..])
  }

  /** Round trip: deserializing what was serialized, in the objects' own
      context, gives the entity back with its sets turned into tuples. */
  lemma {:induction false} EntityRoundTrip(env: Env, classes: Classes, e: Value, ctx: Option<Context>)
    requires Transportable(env, classes, e, ctx)
    ensures SerializeEntity(env, e).Ok?
    ensures DeserializeEntity(env, classes, SerializeEntity(env, e).value, ctx) == Ok(Arrived(e))
    decreases e
  {
    match e
    case VObj(o) =>
      ObjectRoundTrip(env, classes, o, ctx);
      EncodeShape(env, o);
    case VList(items) =>
      ItemsRoundTrip(env, classes, items, ctx);
    case VTuple(items) =>
      ItemsRoundTrip(env, classes, items, ctx);
    case VSet(items) =>
      ItemsRoundTrip(env, classes, items, ctx);
    case _ =>
  }

  /** Item by item, the round trip of a container's contents. */
  lemma {:induction false} ItemsRoundTrip(env: Env, classes: Classes, items: seq<Value>, ctx: Option<Context>)
    requires forall k :: 0 <= k < |items| ==> Transportable(env, classes, items[k], ctx)
    ensures SerializeItems(env, items).Ok?
    ensures DeserializeItems(env, classes, SerializeItems(env, items).value, ctx) == Ok(ArrivedItems(items))
    decreases items
  {
    if items != [] {
      EntityRoundTrip(env, classes, items[0], ctx);
      ItemsRoundTrip(env, classes, items[1..], ctx);
      var p := SerializeEntity(env, items[0]).value;
      var ps := SerializeItems(env, items[1..]).value;
      assert ([p] + ps)[0] == p && ([p] + ps)[1..] == ps;
    }
  }

  /* ---------------------------------------------------------------- */
  /* The module-level obj_to_primitive                                */
  /* ---------------------------------------------------------------- */

  /** `obj_to_primitive(obj)`: a list object becomes the list of its items,
      each turned into a primitive; any other object the dictionary of its
      set fields, each turned into a primitive; anything else stays as it
      is (containers are not looked into). Which failing field is reported
      depends on dictionary order. */
  ghost function Dump(env: Env, v: Value): (r: Result<Value>)
    ensures !v.VObj? ==> r == Ok(v)
    ensures v.VObj? && !v.obj.cls.isList && r.Ok? ==>
      r.value.VDict? && r.value.entries.Keys == SetFields(v.obj)
    ensures v.VObj? && v.obj.cls.isList && r.Ok? ==> r.value.VList?
    decreases v
  {
    match v
    case VObj(o) =>
      if o.cls.isList then
        if ObjectsField !in o.cls.fields then Err(UnknownAttribute(o.cls.name, ObjectsField))
        else if ObjectsField !in o.slots then
          var got := GetField(env, o, ObjectsField).0;
          if got.Err? then Err(got.error) else Err(AttributeUnset(ObjectsField))
        else
          match o.slots[ObjectsField]
          case VList(items) => DumpList(env, items)
          case VTuple(items) => DumpList(env, items)
          case VSet(items) => DumpList(env, items)
          case VStr(s) => Ok(VList(seq(|s|, k requires 0 <= k < |s| => VStr([s[k]]))))
          case VDict(m) => Ok(VList(StrValues(Enumerate(m.Keys))))
          case _ => Err(Malformed(ObjectsField))
      else if exists n :: n in SetFields(o) && Dump(env, o.slots[n]).Err? then
        var n :| n in SetFields(o) && Dump(env, o.slots[n]).Err?;
        Dump(env, o.slots[n])
      else Ok(VDict(map n | n in SetFields(o) :: Dump(env, o.slots[n]).value))
    case _ => Ok(v)
  }

  ghost function DumpList(env: Env, items: seq<Value>): (r: Result<Value>)
    ensures r.Ok? ==> r.value.VList? && |r.value.items| == |items|
    decreases items, 1
  {
    match DumpItems(env, items)
    case Err(x) => Err(x)
    case Ok(ps) => Ok(VList(ps))
  }

  /** `[obj_to_primitive(x) for x in obj]`. */
  ghost function DumpItems(env: Env, items: seq<Value>): (r: Result<seq<Value>>)
    ensures r.Ok? ==> |r.value| == |items|
    decreases items, 0
  {
    if items == [] then Ok([])
    else
      match Dump(env, items[0])
      case Err(x) => Err(x)
      case Ok(p) =>
        match DumpItems(env, items[1..])
        case Err(x) => Err(x)
        case Ok(ps) => Ok([p] + ps)
  }

  /** An object dumps when all its set fields do, and each field then
      holds its own dump. */
  lemma DumpObject(env: Env, o: ObjState)
    requires !o.cls.isList
    ensures Dump(env, VObj(o)).Ok? <==> forall n :: n in SetFields(o) ==> Dump(env, o.slots[n]).Ok?
    ensures Dump(env, VObj(o)).Ok? ==>
      forall n :: n in SetFields(o) ==> Dump(env, VObj(o)).value.entries[n] == Dump(env, o.slots[n]).value
  {
  }

  /** The items of a list object dump in order; the first that fails
      stops the dump. */
  lemma {:induction false} DumpItemsAll(env: Env, items: seq<Value>)
    ensures DumpItems(env, items).Ok? <==> forall k :: 0 <= k < |items| ==> Dump(env, items[k]).Ok?
    ensures DumpItems(env, items).Ok? ==>
      forall k :: 0 <= k < |items| ==> DumpItems(env, items).value[k] == Dump(env, items[k]).value
    decreases items
  {
    if items != [] {
      DumpItemsAll(env, items[1..]);
      assert forall k :: 1 <= k < |items| ==> items[1..][k - 1] == items[k];
    }
  }

  /** For an object with no handlers and no nested objects among its set
      fields, the module-level `obj_to_primitive` gives exactly the data
      entry of the method's primitive. */
  lemma DumpIsData(env: Env, o: ObjState)
    requires !o.cls.isList
    requires forall n :: n in SetFields(o) ==> n !in o.cls.hooked && !o.slots[n].VObj?
    ensures !ObjectsFail(env, o)
    ensures Dump(env, VObj(o)) == Ok(VDict(EncodeData(env, o)))
  {
    DumpObject(env, o);
    var d := Dump(env, VObj(o)).value.entries;
    assert d == EncodeData(env, o);
  }
}
