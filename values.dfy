/** The data of the versioned object model: Python values as they appear in
    field slots and on the wire, the per-class schema, an object's state, the
    errors the object layer raises, and the collaborators whose bodies are not
    part of this model (coercion callables, datetime hooks, lazy loading). */
module Values {

  datatype Option<+T> = None | Some(value: T)

  /** A call that either yields a value or raises one of the errors below. */
  datatype Result<+T> = Ok(value: T) | Err(error: Error)

  /** A call that yields nothing or raises. */
  datatype Outcome = Pass | Fail(error: Error)

  /** An opaque request context; `None` where the source holds `None`. */
  datatype Context = Context(id: string)

  /** The coercion callable ("typefn") declared for a field. The builtin
      `list`, which ObjectListBase declares for `objects`, is given its
      meaning here; every other callable is named and resolved by `Env`. */
  datatype FieldType = ListType | Typefn(name: string)

  /** A class as the object layer sees it once its fields are merged.
      `hooked` names the attributes that have a pair of
      `_attr_<name>_to_primitive`/`_attr_<name>_from_primitive` handlers
      defined outside this model (MagnumObject gives one to `created_at`
      and `updated_at`); `isList` says the class derives from ObjectListBase,
      whose handlers code the `objects` field; `loads` says the class
      overrides `obj_load_attr`. */
  datatype ClassInfo = ClassInfo(
    name: string,
    version: string,
    fields: map<string, FieldType>,
    extraFields: seq<string>,
    hooked: set<string>,
    isList: bool,
    loads: bool)

  /** The state of one object: its class, its VERSION (an instance may
      override the class's), its context, the storage slots of the fields
      that are set, and the changed-set. */
  datatype ObjState = ObjState(
    cls: ClassInfo,
    version: string,
    context: Option<Context>,
    slots: map<string, Value>,
    changed: set<string>)

  /** Python values. `VOther` stands for any scalar the object layer does
      not look into (a datetime, a float); `VSet` lists a set's elements in
      its iteration order; dictionaries have string keys. */
  datatype Value =
    | VNone
    | VBool(b: bool)
    | VInt(i: int)
    | VStr(s: string)
    | VOther(tag: string)
    | VList(items: seq<Value>)
    | VTuple(items: seq<Value>)
    | VSet(items: seq<Value>)
    | VDict(entries: map<string, Value>)
    | VObj(obj: ObjState)

  /** The errors of the object layer, one per exception the source raises. */
  datatype Error =
    | UnsupportedObject(requested: Value)                  // UnsupportedObjectError, unregistered name
    | UnsupportedNamespace(namespace: Value, name: Value)  // UnsupportedObjectError, foreign namespace
    | InvalidVersionString                                 // IncompatibleObjectVersion('Invalid version string')
    | MajorMismatch(clientMajor: string, serverMajor: string)
    | MinorMismatch(clientMinor: int, serverMinor: int)
    | NoCompatibleVersion(objname: string, objver: string, supported: string)
    | MalformedClassVersion(version: string)               // ValueError from int() over a class VERSION
    | NoVersionToReport                                    // '%i.%i' % latest without a pair
    | OrphanedObject(methodName: string, objtype: string)
    | UnknownAttribute(objname: string, attrname: string)  // AttributeError, not a field
    | AttributeUnset(attrname: string)                     // AttributeError, slot still empty after loading
    | CoercionFailed(attr: string)                         // a typefn raised; tagged "<objname>.<field>", the name the setter logs
    | NotImplemented(what: string)                         // base obj_load_attr
    | NotAnObject                                          // list item without obj_to_primitive
    | Malformed(key: string)                               // KeyError/TypeError on a malformed payload
    | Remote(reason: string)                               // raised by an oracle (endpoint, hook)
    | SetResized                                           // RuntimeError, a set changed size while iterated

  const NameKey := "magnum_object.name"
  const NamespaceKey := "magnum_object.namespace"
  const VersionKey := "magnum_object.version"
  const DataKey := "magnum_object.data"
  const ChangesKey := "magnum_object.changes"
  const Namespace := "magnum"
  const ObjectsField := "objects"

  /** The five payload keys are distinct. */
  lemma PayloadKeysDistinct()
    ensures NameKey != NamespaceKey && NameKey != VersionKey && NameKey != DataKey && NameKey != ChangesKey
    ensures NamespaceKey != VersionKey && NamespaceKey != DataKey && NamespaceKey != ChangesKey
    ensures VersionKey != DataKey && VersionKey != ChangesKey
    ensures DataKey != ChangesKey
  {
    assert NameKey[14] == 'n' && DataKey[14] == 'd' && VersionKey[14] == 'v' && ChangesKey[14] == 'c';
    assert NamespaceKey[14] == 'n' && |NamespaceKey| != |NameKey|;
  }

  /** Collaborators whose bodies are not part of the model.
      `typefn(f, v)` calls the coercion callable named `f` (None: it raised);
      `toPrim`/`fromPrim` are the foreign per-attribute handlers;
      `load(s, name)` is a class's `obj_load_attr` override, giving the
      state it leaves behind. */
  datatype Env = Env(
    typefn: (string, Value) -> Option<Value>,
    toPrim: (string, Value) -> Value,
    fromPrim: (string, Value) -> Value,
    load: (ObjState, string) -> Result<ObjState>)

  /** The items a `for` loop visits in a list, a tuple or a set. */
  predicate IsSequence(v: Value)
  {
    v.VList? || v.VTuple? || v.VSet?
  }

  /** A field setter's coercion: `typefn(value)`. */
  function Coerce(env: Env, t: FieldType, v: Value): (r: Option<Value>)
    ensures t == ListType && IsSequence(v) ==> r == Some(VList(v.items))
    ensures t == ListType && (v.VNone? || v.VBool? || v.VInt? || v.VOther?) ==> r == None
  {
    match t
    case Typefn(f) => env.typefn(f, v)
    case ListType =>
      match v
      case VList(xs) => Some(VList(xs))
      case VTuple(xs) => Some(VList(xs))
      case VSet(xs) => Some(VList(xs))
      case VStr(s) => Some(VList(seq(|s|, i requires 0 <= i < |s| => VStr([s[i]]))))
      case VDict(_) => env.typefn("list", v)
      case VObj(_) => env.typefn("list", v)
      case _ => None
  }

  /** Names as a Python list of strings. */
  function StrValues(names: seq<string>): (r: seq<Value>)
    ensures |r| == |names|
    ensures forall i :: 0 <= i < |names| ==> r[i] == VStr(names[i])
  {
    seq(|names|, i requires 0 <= i < |names| => VStr(names[i]))
  }

  /** A list of the elements of a set of names, in some iteration order. */
  ghost function Enumerate(s: set<string>): (r: seq<string>)
    ensures |r| == |s|
    ensures forall x :: x in r <==> x in s
    decreases s
  {
    if s == {} then []
    else
      var x :| x in s;
      [x] + Enumerate(s - {x})
  }
}
