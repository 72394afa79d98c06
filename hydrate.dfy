/** `obj_from_primitive` as the source runs it: a fresh object per payload,
    its fields assigned one at a time through the setter, the entities of a
    list object decoded in turn (magnum/objects/base.py:262-291, 413-421).
    Each method is proved against the functions of `Codec`: it succeeds
    exactly when they do and then builds the state they describe; which
    error it reports when several fields fail depends on dictionary order. */
module Hydrate {
  import opened Values
  import opened Registry
  import opened Codec
  import opened Objects

  /** A decoded object agrees with its specification: both succeed or both
      fail, and on success the object holds the specified state. */
  ghost predicate AgreesObj(r: Result<MagnumObject>, spec: Result<ObjState>)
    reads if r.Ok? then {r.value} else {}
  {
    (r.Ok? <==> spec.Ok?) && (r.Ok? ==> r.value.State() == spec.value)
  }

  ghost predicate AgreesValue(r: Result<Value>, spec: Result<Value>)
  {
    (r.Ok? <==> spec.Ok?) && (r.Ok? ==> r.value == spec.value)
  }

  /** `MagnumObject.obj_from_primitive(primitive, context)`. */
  method ObjFromPrimitive(env: Env, registry: ObjRegistry, prim: Value, ctx: Option<Context>)
    returns (r: Result<MagnumObject>)
    ensures r.Ok? ==> fresh(r.value)
    ensures AgreesObj(r, FromPrimitive(env, registry.classes, prim, ctx))
    decreases prim, 5
  {
    var route := RoutePrimitive(registry, prim);
    if route.Err? {
      return Err(route.error);
    }
    var (cls, objver) := route.value;
    r := ObjFromDict(env, registry, cls, objver, prim.entries, ctx);
  }

  /** The header checks of `obj_from_primitive` and the class lookup. */
  method RoutePrimitive(registry: ObjRegistry, prim: Value) returns (r: Result<(ClassInfo, string)>)
    ensures r == Route(registry.classes, prim)
  {
    if !prim.VDict? {
      return Err(Malformed(NamespaceKey));
    }
    var m := prim.entries;
    if NamespaceKey !in m {
      return Err(Malformed(NamespaceKey));
    }
    if m[NamespaceKey] != VStr(Namespace) {
      if NameKey !in m {
        return Err(Malformed(NameKey));
      }
      return Err(UnsupportedNamespace(m[NamespaceKey], m[NameKey]));
    }
    if NameKey !in m {
      return Err(Malformed(NameKey));
    }
    if VersionKey !in m {
      return Err(Malformed(VersionKey));
    }
    if Unhashable(m[NameKey]) {
      return Err(Malformed(NameKey));
    }
    if !m[NameKey].VStr? || m[NameKey].s !in registry.classes {
      return Err(UnsupportedObject(m[NameKey]));
    }
    if !m[VersionKey].VStr? {
      return ResolveOddVersion(registry.classes, m[NameKey].s);
    }
    var objver := m[VersionKey].s;
    var cls := registry.ObjClassFromName(m[NameKey].s, objver);
    if cls.Err? {
      return Err(cls.error);
    }
    r := Ok((cls.value, objver));
  }

  /** The field loop has visited every field without an error: the slots
      are those the specification fills. */
  lemma LoopSlots(env: Env, classes: Classes, cls: ClassInfo, data: Value, ctx: Option<Context>,
                  slots: map<string, Value>)
    requires var turns := Turns(env, classes, cls, data, ctx);
      (forall n :: n in turns ==> turns[n].Ok?) &&
      slots == map n | n in cls.fields && turns[n].value.Some? :: turns[n].value.value
    ensures DecodeSlots(env, classes, cls, data, ctx) == Ok(slots)
  {
  }

  /** A field whose turn fails makes the field loop fail. */
  lemma LoopFails(env: Env, classes: Classes, cls: ClassInfo, data: Value, ctx: Option<Context>, name: string)
    requires name in cls.fields && Turns(env, classes, cls, data, ctx)[name].Err?
    ensures DecodeSlots(env, classes, cls, data, ctx).Err?
  {
  }

  /** `cls._obj_from_primitive(context, objver, primitive)`. */
  method ObjFromDict(env: Env, registry: ObjRegistry, cls: ClassInfo, objver: string,
                     entries: map<string, Value>, ctx: Option<Context>)
    returns (r: Result<MagnumObject>)
    ensures r.Ok? ==> fresh(r.value)
    ensures AgreesObj(r, DecodeAs(env, registry.classes, cls, objver, entries, ctx))
    decreases VDict(entries), 4
  {
    var obj := new MagnumObject(cls, ctx);
    obj.version := objver;
    if DataKey !in entries {
      return Err(Malformed(DataKey));
    }
    var objdata := entries[DataKey];
    var changes := if ChangesKey in entries then entries[ChangesKey] else VList([]);
    ghost var classes := registry.classes;
    ghost var turns := Turns(env, classes, cls, objdata, ctx);
    var remaining := cls.fields.Keys;
    ghost var done: set<string> := {};
    while remaining != {}
      invariant remaining <= cls.fields.Keys && done == cls.fields.Keys - remaining
      invariant fresh(obj) && obj.cls == cls && obj.version == objver && obj.context == ctx
      invariant forall n :: n in done ==> turns[n].Ok?
      invariant obj.slots == map n | n in done && turns[n].value.Some? :: turns[n].value.value
      decreases remaining
    {
      var name :| name in remaining;
      var turn := FieldTurn(env, registry, cls, objdata, name, ctx);
      if turn.Err? {
        LoopFails(env, classes, cls, objdata, ctx, name);
        return Err(turn.error);
      }
      ghost var before := obj.slots;
      if turn.value.Some? {
        var set_ := obj.SetAttr(env, name, turn.value.value);
        assert set_ == Pass;
      }
      SlotsGrow(turns, done, name, before, obj.slots);
      done := done + {name};
      remaining := remaining - {name};
    }
    LoopSlots(env, classes, cls, objdata, ctx, obj.slots);
    DecodeAsFilled(env, classes, cls, objver, entries, ctx, obj.slots);
    var names := ChangedNames(changes, cls.fields.Keys);
    if names.None? {
      return Err(Malformed(ChangesKey));
    }
    obj.changed := names.value;
    r := Ok(obj);
  }

  /** One more field visited: its decoded value, if any, joins the slots. */
  lemma SlotsGrow(turns: map<string, Result<Option<Value>>>, done: set<string>, name: string,
                  slots: map<string, Value>, grown: map<string, Value>)
    requires name in turns && turns[name].Ok? && done <= turns.Keys
    requires forall n :: n in done ==> turns[n].Ok?
    requires slots == map n | n in done && turns[n].value.Some? :: turns[n].value.value
    requires turns[name].value.None? ==> grown == slots
    requires turns[name].value.Some? ==>
      grown.Keys == slots.Keys + {name} && grown[name] == turns[name].value.value &&
      forall n :: n in slots && n != name ==> grown[n] == slots[n]
    ensures grown == map n | n in done + {name} && turns[n].value.Some? :: turns[n].value.value
  {
  }

  /** The decoded slots in hand, the changes decide the outcome. */
  lemma DecodeAsFilled(env: Env, classes: Classes, cls: ClassInfo, objver: string,
                       entries: map<string, Value>, ctx: Option<Context>, slots: map<string, Value>)
    requires DataKey in entries && DecodeSlots(env, classes, cls, entries[DataKey], ctx) == Ok(slots)
    ensures var changes := if ChangesKey in entries then entries[ChangesKey] else VList([]);
      var names := ChangedNames(changes, cls.fields.Keys);
      DecodeAs(env, classes, cls, objver, entries, ctx) ==
        if names.None? then Err(Malformed(ChangesKey)) else Ok(ObjState(cls, objver, ctx, slots, names.value))
  {
  }

  /** One turn of the field loop, up to the setter: `name in objdata`, then
      the dispatcher; the value handed to the setter is already coerced. */
  method FieldTurn(env: Env, registry: ObjRegistry, cls: ClassInfo, objdata: Value, name: string,
                   ctx: Option<Context>) returns (r: Result<Option<Value>>)
    requires name in cls.fields
    ensures var spec := DecodeField(env, registry.classes, cls, objdata, name, ctx);
      (r.Ok? <==> spec.Ok?) && (r.Ok? ==> (spec.value.Some? <==> r.value.Some?)) &&
      (r.Ok? && r.value.Some? ==> Coerce(env, cls.fields[name], r.value.value) == Some(spec.value.value))
    decreases objdata, 3
  {
    match objdata
    case VDict(d) =>
      if name !in d {
        return Ok(None);
      }
      var v := AttrFromPrimitive(env, registry, cls, name, d[name], ctx);
      if v.Err? {
        return Err(v.error);
      }
      if Coerce(env, cls.fields[name], v.value).None? {
        return Err(CoercionFailed(cls.name + "." + name));
      }
      r := Ok(Some(v.value));
    case VList(items) =>
      r := if VStr(name) in items then Err(Malformed(DataKey)) else Ok(None);
    case VTuple(items) =>
      r := if VStr(name) in items then Err(Malformed(DataKey)) else Ok(None);
    case VSet(items) =>
      r := if VStr(name) in items then Err(Malformed(DataKey)) else Ok(None);
    case VStr(s) =>
      r := if IsSubstring(name, s) then Err(Malformed(DataKey)) else Ok(None);
    case _ =>
      r := Err(Malformed(DataKey));
  }

  /** `self._attr_from_primitive(name, value)`. */
  method AttrFromPrimitive(env: Env, registry: ObjRegistry, cls: ClassInfo, name: string, v: Value,
                           ctx: Option<Context>) returns (r: Result<Value>)
    ensures AgreesValue(r, Codec.AttrFromPrimitive(env, registry.classes, cls, name, v, ctx))
    decreases v, 2
  {
    if cls.isList && name == ObjectsField {
      r := ObjectsFromPrimitive(env, registry, v, ctx);
    } else if name in cls.hooked {
      r := Ok(env.fromPrim(name, v));
    } else {
      r := Ok(v);
    }
  }

  /** `_attr_objects_from_primitive(value)`: every entity in turn, each
      decoded with the list object's context. */
  method ObjectsFromPrimitive(env: Env, registry: ObjRegistry, v: Value, ctx: Option<Context>)
    returns (r: Result<Value>)
    ensures AgreesValue(r, DecodeEntities(env, registry.classes, v, ctx))
    decreases v, 1
  {
    if !IsSequence(v) {
      r := match v
        case VStr(s) => if s == "" then Ok(VList([])) else Err(Malformed(NamespaceKey))
        case VDict(m) => if m == map[] then Ok(VList([])) else Err(Malformed(NamespaceKey))
        case _ => Err(Malformed(ObjectsField));
      return;
    }
    r := ObjectsLoop(env, registry, v, ctx);
  }

  /** The loop of `_attr_objects_from_primitive` over a list, tuple or set. */
  method ObjectsLoop(env: Env, registry: ObjRegistry, v: Value, ctx: Option<Context>)
    returns (r: Result<Value>)
    requires IsSequence(v)
    ensures AgreesValue(r, DecodeItems(env, registry.classes, v, 0, ctx))
    decreases v, 0
  {
    ghost var classes := registry.classes;
    var objects: seq<Value> := [];
    ghost var whole := DecodeItems(env, classes, v, 0, ctx);
    if whole.Ok? {
      assert [] + whole.value.items == whole.value.items;
    }
    for i := 0 to |v.items|
      invariant DecodeItems(env, classes, v, 0, ctx) == Prefixed(objects, DecodeItems(env, classes, v, i, ctx))
    {
      var obj := ObjFromPrimitive(env, registry, v.items[i], ctx);
      if obj.Err? {
        DecodeItemsStop(env, classes, v, i, ctx);
        return Err(obj.error);
      }
      DecodeItemsStep(env, classes, v, i, ctx, objects, obj.value.State());
      objects := objects + [VObj(obj.value.State())];
    }
    assert objects + [] == objects;
    r := Ok(VList(objects));
  }

  /** Decoded entities in front of the outcome of the rest. */
  function Prefixed(objects: seq<Value>, rest: Result<Value>): Result<Value>
  {
    match rest
    case Err(e) => Err(e)
    case Ok(w) => Ok(VList(objects + (if w.VList? then w.items else [])))
  }


  /** One more entity decoded. */
  lemma DecodeItemsStep(env: Env, classes: Classes, v: Value, i: nat, ctx: Option<Context>,
                        objects: seq<Value>, o: ObjState)
    requires IsSequence(v) && i < |v.items|
    requires FromPrimitive(env, classes, v.items[i], ctx) == Ok(o)
    ensures Prefixed(objects, DecodeItems(env, classes, v, i, ctx)) ==
      Prefixed(objects + [VObj(o)], DecodeItems(env, classes, v, i + 1, ctx))
  {
    var rest := DecodeItems(env, classes, v, i + 1, ctx);
    if rest.Ok? {
      assert objects + [VObj(o)] + rest.value.items == objects + ([VObj(o)] + rest.value.items);
    }
  }

  /** An entity that cannot be decoded stops the loop with an error. */
  lemma DecodeItemsStop(env: Env, classes: Classes, v: Value, i: nat, ctx: Option<Context>)
    requires IsSequence(v) && i < |v.items|
    requires FromPrimitive(env, classes, v.items[i], ctx).Err?
    ensures DecodeItems(env, classes, v, i, ctx).Err?
  {
  }
}
