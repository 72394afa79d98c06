/** The wire form of an object: `obj_to_primitive` and `obj_from_primitive`
    with the attribute dispatchers and the ObjectListBase handlers
    (magnum/objects/base.py:251-291, 314-342, 406-424), stated as functions
    of object states. */
module Codec {
  import opened Values
  import opened Registry
  import opened Versions

  /* ---------------------------------------------------------------- */
  /* Encoding                                                         */
  /* ---------------------------------------------------------------- */

  /** `_attr_to_primitive(name)` for a field whose slot is set: the list
      handler for `objects`, a per-attribute handler, or the value itself. */
  ghost function AttrToPrimitive(env: Env, o: ObjState, name: string): (r: Result<Value>)
    requires name in o.slots
    ensures !(o.cls.isList && name == ObjectsField) ==> r.Ok?
    decreases o, 0
  {
    if o.cls.isList && name == ObjectsField then
      match EncodeObjects(env, o.slots[name])
      case Ok(ps) => Ok(VList(ps))
      case Err(e) => Err(e)
    else if name in o.cls.hooked then Ok(env.toPrim(name, o.slots[name]))
    else Ok(o.slots[name])
  }

  /** `[x.obj_to_primitive() for x in self.objects]`: every item must be an
      object. A string or dictionary iterates over strings, which have no
      `obj_to_primitive`; anything else is not iterable. */
  ghost function EncodeObjects(env: Env, v: Value): (r: Result<seq<Value>>)
    ensures IsSequence(v) && r.Ok? ==> |r.value| == |v.items|
    decreases v, 1
  {
    match v
    case VList(items) => EncodeItems(env, v, 0)
    case VTuple(items) => EncodeItems(env, v, 0)
    case VSet(items) => EncodeItems(env, v, 0)
    case VStr(s) => if s == "" then Ok([]) else Err(NotAnObject)
    case VDict(m) => if m == map[] then Ok([]) else Err(NotAnObject)
    case _ => Err(Malformed(ObjectsField))
  }

  /** The items of the list from position `i` on. */
  ghost function EncodeItems(env: Env, v: Value, i: nat): (r: Result<seq<Value>>)
    requires IsSequence(v)
    ensures i <= |v.items| && r.Ok? ==> |r.value| == |v.items| - i
    decreases v, 0, if i <= |v.items| then |v.items| - i else 0
  {
    if i >= |v.items| then Ok([])
    else match v.items[i]
      case VObj(c) =>
        (match ToPrimitive(env, c)
         case Err(e) => Err(e)
         case Ok(p) =>
           match EncodeItems(env, v, i + 1)
           case Err(e) => Err(e)
           case Ok(ps) => Ok([p] + ps))
      case _ => Err(NotAnObject)
  }

  /** The names of the fields whose slots are set. */
  function SetFields(o: ObjState): set<string>
  {
    o.cls.fields.Keys * o.slots.Keys
  }

  /** `list(self.obj_what_changed())`: the changed names as strings, in the
      set's iteration order. */
  ghost function ChangesList(changed: set<string>): (r: Value)
    ensures r.VList?
    ensures forall x :: x in r.items ==> x.VStr?
    ensures forall n :: VStr(n) in r.items <==> n in changed
  {
    var names := Enumerate(changed);
    var items := StrValues(names);
    forall x | x in items ensures x.VStr? && x.s in changed {
      var k :| 0 <= k < |items| && items[k] == x;
      assert names[k] in changed;
    }
    forall n | n in changed ensures VStr(n) in items {
      var k :| 0 <= k < |names| && names[k] == n;
      assert items[k] == VStr(n);
    }
    VList(items)
  }

  /** The header entries of an object's primitive. */
  function Header(o: ObjState, data: Value): map<string, Value>
  {
    map[NameKey := VStr(o.cls.name), NamespaceKey := VStr(Namespace),
        VersionKey := VStr(o.version), DataKey := data]
  }

  /** The items of a list object that cannot all be encoded. */
  ghost predicate ObjectsFail(env: Env, o: ObjState)
    decreases o, 1
  {
    o.cls.isList && ObjectsField in SetFields(o) && AttrToPrimitive(env, o, ObjectsField).Err?
  }

  /** The data entry: every set field through `_attr_to_primitive`. */
  ghost function EncodeData(env: Env, o: ObjState): (r: map<string, Value>)
    requires !ObjectsFail(env, o)
    ensures r.Keys == SetFields(o)
    decreases o, 2
  {
    map n | n in SetFields(o) :: AttrToPrimitive(env, o, n).value
  }

  /** The entries of an object's primitive: the header, the data of every
      set field, and the changed names when there are any. */
  ghost function Payload(env: Env, o: ObjState): map<string, Value>
    requires !ObjectsFail(env, o)
    decreases o, 3
  {
    var header := Header(o, VDict(EncodeData(env, o)));
    if o.changed == {} then header else header[ChangesKey := ChangesList(o.changed)]
  }

  /** `obj_to_primitive()`. The only way it can fail is through the items
      of a list object. */
  ghost function ToPrimitive(env: Env, o: ObjState): Result<Value>
    decreases o, 4
  {
    if ObjectsFail(env, o) then Err(AttrToPrimitive(env, o, ObjectsField).error)
    else Ok(VDict(Payload(env, o)))
  }

  /** The entries of a primitive: name, namespace `magnum`, VERSION, the
      data mapping, and the changed names when there are any. */
  lemma EncodeShape(env: Env, o: ObjState)
    requires !ObjectsFail(env, o)
    ensures ToPrimitive(env, o) == Ok(VDict(Payload(env, o)))
    ensures var e := Payload(env, o);
      NameKey in e && NamespaceKey in e && VersionKey in e && DataKey in e &&
      e[NameKey] == VStr(o.cls.name) && e[NamespaceKey] == VStr(Namespace) &&
      e[VersionKey] == VStr(o.version) && e[DataKey] == VDict(EncodeData(env, o)) &&
      (ChangesKey in e <==> o.changed != {}) &&
      (o.changed != {} ==> e[ChangesKey] == ChangesList(o.changed))
  {
    PayloadKeysDistinct();
  }

  /** A primitive has no entries beyond the header and the changes. */
  lemma EncodeKeys(env: Env, o: ObjState)
    requires !ObjectsFail(env, o)
    ensures Payload(env, o).Keys <= {NameKey, NamespaceKey, VersionKey, DataKey, ChangesKey}
  {
  }

  /** Fields whose values have no handler go on the wire as they are; hooked
      ones through their handler. */
  lemma EncodeFieldValue(env: Env, o: ObjState, name: string)
    requires !ObjectsFail(env, o) && name in SetFields(o) && !(o.cls.isList && name == ObjectsField)
    ensures EncodeData(env, o)[name] ==
      if name in o.cls.hooked then env.toPrim(name, o.slots[name]) else o.slots[name]
  {
  }

  /* ---------------------------------------------------------------- */
  /* Decoding                                                         */
  /* ---------------------------------------------------------------- */

  /** `needle` occurs in `s` as a contiguous piece (Python's `in` on str). */
  predicate IsSubstring(needle: string, s: string)
  {
    exists k {:trigger s[k..]} :: 0 <= k <= |s| - |needle| && s[k..k + |needle|] == needle
  }

  /** Unhashable values: putting one in a set or looking it up in a
      dictionary raises TypeError. A tuple is hashed through its items. */
  predicate Unhashable(v: Value)
    decreases v
  {
    v.VList? || v.VSet? || v.VDict? || (v.VTuple? && exists x :: x in v.items && Unhashable(x))
  }

  /** `set([x for x in changes if x in self.fields])`: the changed names of
      a payload; None where iterating or hashing raises. */
  function ChangedNames(changes: Value, fields: set<string>): (r: Option<set<string>>)
    ensures r.Some? ==> r.value <= fields
    ensures IsSequence(changes) ==>
      (r.Some? <==> forall x :: x in changes.items ==> !Unhashable(x))
    ensures IsSequence(changes) && r.Some? ==>
      forall n :: n in r.value <==> n in fields && VStr(n) in changes.items
  {
    match changes
    case VList(items) => ChangedOfItems(items, fields)
    case VTuple(items) => ChangedOfItems(items, fields)
    case VSet(items) => ChangedOfItems(items, fields)
    case VStr(s) => Some(set k | 0 <= k < |s| && [s[k]] in fields :: [s[k]])
    case VDict(m) => Some(m.Keys * fields)
    case _ => None
  }

  function ChangedOfItems(items: seq<Value>, fields: set<string>): Option<set<string>>
  {
    if exists x :: x in items && Unhashable(x) then None
    else Some(set x | x in items && x.VStr? && x.s in fields :: x.s)
  }

  /** `self._attr_from_primitive(name, value)` for a class being decoded
      with context `ctx`. */
  ghost function AttrFromPrimitive(env: Env, classes: Classes, cls: ClassInfo, name: string,
                                   v: Value, ctx: Option<Context>): (r: Result<Value>)
    ensures !(cls.isList && name == ObjectsField) ==> r.Ok?
    decreases v, 2
  {
    if cls.isList && name == ObjectsField then DecodeEntities(env, classes, v, ctx)
    else if name in cls.hooked then Ok(env.fromPrim(name, v))
    else Ok(v)
  }

  /** `_attr_objects_from_primitive`: every entity is decoded with the list
      object's own context. Strings and dictionary keys are entities that
      have no namespace entry; anything else is not iterable. */
  ghost function DecodeEntities(env: Env, classes: Classes, v: Value,
                                ctx: Option<Context>): (r: Result<Value>)
    ensures r.Ok? ==> r.value.VList?
    ensures IsSequence(v) && r.Ok? ==> |r.value.items| == |v.items|
    decreases v, 1
  {
    match v
    case VStr(s) => if s == "" then Ok(VList([])) else Err(Malformed(NamespaceKey))
    case VDict(m) => if m == map[] then Ok(VList([])) else Err(Malformed(NamespaceKey))
    case VList(items) => DecodeItems(env, classes, v, 0, ctx)
    case VTuple(items) => DecodeItems(env, classes, v, 0, ctx)
    case VSet(items) => DecodeItems(env, classes, v, 0, ctx)
    case _ => Err(Malformed(ObjectsField))
  }

  /** The entities of the list from position `i` on, in order. */
  ghost function DecodeItems(env: Env, classes: Classes, v: Value, i: nat,
                             ctx: Option<Context>): (r: Result<Value>)
    requires IsSequence(v)
    ensures r.Ok? ==> r.value.VList?
    ensures i <= |v.items| && r.Ok? ==> |r.value.items| == |v.items| - i
    decreases v, 0, if i <= |v.items| then |v.items| - i else 0
  {
    if i >= |v.items| then Ok(VList([]))
    else match FromPrimitive(env, classes, v.items[i], ctx)
      case Err(e) => Err(e)
      case Ok(o) =>
        match DecodeItems(env, classes, v, i + 1, ctx)
        case Err(e) => Err(e)
        case Ok(rest) => Ok(VList([VObj(o)] + rest.items))
  }

  /** One turn of the field loop of `_obj_from_primitive`: `name in objdata`,
      then the dispatcher and the setter's coercion. None when the data
      does not hold the name. */
  ghost function DecodeField(env: Env, classes: Classes, cls: ClassInfo, data: Value,
                             name: string, ctx: Option<Context>): (r: Result<Option<Value>>)
    requires name in cls.fields
    ensures data.VDict? ==> (r == Ok(None) <==> name !in data.entries)
    decreases data, 3, 0
  {
    match data
    case VDict(d) =>
      if name !in d then Ok(None)
      else
        (match AttrFromPrimitive(env, classes, cls, name, d[name], ctx)
         case Err(e) => Err(e)
         case Ok(v) =>
           match Coerce(env, cls.fields[name], v)
           case None => Err(CoercionFailed(cls.name + "." + name))
           case Some(c) => Ok(Some(c)))
    case VList(items) => if VStr(name) in items then Err(Malformed(DataKey)) else Ok(None)
    case VTuple(items) => if VStr(name) in items then Err(Malformed(DataKey)) else Ok(None)
    case VSet(items) => if VStr(name) in items then Err(Malformed(DataKey)) else Ok(None)
    case VStr(s) => if IsSubstring(name, s) then Err(Malformed(DataKey)) else Ok(None)
    case _ => Err(Malformed(DataKey))
  }

  /** The outcome of every declared field's turn of the field loop. */
  ghost function Turns(env: Env, classes: Classes, cls: ClassInfo, data: Value,
                       ctx: Option<Context>): (r: map<string, Result<Option<Value>>>)
    ensures r.Keys == cls.fields.Keys
    decreases data, 3, 1
  {
    map n | n in cls.fields :: DecodeField(env, classes, cls, data, n, ctx)
  }

  /** The slots a field loop with these turns fills. Fields are visited in
      dictionary order, which the model leaves open: when some field fails,
      the error is that of one failing field. */
  ghost function SlotsOf(turns: map<string, Result<Option<Value>>>): Result<map<string, Value>>
  {
    if exists n :: n in turns && turns[n].Err? then
      var n :| n in turns && turns[n].Err?;
      Err(turns[n].error)
    else
      Ok(map n | n in turns && turns[n].value.Some? :: turns[n].value.value)
  }

  /** The slots the field loop fills. */
  ghost function DecodeSlots(env: Env, classes: Classes, cls: ClassInfo, data: Value,
                             ctx: Option<Context>): Result<map<string, Value>>
    decreases data, 3, 2
  {
    SlotsOf(Turns(env, classes, cls, data, ctx))
  }

  /** A field loop succeeds exactly when every turn does, fails with the
      error of a failing turn otherwise, and fills exactly the slots whose
      turn yields a value. */
  lemma SlotsOfSpec(turns: map<string, Result<Option<Value>>>)
    ensures var r := SlotsOf(turns);
      (r.Ok? <==> forall n :: n in turns ==> turns[n].Ok?) &&
      (r.Err? ==> exists n :: n in turns && turns[n] == Err(r.error)) &&
      (r.Ok? ==> r.value.Keys == set n | n in turns && turns[n].value.Some?) &&
      (r.Ok? ==> forall n :: n in r.value ==> turns[n] == Ok(Some(r.value[n])))
  {
  }

  /** The field loop succeeds exactly when every field's turn does, fails
      with the error of a failing field otherwise, and fills the slots of
      exactly the fields whose turn yields a value. */
  lemma DecodeSlotsSpec(env: Env, classes: Classes, cls: ClassInfo, data: Value, ctx: Option<Context>)
    ensures var r := DecodeSlots(env, classes, cls, data, ctx);
      (r.Ok? <==> forall n :: n in cls.fields ==> DecodeField(env, classes, cls, data, n, ctx).Ok?) &&
      (r.Err? ==> exists n :: n in cls.fields && DecodeField(env, classes, cls, data, n, ctx) == Err(r.error)) &&
      (r.Ok? ==> forall n :: n in r.value <==>
         n in cls.fields && DecodeField(env, classes, cls, data, n, ctx).value.Some?) &&
      (r.Ok? ==> forall n :: n in r.value ==> DecodeField(env, classes, cls, data, n, ctx) == Ok(Some(r.value[n])))
  {
    SlotsOfSpec(Turns(env, classes, cls, data, ctx));
  }

  /** `cls._obj_from_primitive(context, objver, primitive)` on a dictionary
      payload. */
  ghost function DecodeAs(env: Env, classes: Classes, cls: ClassInfo, objver: string,
                          entries: map<string, Value>, ctx: Option<Context>): (r: Result<ObjState>)
    ensures r.Ok? ==> r.value.cls == cls && r.value.version == objver && r.value.context == ctx
    ensures r.Ok? ==> r.value.slots.Keys <= cls.fields.Keys && r.value.changed <= cls.fields.Keys
    ensures DataKey !in entries ==> r == Err(Malformed(DataKey))
    decreases VDict(entries), 4
  {
    if DataKey !in entries then Err(Malformed(DataKey))
    else
      var data := entries[DataKey];
      match DecodeSlots(env, classes, cls, data, ctx)
      case Err(e) => Err(e)
      case Ok(slots) =>
        var changes := if ChangesKey in entries then entries[ChangesKey] else VList([]);
        match ChangedNames(changes, cls.fields.Keys)
        case None => Err(Malformed(ChangesKey))
        case Some(changed) => Ok(ObjState(cls, objver, ctx, slots, changed))
  }

  /** The header half of `obj_from_primitive`: the namespace must be
      `magnum`, and the name and version pick the class that decodes the
      payload. */
  function Route(classes: Classes, prim: Value): (r: Result<(ClassInfo, string)>)
    ensures r.Ok? ==> prim.VDict? && VersionKey in prim.entries && prim.entries[VersionKey] == VStr(r.value.1)
  {
    match prim
    case VDict(m) =>
      if NamespaceKey !in m then Err(Malformed(NamespaceKey))
      else if m[NamespaceKey] != VStr(Namespace) then
        if NameKey !in m then Err(Malformed(NameKey))
        else Err(UnsupportedNamespace(m[NamespaceKey], m[NameKey]))
      else if NameKey !in m then Err(Malformed(NameKey))
      else if VersionKey !in m then Err(Malformed(VersionKey))
      else if Unhashable(m[NameKey]) then Err(Malformed(NameKey))
      else if !m[NameKey].VStr? || m[NameKey].s !in classes then Err(UnsupportedObject(m[NameKey]))
      else if !m[VersionKey].VStr? then ResolveOddVersion(classes, m[NameKey].s)
      else
        var objname := m[NameKey].s;
        var objver := m[VersionKey].s;
        (match Resolve(classes, objname, objver)
         case Err(e) => Err(e)
         case Ok(cls) => Ok((cls, objver)))
    case _ => Err(Malformed(NamespaceKey))
  }

  /** `obj_class_from_name` for a registered name and a version that is not
      a string: no class VERSION equals it, so the loop's first turn parses
      that class's VERSION and then calls `is_compatible`, which cannot
      split the version and raises. No class is ever returned. */
  function ResolveOddVersion(classes: Classes, objname: string): (r: Result<(ClassInfo, string)>)
    requires objname in classes
    ensures r.Err?
    ensures classes[objname] != [] && VersionBits(classes[objname][0].version).Some? ==>
      r == Err(Malformed(VersionKey))
  {
    var cs := classes[objname];
    if cs == [] then Err(NoVersionToReport)
    else if VersionBits(cs[0].version).None? then Err(MalformedClassVersion(cs[0].version))
    else Err(Malformed(VersionKey))
  }

  /** `MagnumObject.obj_from_primitive(primitive, context)`. */
  ghost function FromPrimitive(env: Env, classes: Classes, prim: Value, ctx: Option<Context>): (r: Result<ObjState>)
    decreases prim, 5
  {
    match Route(classes, prim)
    case Err(e) => Err(e)
    case Ok((cls, objver)) => DecodeAs(env, classes, cls, objver, prim.entries, ctx)
  }

  /** A decoded object is of the class its name and version resolve to,
      carries the payload's version (not the class's) and the context it
      was decoded in. */
  lemma DecodeHeader(env: Env, classes: Classes, prim: Value, ctx: Option<Context>)
    requires FromPrimitive(env, classes, prim, ctx).Ok?
    ensures var o := FromPrimitive(env, classes, prim, ctx).value;
      prim.VDict? && NameKey in prim.entries && VersionKey in prim.entries &&
      prim.entries[NameKey].VStr? && prim.entries[VersionKey] == VStr(o.version) &&
      Resolve(classes, prim.entries[NameKey].s, o.version) == Ok(o.cls) &&
      o.context == ctx && o.slots.Keys <= o.cls.fields.Keys && o.changed <= o.cls.fields.Keys
  {
  }

  /** A payload from another namespace is refused, naming its namespace and
      object name. */
  lemma DecodeForeignNamespace(env: Env, classes: Classes, prim: Value, ctx: Option<Context>)
    requires prim.VDict? && NamespaceKey in prim.entries && prim.entries[NamespaceKey] != VStr(Namespace)
    ensures FromPrimitive(env, classes, prim, ctx) ==
      if NameKey in prim.entries then Err(UnsupportedNamespace(prim.entries[NamespaceKey], prim.entries[NameKey]))
      else Err(Malformed(NameKey))
  {
  }

  /** A hashable name that no class is registered under is refused with
      UnsupportedObjectError before the version is looked at, whether or
      not the name and the version are strings. */
  lemma DecodeUnregisteredName(env: Env, classes: Classes, prim: Value, ctx: Option<Context>)
    requires prim.VDict? && NamespaceKey in prim.entries && prim.entries[NamespaceKey] == VStr(Namespace)
    requires NameKey in prim.entries && VersionKey in prim.entries
    requires !Unhashable(prim.entries[NameKey])
    requires !(prim.entries[NameKey].VStr? && prim.entries[NameKey].s in classes)
    ensures FromPrimitive(env, classes, prim, ctx) == Err(UnsupportedObject(prim.entries[NameKey]))
  {
  }

  /** A name that cannot be hashed makes the registry lookup raise. */
  lemma DecodeUnhashableName(env: Env, classes: Classes, prim: Value, ctx: Option<Context>)
    requires prim.VDict? && NamespaceKey in prim.entries && prim.entries[NamespaceKey] == VStr(Namespace)
    requires NameKey in prim.entries && VersionKey in prim.entries
    requires Unhashable(prim.entries[NameKey])
    ensures FromPrimitive(env, classes, prim, ctx) == Err(Malformed(NameKey))
  {
  }

  /** A registered name with a version that is not a string never decodes;
      when the first class's VERSION parses, the compatibility check is
      what refuses it. */
  lemma DecodeOddVersion(env: Env, classes: Classes, prim: Value, ctx: Option<Context>)
    requires prim.VDict? && NamespaceKey in prim.entries && prim.entries[NamespaceKey] == VStr(Namespace)
    requires NameKey in prim.entries && VersionKey in prim.entries
    requires prim.entries[NameKey].VStr? && prim.entries[NameKey].s in classes
    requires !prim.entries[VersionKey].VStr?
    ensures FromPrimitive(env, classes, prim, ctx).Err?
    ensures var cs := classes[prim.entries[NameKey].s];
      cs != [] && VersionBits(cs[0].version).Some? ==> FromPrimitive(env, classes, prim, ctx) == Err(Malformed(VersionKey))
  {
  }

  /** A tuple is hashed through its items: a change given as a tuple that
      holds a list makes restoring the changed-set raise. */
  lemma NestedUnhashableChange()
    ensures ChangedNames(VList([VTuple([VStr("a"), VList([])])]), {"a"}).None?
  {
    assert Unhashable(VTuple([VStr("a"), VList([])])) by {
      assert VList([]) in VTuple([VStr("a"), VList([])]).items;
    }
  }
}
