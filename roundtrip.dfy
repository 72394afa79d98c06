/** What a primitive decodes to: the fields it carries, the changed names,
    and the round trip `obj_from_primitive(obj_to_primitive(o)) == o` for
    objects whose field values survive their handlers and coercion
    (magnum/objects/base.py:263-291, 327-342, 413-424). */
module RoundTrip {
  import opened Values
  import opened Registry
  import opened Codec

  /** The changes entry of a payload, `[]` when it has none. */
  function ChangesOf(entries: map<string, Value>): Value
  {
    if ChangesKey in entries then entries[ChangesKey] else VList([])
  }

  /** A decoded object holds exactly the fields that are both declared and
      present in the data, and its changed-set is the declared names among
      the payload's changes. */
  lemma DecodeShape(env: Env, classes: Classes, cls: ClassInfo, objver: string,
                    entries: map<string, Value>, ctx: Option<Context>)
    requires DecodeAs(env, classes, cls, objver, entries, ctx).Ok?
    requires entries[DataKey].VDict?
    ensures var o := DecodeAs(env, classes, cls, objver, entries, ctx).value;
      o.slots.Keys == cls.fields.Keys * entries[DataKey].entries.Keys &&
      Some(o.changed) == ChangedNames(ChangesOf(entries), cls.fields.Keys)
  {
    var data := entries[DataKey];
    DecodeSlotsSpec(env, classes, cls, data, ctx);
    var slots := DecodeSlots(env, classes, cls, data, ctx).value;
    forall n | n in cls.fields
      ensures n in slots <==> n in data.entries
    {
      assert DecodeField(env, classes, cls, data, n, ctx).Ok?;
    }
  }

  /** A payload whose data is a scalar (an integer, a boolean, None, or
      any other scalar) cannot be searched with `in`, and is refused. */
  lemma DecodeNeedsData(env: Env, classes: Classes, cls: ClassInfo, objver: string,
                        entries: map<string, Value>, ctx: Option<Context>)
    requires cls.fields != map[]
    requires DataKey in entries &&
      (entries[DataKey].VInt? || entries[DataKey].VNone? || entries[DataKey].VBool? || entries[DataKey].VOther?)
    ensures DecodeAs(env, classes, cls, objver, entries, ctx) == Err(Malformed(DataKey))
  {
    var n :| n in cls.fields;
    DecodeSlotsSpec(env, classes, cls, entries[DataKey], ctx);
    assert DecodeField(env, classes, cls, entries[DataKey], n, ctx).Err?;
  }

  /** A field whose coercion rejects the decoded value makes decoding fail,
      naming the class and the field. */
  lemma DecodeRejectsField(env: Env, classes: Classes, cls: ClassInfo, objver: string,
                           entries: map<string, Value>, ctx: Option<Context>, name: string)
    requires name in cls.fields && !(cls.isList && name == ObjectsField)
    requires DataKey in entries && entries[DataKey].VDict? && name in entries[DataKey].entries
    requires forall n :: n in cls.fields && n != name ==> DecodeField(env, classes, cls, entries[DataKey], n, ctx).Ok?
    requires Coerce(env, cls.fields[name],
      AttrFromPrimitive(env, classes, cls, name, entries[DataKey].entries[name], ctx).value).None?
    ensures DecodeAs(env, classes, cls, objver, entries, ctx) == Err(CoercionFailed(cls.name + "." + name))
  {
    var data := entries[DataKey];
    DecodeSlotsSpec(env, classes, cls, data, ctx);
    assert DecodeField(env, classes, cls, data, name, ctx) == Err(CoercionFailed(cls.name + "." + name));
  }

  /** An object that survives its own encoding: its set fields are declared,
      it carries the decoding context, its class is what its name and
      VERSION resolve to, each plain field value is a fixed point of the
      handlers and the coercion, and each item of a list object is such an
      object itself. */
  ghost predicate Canonical(env: Env, classes: Classes, o: ObjState, ctx: Option<Context>)
    decreases o, 1
  {
    o.slots.Keys <= o.cls.fields.Keys && o.changed <= o.cls.fields.Keys &&
    o.context == ctx &&
    Resolve(classes, o.cls.name, o.version) == Ok(o.cls) &&
    forall n :: n in o.slots ==> CanonicalSlot(env, classes, o, n, ctx)
  }

  ghost predicate CanonicalSlot(env: Env, classes: Classes, o: ObjState, n: string, ctx: Option<Context>)
    requires n in o.slots
    decreases o, 0
  {
    n in o.cls.fields &&
    if o.cls.isList && n == ObjectsField then
      o.cls.fields[n] == ListType && o.slots[n].VList? &&
      forall k :: 0 <= k < |o.slots[n].items| ==>
        o.slots[n].items[k].VObj? && Canonical(env, classes, o.slots[n].items[k].obj, ctx)
    else
      var v := o.slots[n];
      Coerce(env, o.cls.fields[n], if n in o.cls.hooked then env.fromPrim(n, env.toPrim(n, v)) else v) == Some(v)
  }

  /** The primitives of a list of objects. */
  ghost function Encoded(env: Env, items: seq<Value>): (r: seq<Value>)
    requires forall k :: 0 <= k < |items| ==> items[k].VObj? && ToPrimitive(env, items[k].obj).Ok?
    ensures |r| == |items|
    ensures forall k :: 0 <= k < |items| ==> r[k] == ToPrimitive(env, items[k].obj).value
  {
    seq(|items|, k requires 0 <= k < |items| => ToPrimitive(env, items[k].obj).value)
  }

  /** One item of the list in front of the primitives of the rest. */
  lemma EncodeItemsStep(env: Env, v: Value, i: nat, p: Value, ps: seq<Value>)
    requires IsSequence(v) && i < |v.items| && v.items[i].VObj?
    requires ToPrimitive(env, v.items[i].obj) == Ok(p) && EncodeItems(env, v, i + 1) == Ok(ps)
    ensures EncodeItems(env, v, i) == Ok([p] + ps)
  {
    assert v.items[i] == VObj(v.items[i].obj);
  }

  /** The objects handler encodes every item of the list, from `i` on. */
  lemma {:induction false} EncodeItemsAll(env: Env, v: Value, enc: seq<Value>, i: nat)
    requires IsSequence(v) && |enc| == |v.items| && i <= |v.items|
    requires forall k :: 0 <= k < |v.items| ==> v.items[k].VObj? && ToPrimitive(env, v.items[k].obj) == Ok(enc[k])
    ensures EncodeItems(env, v, i) == Ok(enc[i..])
    decreases |v.items| - i
  {
    if i < |v.items| {
      assert enc[i..] == [enc[i]] + enc[i + 1..];
      assert ToPrimitive(env, v.items[i].obj) == Ok(enc[i]);
      EncodeItemsAll(env, v, enc, i + 1);
      EncodeItemsStep(env, v, i, enc[i], enc[i + 1..]);
    } else {
      assert enc[i..] == [];
    }
  }

  /** One more entity decoded in front of the rest. */
  lemma DecodeItemsOk(env: Env, classes: Classes, w: Value, i: nat, ctx: Option<Context>, c: ObjState, rest: seq<Value>)
    requires w.VList? && i < |w.items|
    requires FromPrimitive(env, classes, w.items[i], ctx) == Ok(c)
    requires DecodeItems(env, classes, w, i + 1, ctx) == Ok(VList(rest))
    ensures DecodeItems(env, classes, w, i, ctx) == Ok(VList([VObj(c)] + rest))
  {
  }

  lemma ItemsSplit(items: seq<Value>, i: nat)
    requires i < |items| && items[i].VObj?
    ensures [VObj(items[i].obj)] + items[i + 1..] == items[i..]
  {
  }

  /** The primitives of the items of a list object decode, from position
      `i` on, to the items themselves. */
  lemma {:induction false} DecodeItemsAll(env: Env, classes: Classes, o: ObjState, ctx: Option<Context>,
                                          enc: seq<Value>, i: nat)
    requires o.cls.isList && ObjectsField in o.slots && o.slots[ObjectsField].VList?
    requires var items := o.slots[ObjectsField].items;
      (forall k :: 0 <= k < |items| ==> items[k].VObj? && Canonical(env, classes, items[k].obj, ctx)) &&
      (forall k :: 0 <= k < |items| ==> ToPrimitive(env, items[k].obj).Ok?) &&
      enc == Encoded(env, items) && i <= |items|
    ensures DecodeItems(env, classes, VList(enc), i, ctx) == Ok(VList(o.slots[ObjectsField].items[i..]))
    decreases o, 0, |enc| - i
  {
    var items := o.slots[ObjectsField].items;
    if i < |items| {
      var c := items[i].obj;
      ObjectRoundTrip(env, classes, c, ctx);
      DecodeItemsAll(env, classes, o, ctx, enc, i + 1);
      DecodeItemsOk(env, classes, VList(enc), i, ctx, c, items[i + 1..]);
      ItemsSplit(items, i);
    } else {
      assert items[i..] == [];
    }
  }

  /** A payload in the `magnum` namespace with a string name and version
      is decoded by the class they resolve to. */
  lemma DecodeByClass(env: Env, classes: Classes, e: map<string, Value>, ctx: Option<Context>, cls: ClassInfo)
    requires NamespaceKey in e && e[NamespaceKey] == VStr(Namespace)
    requires NameKey in e && e[NameKey].VStr? && VersionKey in e && e[VersionKey].VStr?
    requires Resolve(classes, e[NameKey].s, e[VersionKey].s) == Ok(cls)
    ensures FromPrimitive(env, classes, VDict(e), ctx) == DecodeAs(env, classes, cls, e[VersionKey].s, e, ctx)
  {
  }

  /** `_obj_from_primitive` once its field loop and its changes have
      succeeded. */
  lemma DecodeAsOf(env: Env, classes: Classes, cls: ClassInfo, objver: string, e: map<string, Value>,
                   ctx: Option<Context>, slots: map<string, Value>, changed: set<string>)
    requires DataKey in e && DecodeSlots(env, classes, cls, e[DataKey], ctx) == Ok(slots)
    requires ChangedNames(ChangesOf(e), cls.fields.Keys) == Some(changed)
    ensures DecodeAs(env, classes, cls, objver, e, ctx) == Ok(ObjState(cls, objver, ctx, slots, changed))
  {
  }

  /** The field loop fills exactly the slots every field's turn yields. */
  lemma DecodeSlotsOf(env: Env, classes: Classes, cls: ClassInfo, data: Value, ctx: Option<Context>,
                      slots: map<string, Value>)
    requires slots.Keys <= cls.fields.Keys
    requires forall n :: n in cls.fields ==>
      DecodeField(env, classes, cls, data, n, ctx) == if n in slots then Ok(Some(slots[n])) else Ok(None)
    ensures DecodeSlots(env, classes, cls, data, ctx) == Ok(slots)
  {
    DecodeSlotsSpec(env, classes, cls, data, ctx);
    var r := DecodeSlots(env, classes, cls, data, ctx);
    assert r.Ok?;
    assert r.value == slots;
  }

  /** The changes entry of a primitive decodes to the changed-set. */
  lemma ChangesRoundTrip(o: ObjState, e: map<string, Value>)
    requires o.changed <= o.cls.fields.Keys
    requires o.changed == {} ==> ChangesKey !in e
    requires o.changed != {} ==> ChangesKey in e && e[ChangesKey] == ChangesList(o.changed)
    ensures ChangedNames(ChangesOf(e), o.cls.fields.Keys) == Some(o.changed)
  {
    if o.changed != {} {
      var names := ChangedNames(ChangesOf(e), o.cls.fields.Keys).value;
      assert names == o.changed;
    } else {
      assert ChangesOf(e) == VList([]);
      var r := ChangedNames(VList([]), o.cls.fields.Keys);
      assert r.Some?;
      forall n ensures n !in r.value {
        assert VStr(n) !in [];
      }
      assert r.value == {};
    }
  }

  /** Round trip: decoding an object's primitive in its own context gives
      the object back. */
  lemma {:induction false} ObjectRoundTrip(env: Env, classes: Classes, o: ObjState, ctx: Option<Context>)
    requires Canonical(env, classes, o, ctx)
    ensures ToPrimitive(env, o).Ok?
    ensures FromPrimitive(env, classes, ToPrimitive(env, o).value, ctx) == Ok(o)
    decreases o, 4
  {
    SlotsRoundTrip(env, classes, o, ctx);
    EncodeShape(env, o);
    var e := Payload(env, o);
    DecodeByClass(env, classes, e, ctx, o.cls);
    ChangesRoundTrip(o, e);
    DecodeAsOf(env, classes, o.cls, o.version, e, ctx, o.slots, o.changed);
  }

  /** The items of a list object encode, and decode back to themselves. */
  lemma {:induction false} ObjectsRoundTrip(env: Env, classes: Classes, o: ObjState, ctx: Option<Context>)
    requires Canonical(env, classes, o, ctx)
    requires o.cls.isList && ObjectsField in SetFields(o)
    ensures AttrToPrimitive(env, o, ObjectsField).Ok?
    ensures AttrFromPrimitive(env, classes, o.cls, ObjectsField, AttrToPrimitive(env, o, ObjectsField).value, ctx) ==
      Ok(o.slots[ObjectsField])
    decreases o, 1
  {
    ListItemsCanonical(env, classes, o, ctx);
    var v := o.slots[ObjectsField];
    var items := v.items;
    forall k | 0 <= k < |items|
      ensures ToPrimitive(env, items[k].obj).Ok?
    {
      ObjectRoundTrip(env, classes, items[k].obj, ctx);
    }
    var enc := Encoded(env, items);
    ObjectsEncoded(env, o, enc);
    DecodeItemsAll(env, classes, o, ctx, enc, 0);
    ObjectsDecoded(env, classes, o, ctx, enc);
  }

  /** The objects handler's primitive is the list of the items' primitives. */
  lemma ObjectsEncoded(env: Env, o: ObjState, enc: seq<Value>)
    requires o.cls.isList && ObjectsField in SetFields(o) && o.slots[ObjectsField].VList?
    requires var items := o.slots[ObjectsField].items;
      (forall k :: 0 <= k < |items| ==> items[k].VObj? && ToPrimitive(env, items[k].obj).Ok?) &&
      enc == Encoded(env, items)
    ensures AttrToPrimitive(env, o, ObjectsField) == Ok(VList(enc))
  {
    var v := o.slots[ObjectsField];
    EncodeItemsAll(env, v, enc, 0);
    assert enc[0..] == enc;
  }

  /** The objects handler decodes a list of primitives item by item. */
  lemma ObjectsDecoded(env: Env, classes: Classes, o: ObjState, ctx: Option<Context>, enc: seq<Value>)
    requires o.cls.isList && ObjectsField in SetFields(o) && o.slots[ObjectsField].VList?
    requires AttrToPrimitive(env, o, ObjectsField) == Ok(VList(enc))
    requires DecodeItems(env, classes, VList(enc), 0, ctx) == Ok(VList(o.slots[ObjectsField].items[0..]))
    ensures AttrFromPrimitive(env, classes, o.cls, ObjectsField, AttrToPrimitive(env, o, ObjectsField).value, ctx) ==
      Ok(o.slots[ObjectsField])
  {
    assert o.slots[ObjectsField].items[0..] == o.slots[ObjectsField].items;
  }

  /** Every declared field decodes to the slot it came from. */
  lemma {:induction false} SlotsRoundTrip(env: Env, classes: Classes, o: ObjState, ctx: Option<Context>)
    requires Canonical(env, classes, o, ctx)
    ensures !ObjectsFail(env, o)
    ensures DecodeSlots(env, classes, o.cls, VDict(EncodeData(env, o)), ctx) == Ok(o.slots)
    decreases o, 3
  {
    if o.cls.isList && ObjectsField in SetFields(o) {
      ObjectsRoundTrip(env, classes, o, ctx);
    }
    var data := EncodeData(env, o);
    forall n | n in o.cls.fields
      ensures DecodeField(env, classes, o.cls, VDict(data), n, ctx) ==
        (if n in o.slots then Ok(Some(o.slots[n])) else Ok(None))
    {
      if n in o.slots {
        FieldRoundTrip(env, classes, o, ctx, n);
      }
    }
    DecodeSlotsOf(env, classes, o.cls, VDict(data), ctx, o.slots);
  }

  /** One set field decodes to its slot. */
  lemma {:induction false} FieldRoundTrip(env: Env, classes: Classes, o: ObjState, ctx: Option<Context>, n: string)
    requires Canonical(env, classes, o, ctx) && !ObjectsFail(env, o)
    requires n in o.slots
    ensures n in o.cls.fields
    ensures DecodeField(env, classes, o.cls, VDict(EncodeData(env, o)), n, ctx) == Ok(Some(o.slots[n]))
    decreases o, 2
  {
    assert CanonicalSlot(env, classes, o, n, ctx);
    if o.cls.isList && n == ObjectsField {
      ObjectsRoundTrip(env, classes, o, ctx);
      FieldOfObjects(env, classes, o, ctx);
    } else {
      EncodeFieldValue(env, o, n);
      FieldOfPlain(env, classes, o, ctx, n);
    }
  }

  /** The `objects` field of a list object, once its handlers round-trip. */
  lemma FieldOfObjects(env: Env, classes: Classes, o: ObjState, ctx: Option<Context>)
    requires !ObjectsFail(env, o) && o.cls.isList && ObjectsField in SetFields(o)
    requires o.cls.fields[ObjectsField] == ListType
    requires AttrToPrimitive(env, o, ObjectsField).Ok?
    requires AttrFromPrimitive(env, classes, o.cls, ObjectsField, AttrToPrimitive(env, o, ObjectsField).value, ctx) ==
      Ok(o.slots[ObjectsField])
    requires o.slots[ObjectsField].VList?
    ensures DecodeField(env, classes, o.cls, VDict(EncodeData(env, o)), ObjectsField, ctx) == Ok(Some(o.slots[ObjectsField]))
  {
    var data := EncodeData(env, o);
    assert data[ObjectsField] == AttrToPrimitive(env, o, ObjectsField).value;
  }

  /** A plain field whose value is a fixed point of its handlers and its
      coercion. */
  lemma FieldOfPlain(env: Env, classes: Classes, o: ObjState, ctx: Option<Context>, n: string)
    requires !ObjectsFail(env, o) && n in SetFields(o) && !(o.cls.isList && n == ObjectsField)
    requires EncodeData(env, o)[n] == if n in o.cls.hooked then env.toPrim(n, o.slots[n]) else o.slots[n]
    requires Coerce(env, o.cls.fields[n], if n in o.cls.hooked then env.fromPrim(n, env.toPrim(n, o.slots[n])) else o.slots[n]) == Some(o.slots[n])
    ensures DecodeField(env, classes, o.cls, VDict(EncodeData(env, o)), n, ctx) == Ok(Some(o.slots[n]))
  {
  }

  /** The items of a canonical list object are canonical objects. */
  lemma ListItemsCanonical(env: Env, classes: Classes, o: ObjState, ctx: Option<Context>)
    requires Canonical(env, classes, o, ctx)
    requires o.cls.isList && ObjectsField in SetFields(o)
    ensures o.slots[ObjectsField].VList?
    ensures var items := o.slots[ObjectsField].items;
      forall k :: 0 <= k < |items| ==> items[k].VObj? && Canonical(env, classes, items[k].obj, ctx)
  {
    assert CanonicalSlot(env, classes, o, ObjectsField, ctx);
  }
}
