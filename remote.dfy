/** The `remotable` and `remotable_classmethod` decorators
    (magnum/objects/base.py:102-142). When the indirection endpoint is
    configured the call goes to it: it answers with a dictionary of updates
    for the calling object, whose keys that are fields are decoded and set
    in some order, and whose `obj_what_changed` entry replaces the
    changed-set. Without an endpoint the method body runs locally. Both the
    endpoint and the method bodies are oracles. */
module Remote {
  import opened Values
  import opened Registry
  import opened Codec
  import opened Objects
  import Hydrate

  /** The indirection endpoint: `object_action(context, obj, method, args)`
      answers (updates, result) or raises; `object_class_action(context,
      objname, method, objver, args)` answers a result or raises. */
  datatype Endpoint = Endpoint(
    objectAction: (Context, ObjState, string, seq<Value>) -> Result<(map<string, Value>, Value)>,
    classAction: (Option<Context>, string, string, string, seq<Value>) -> Result<Value>)

  /** A remotable method's own body run on an object: its result and the
      state it leaves the object in. */
  type MethodBody = (ObjState, Context, string, seq<Value>) -> (Result<Value>, ObjState)

  /** A remotable classmethod's own body. */
  type ClassBody = (ClassInfo, Option<Context>, string, seq<Value>) -> Result<Value>

  const WhatChangedKey := "obj_what_changed"

  /** `set(updates.get('obj_what_changed', []))`, for the names the model
      can hold: a list, tuple or set of strings gives those strings, a
      string its characters, a dictionary its keys. */
  function WhatChangedOf(updates: map<string, Value>): (r: Result<set<string>>)
    ensures WhatChangedKey !in updates ==> r == Ok({})
    ensures WhatChangedKey in updates && IsSequence(updates[WhatChangedKey]) ==>
      var items := updates[WhatChangedKey].items;
      (r.Ok? <==> forall x :: x in items ==> x.VStr?) &&
      (r.Ok? ==> forall n :: n in r.value <==> VStr(n) in items)
    ensures WhatChangedKey in updates && updates[WhatChangedKey].VDict? ==>
      r == Ok(updates[WhatChangedKey].entries.Keys)
    ensures r.Err? ==> r.error == Malformed(WhatChangedKey)
  {
    if WhatChangedKey !in updates then Ok({})
    else
      match updates[WhatChangedKey]
      case VList(items) => NamesOf(items)
      case VTuple(items) => NamesOf(items)
      case VSet(items) => NamesOf(items)
      case VStr(s) => Ok(set k | 0 <= k < |s| :: [s[k]])
      case VDict(m) => Ok(m.Keys)
      case _ => Err(Malformed(WhatChangedKey))
  }

  function NamesOf(items: seq<Value>): (r: Result<set<string>>)
  {
    if forall x :: x in items ==> x.VStr? then Ok(set x | x in items && x.VStr? :: x.s)
    else Err(Malformed(WhatChangedKey))
  }

  /** The value an update carries for field `key` once decoded by the
      object's `_attr_from_primitive`. */
  ghost function Decoded(env: Env, classes: Classes, s: ObjState, updates: map<string, Value>, key: string): Result<Value>
    requires key in updates
  {
    Codec.AttrFromPrimitive(env, classes, s.cls, key, updates[key], s.context)
  }

  /** An update the object accepts: a field, decoded and coerced. */
  ghost predicate Accepts(env: Env, classes: Classes, s: ObjState, updates: map<string, Value>, key: string)
  {
    key in updates && key in s.cls.fields &&
    Decoded(env, classes, s, updates, key).Ok? &&
    Coerce(env, s.cls.fields[key], Decoded(env, classes, s, updates, key).value).Some?
  }

  /** The update keys in `order` that name fields. */
  ghost function Applied(s: ObjState, updates: map<string, Value>, order: seq<string>): set<string>
  {
    set k | k in order && k in updates && k in s.cls.fields
  }

  /** The updates loop visiting the keys in `order`: a key that is not a
      field is skipped; a field's value is decoded with the object's own
      context and handed to the setter; the first failure stops the loop,
      leaving the fields set so far. */
  ghost function ApplyOf(env: Env, classes: Classes, s: ObjState, updates: map<string, Value>,
                         order: seq<string>): (r: (Outcome, ObjState))
    ensures r.1.cls == s.cls && r.1.version == s.version && r.1.context == s.context
    decreases |order|
  {
    if order == [] then (Pass, s)
    else
      var before := ApplyOf(env, classes, s, updates, order[..|order| - 1]);
      var t := before.1;
      var key := order[|order| - 1];
      if before.0.Fail? || key !in updates || key !in t.cls.fields then before
      else
        match Codec.AttrFromPrimitive(env, classes, t.cls, key, updates[key], t.context)
        case Err(e) => (Fail(e), t)
        case Ok(v) => SetField(env, t, key, v)
  }

  /** Update keys that are not fields, and fields the updates do not
      mention, leave their slots as they were, whatever the outcome. */
  lemma ApplyOfUntouched(env: Env, classes: Classes, s: ObjState,
                         updates: map<string, Value>, order: seq<string>)
    ensures var r := ApplyOf(env, classes, s, updates, order).1;
      forall n :: n !in Applied(s, updates, order) ==>
        (n in r.slots <==> n in s.slots) && (n in s.slots ==> r.slots[n] == s.slots[n])
    ensures s.changed <= ApplyOf(env, classes, s, updates, order).1.changed <= s.changed + Applied(s, updates, order)
  {
    ApplyOfSlots(env, classes, s, updates, order);
    ApplyOfChanged(env, classes, s, updates, order);
  }

  lemma {:induction false} ApplyOfSlots(env: Env, classes: Classes, s: ObjState,
                                        updates: map<string, Value>, order: seq<string>)
    ensures var r := ApplyOf(env, classes, s, updates, order).1;
      forall n :: n !in Applied(s, updates, order) ==>
        (n in r.slots <==> n in s.slots) && (n in s.slots ==> r.slots[n] == s.slots[n])
    decreases |order|
  {
    if order != [] {
      var init := order[..|order| - 1];
      ApplyOfSlots(env, classes, s, updates, init);
      AppliedLast(s, updates, order);
    }
  }

  lemma {:induction false} ApplyOfChanged(env: Env, classes: Classes, s: ObjState,
                                          updates: map<string, Value>, order: seq<string>)
    ensures s.changed <= ApplyOf(env, classes, s, updates, order).1.changed <= s.changed + Applied(s, updates, order)
    decreases |order|
  {
    if order != [] {
      var init := order[..|order| - 1];
      ApplyOfChanged(env, classes, s, updates, init);
      AppliedLast(s, updates, order);
    }
  }

  /** The loop gets through exactly when every field it meets is accepted;
      each such field then holds its coerced value and is marked changed. */
  lemma {:induction false} ApplyOfPass(env: Env, classes: Classes, s: ObjState,
                                       updates: map<string, Value>, order: seq<string>)
    ensures var r := ApplyOf(env, classes, s, updates, order);
      r.0 == Pass <==> forall k :: k in Applied(s, updates, order) ==> Accepts(env, classes, s, updates, k)
    ensures var r := ApplyOf(env, classes, s, updates, order);
      r.0 == Pass ==>
        r.1.changed == s.changed + Applied(s, updates, order) &&
        forall k :: k in Applied(s, updates, order) ==>
          k in r.1.slots &&
          r.1.slots[k] == Coerce(env, s.cls.fields[k], Decoded(env, classes, s, updates, k).value).value
    decreases |order|
  {
    if order != [] {
      var init := order[..|order| - 1];
      var key := order[|order| - 1];
      ApplyOfPass(env, classes, s, updates, init);
      AppliedLast(s, updates, order);
      var before := ApplyOf(env, classes, s, updates, init);
      if before.0 == Pass && key in updates && key in s.cls.fields {
        assert Codec.AttrFromPrimitive(env, classes, before.1.cls, key, updates[key], before.1.context) ==
          Decoded(env, classes, s, updates, key);
      }
    }
  }

  /** The keys applied by a walk are those of its prefix and, when it names
      an updated field, its last key. */
  lemma AppliedLast(s: ObjState, updates: map<string, Value>, order: seq<string>)
    requires order != []
    ensures var key := order[|order| - 1];
      Applied(s, updates, order) ==
        Applied(s, updates, order[..|order| - 1]) + (if key in updates && key in s.cls.fields then {key} else {})
  {
    assert order == order[..|order| - 1] + [order[|order| - 1]];
  }

  /** The orphan check, then the endpoint or the local body. */
  ghost function CallOf(env: Env, classes: Classes, s: ObjState, fnName: string, ctxArg: Option<Context>,
                        args: seq<Value>, endpoint: Option<Endpoint>, body: MethodBody,
                        order: seq<string>): (r: (Result<Value>, ObjState))
    ensures ctxArg.None? && s.context.None? ==> r == (Err(OrphanedObject(fnName, s.cls.name)), s)
    ensures r.1.cls == s.cls
  {
    var ctx := if ctxArg.Some? then ctxArg else s.context;
    if ctx.None? then (Err(OrphanedObject(fnName, s.cls.name)), s)
    else if endpoint.None? then
      var local := body(s, ctx.value, fnName, args);
      (local.0, local.1.(cls := s.cls))
    else
      match endpoint.value.objectAction(ctx.value, s, fnName, args)
      case Err(e) => (Err(e), s)
      case Ok(answer) =>
        var updates := answer.0;
        var applied := ApplyOf(env, classes, s, updates, order);
        if applied.0.Fail? then (Err(applied.0.error), applied.1)
        else
          match WhatChangedOf(updates)
          case Err(e) => (Err(e), applied.1)
          case Ok(changed) => (Ok(answer.1), applied.1.(changed := changed))
  }

  /** The keys of the updates the endpoint answers, if it answers. */
  ghost predicate ListsUpdates(order: seq<string>, s: ObjState, fnName: string, ctxArg: Option<Context>,
                               args: seq<Value>, endpoint: Option<Endpoint>)
  {
    var ctx := if ctxArg.Some? then ctxArg else s.context;
    ctx.Some? && endpoint.Some? && endpoint.value.objectAction(ctx.value, s, fnName, args).Ok? ==>
      Enumerates(order, endpoint.value.objectAction(ctx.value, s, fnName, args).value.0.Keys)
  }

  /** A call through the endpoint that succeeds returns the endpoint's
      result; the fields among the update keys hold their decoded values,
      every other slot is as it was, and the changed-set is the one the
      updates name, empty when they name none. */
  lemma RemoteUpdates(env: Env, classes: Classes, s: ObjState, fnName: string, ctxArg: Option<Context>,
                      args: seq<Value>, endpoint: Endpoint, body: MethodBody, order: seq<string>)
    requires var ctx := if ctxArg.Some? then ctxArg else s.context;
      ctx.Some? && endpoint.objectAction(ctx.value, s, fnName, args).Ok?
    ensures var ctx := if ctxArg.Some? then ctxArg else s.context;
      var answer := endpoint.objectAction(ctx.value, s, fnName, args).value;
      var updates := answer.0;
      var r := CallOf(env, classes, s, fnName, ctxArg, args, Some(endpoint), body, order);
      (r.0.Ok? <==>
        (forall k :: k in Applied(s, updates, order) ==> Accepts(env, classes, s, updates, k)) &&
        WhatChangedOf(updates).Ok?) &&
      (r.0.Ok? ==>
        r.0.value == answer.1 &&
        r.1.changed == WhatChangedOf(updates).value &&
        (WhatChangedKey !in updates ==> r.1.changed == {}) &&
        (forall k :: k in Applied(s, updates, order) ==>
          k in r.1.slots &&
          r.1.slots[k] == Coerce(env, s.cls.fields[k], Decoded(env, classes, s, updates, k).value).value) &&
        (forall n :: n !in Applied(s, updates, order) ==>
          (n in r.1.slots <==> n in s.slots) && (n in s.slots ==> r.1.slots[n] == s.slots[n])))
  {
    var ctx := if ctxArg.Some? then ctxArg else s.context;
    var updates := endpoint.objectAction(ctx.value, s, fnName, args).value.0;
    ApplyOfPass(env, classes, s, updates, order);
    ApplyOfUntouched(env, classes, s, updates, order);
  }

  /** A call and its specification agree: both succeed or both fail, a
      success returns the same result, and the object ends in the same
      state. */
  ghost predicate AgreesCall(r: Result<Value>, s: ObjState, spec: (Result<Value>, ObjState))
  {
    (r.Ok? <==> spec.0.Ok?) && (r.Ok? ==> r.value == spec.0.value) && s == spec.1
  }

  /** Once the updates loop has failed, later keys change nothing. */
  lemma {:induction false} ApplyOfFailStays(env: Env, classes: Classes, s: ObjState, updates: map<string, Value>,
                                            prefix: seq<string>, order: seq<string>)
    requires |prefix| <= |order| && order[..|prefix|] == prefix
    requires ApplyOf(env, classes, s, updates, prefix).0.Fail?
    ensures ApplyOf(env, classes, s, updates, order) == ApplyOf(env, classes, s, updates, prefix)
    decreases |order|
  {
    if |order| > |prefix| {
      var init := order[..|order| - 1];
      assert init[..|prefix|] == prefix;
      ApplyOfFailStays(env, classes, s, updates, prefix, init);
    } else {
      assert order == prefix;
    }
  }

  /** The updates loop stopped by a failure: some listing of all the keys
      gives the same outcome. */
  lemma StopApply(env: Env, classes: Classes, s: ObjState, updates: map<string, Value>,
                  order: seq<string>, key: string, remaining: set<string>)
    requires remaining <= updates.Keys && key in remaining
    requires forall x :: x in order <==> x in updates && x !in remaining
    requires forall i, j :: 0 <= i < j < |order| ==> order[i] != order[j]
    requires ApplyOf(env, classes, s, updates, order + [key]).0.Fail?
    ensures exists full ::
      Enumerates(full, updates.Keys) &&
      ApplyOf(env, classes, s, updates, full) == ApplyOf(env, classes, s, updates, order + [key])
  {
    EnumerateRest(order, key, remaining, updates.Keys);
    var full := order + [key] + Rest(remaining - {key});
    assert full[..|order| + 1] == order + [key];
    ApplyOfFailStays(env, classes, s, updates, order + [key], full);
  }

  /** `@remotable`: `ctxArg` is a request context passed as the first
      argument, `args` the remaining arguments. */
  method Remotable(env: Env, registry: ObjRegistry, obj: MagnumObject, fnName: string, ctxArg: Option<Context>,
                   args: seq<Value>, endpoint: Option<Endpoint>, body: MethodBody)
    returns (r: Result<Value>)
    modifies obj
    ensures exists order ::
      ListsUpdates(order, old(obj.State()), fnName, ctxArg, args, endpoint) &&
      AgreesCall(r, obj.State(), CallOf(env, registry.classes, old(obj.State()), fnName, ctxArg, args, endpoint, body, order))
  {
    ghost var s0 := obj.State();
    ghost var classes := registry.classes;
    var ctx := if ctxArg.Some? then ctxArg else obj.context;
    if ctx.None? {
      r := Err(OrphanedObject(fnName, obj.cls.name));
      assert ListsUpdates([], s0, fnName, ctxArg, args, endpoint);
      assert AgreesCall(r, obj.State(), CallOf(env, classes, s0, fnName, ctxArg, args, endpoint, body, []));
      return;
    }
    if endpoint.None? {
      var local := body(obj.State(), ctx.value, fnName, args);
      obj.version, obj.context, obj.slots, obj.changed := local.1.version, local.1.context, local.1.slots, local.1.changed;
      r := local.0;
      assert ListsUpdates([], s0, fnName, ctxArg, args, endpoint);
      assert AgreesCall(r, obj.State(), CallOf(env, classes, s0, fnName, ctxArg, args, endpoint, body, []));
      return;
    }
    var answer := endpoint.value.objectAction(ctx.value, obj.State(), fnName, args);
    if answer.Err? {
      r := Err(answer.error);
      assert ListsUpdates([], s0, fnName, ctxArg, args, endpoint);
      assert AgreesCall(r, obj.State(), CallOf(env, classes, s0, fnName, ctxArg, args, endpoint, body, []));
      return;
    }
    var updates := answer.value.0;
    var applied := ApplyUpdates(env, registry, obj, updates);
    ghost var order :| Enumerates(order, updates.Keys) && AgreesApply(applied, obj.State(), ApplyOf(env, classes, s0, updates, order));
    if applied.Fail? {
      r := Err(applied.error);
    } else {
      var changed := WhatChangedOf(updates);
      if changed.Err? {
        r := Err(changed.error);
      } else {
        obj.changed := changed.value;
        r := Ok(answer.value.1);
      }
    }
    assert AgreesCall(r, obj.State(), CallOf(env, classes, s0, fnName, ctxArg, args, endpoint, body, order));
  }

  /** The updates loop and its specification agree: both get through or
      both fail, leaving the object in the same state. */
  ghost predicate AgreesApply(r: Outcome, s: ObjState, spec: (Outcome, ObjState))
  {
    (r.Pass? <==> spec.0.Pass?) && s == spec.1
  }

  /** `for key, value in updates.iteritems(): if key in self.fields:
      self[key] = self._attr_from_primitive(key, value)`. */
  method ApplyUpdates(env: Env, registry: ObjRegistry, obj: MagnumObject, updates: map<string, Value>)
    returns (r: Outcome)
    modifies obj
    ensures exists order ::
      Enumerates(order, updates.Keys) &&
      AgreesApply(r, obj.State(), ApplyOf(env, registry.classes, old(obj.State()), updates, order))
  {
    ghost var s0 := obj.State();
    ghost var classes := registry.classes;
    var remaining := updates.Keys;
    ghost var order: seq<string> := [];
    while remaining != {}
      invariant remaining <= updates.Keys
      invariant forall x :: x in order <==> x in updates && x !in remaining
      invariant forall i, j :: 0 <= i < j < |order| ==> order[i] != order[j]
      invariant ApplyOf(env, classes, s0, updates, order) == (Pass, obj.State())
      decreases remaining
    {
      var key :| key in remaining;
      ghost var next := order + [key];
      assert next[..|order|] == order;
      if key in obj.cls.fields {
        var v := Hydrate.AttrFromPrimitive(env, registry, obj.cls, key, updates[key], obj.context);
        if v.Err? {
          r := Fail(v.error);
          StopApply(env, classes, s0, updates, order, key, remaining);
          return;
        }
        var set_ := obj.SetAttr(env, key, v.value);
        if set_.Fail? {
          r := set_;
          StopApply(env, classes, s0, updates, order, key, remaining);
          return;
        }
      }
      order := next;
      remaining := remaining - {key};
    }
    r := Pass;
    assert Enumerates(order, updates.Keys);
  }

  /** `@remotable_classmethod`: through the endpoint the result comes back
      as the endpoint gives it; run locally, a resulting object is given
      the call's context. */
  function RemotableClassmethod(cls: ClassInfo, ctx: Option<Context>, fnName: string, args: seq<Value>,
                                endpoint: Option<Endpoint>, body: ClassBody): (r: Result<Value>)
    ensures endpoint.Some? ==> r == endpoint.value.classAction(ctx, cls.name, fnName, cls.version, args)
    ensures endpoint.None? ==> (r.Ok? <==> body(cls, ctx, fnName, args).Ok?)
    ensures endpoint.None? && r.Ok? && r.value.VObj? ==>
      var local := body(cls, ctx, fnName, args);
      r.value.obj.context == ctx && local.Ok? && local.value.VObj? && r.value.obj == local.value.obj.(context := ctx)
    ensures endpoint.None? && r.Ok? && !r.value.VObj? ==> r == body(cls, ctx, fnName, args)
  {
    if endpoint.Some? then endpoint.value.classAction(ctx, cls.name, fnName, cls.version, args)
    else
      match body(cls, ctx, fnName, args)
      case Ok(VObj(o)) => Ok(VObj(o.(context := ctx)))
      case other => other
  }
}
