/** A MagnumObject instance: its field slots and its changed-set, the
    property getter and setter `make_class_properties` installs for every
    field, and the change-tracking methods (magnum/objects/base.py:58-74,
    297-310, 355-401). */
module Objects {
  import opened Values
  import opened Codec

  /* ---------------------------------------------------------------- */
  /* The accessors, as functions of an object's state                 */
  /* ---------------------------------------------------------------- */

  /** The field setter: the name is marked changed first, then the value
      goes through the field's coercion; a coercion that raises leaves the
      slot as it was (the mark stays). */
  function SetField(env: Env, s: ObjState, name: string, value: Value): (r: (Outcome, ObjState))
    requires name in s.cls.fields
    ensures r.1.cls == s.cls && r.1.version == s.version && r.1.context == s.context
    ensures r.1.changed == s.changed + {name}
    ensures r.0 == Pass <==> Coerce(env, s.cls.fields[name], value).Some?
    ensures r.0.Fail? ==> r.0.error == CoercionFailed(s.cls.name + "." + name) && r.1.slots == s.slots
    ensures r.0 == Pass ==> (r.1.slots.Keys == s.slots.Keys + {name} &&
      r.1.slots[name] == Coerce(env, s.cls.fields[name], value).value &&
      forall n :: n in s.slots && n != name ==> r.1.slots[n] == s.slots[n])
  {
    var marked := s.(changed := s.changed + {name});
    match Coerce(env, s.cls.fields[name], value)
    case None => (Fail(CoercionFailed(s.cls.name + "." + name)), marked)
    case Some(c) => (Pass, marked.(slots := s.slots[name := c]))
  }

  /** The field getter: a set slot is read as it is; an unset one is first
      handed to `obj_load_attr`, which the base class refuses and an
      overriding class may answer by filling slots; a slot still unset
      after loading is an AttributeError. */
  function GetField(env: Env, s: ObjState, name: string): (r: (Result<Value>, ObjState))
    requires name in s.cls.fields
    ensures r.1.cls == s.cls
    ensures name in s.slots ==> r == (Ok(s.slots[name]), s)
    ensures !s.cls.loads ==> r.1 == s && (r.0.Ok? <==> name in s.slots)
    ensures !s.cls.loads && name !in s.slots ==> r.0 == Err(NotImplemented(name))
    ensures r.0.Ok? ==> name in r.1.slots && r.0.value == r.1.slots[name]
  {
    if name in s.slots then (Ok(s.slots[name]), s)
    else if !s.cls.loads then (Err(NotImplemented(name)), s)
    else
      match env.load(s, name)
      case Err(e) => (Err(e), s)
      case Ok(loaded) =>
        var t := loaded.(cls := s.cls);
        if name in t.slots then (Ok(t.slots[name]), t) else (Err(AttributeUnset(name)), t)
  }

  /** `obj_reset_changes(fields)`: no names, or an empty list of names,
      clears the changed-set; otherwise exactly the given names leave it. */
  function ResetChanged(changed: set<string>, fields: Option<seq<string>>): (r: set<string>)
    ensures r <= changed
    ensures fields.None? || fields.value == [] ==> r == {}
    ensures fields.Some? && fields.value != [] ==>
      forall n :: n in r <==> n in changed && n !in fields.value
  {
    if fields.None? || fields.value == [] then {}
    else changed - set n | n in fields.value
  }

  /** A sequence listing every element of a set once: the order in which
      a loop over a dictionary or a set visits its keys. */
  ghost predicate Enumerates(order: seq<string>, s: set<string>)
  {
    (forall x :: x in order <==> x in s) &&
    forall i, j :: 0 <= i < j < |order| ==> order[i] != order[j]
  }

  /** `as_dict()` visiting the fields in `order`: `hasattr` runs the getter
      and, as in Python 2, swallows whatever it raises; a field whose getter
      succeeds is read again, from its now-set slot. */
  function AsDictOf(env: Env, s: ObjState, order: seq<string>): (r: (map<string, Value>, ObjState))
    requires forall i :: 0 <= i < |order| ==> order[i] in s.cls.fields
    ensures r.1.cls == s.cls
    ensures r.0.Keys <= set n | n in order
    decreases |order|
  {
    if order == [] then (map[], s)
    else
      var prev := AsDictOf(env, s, order[..|order| - 1]);
      var name := order[|order| - 1];
      var got := GetField(env, prev.1, name);
      if got.0.Ok? then (prev.0[name := got.0.value], got.1) else (prev.0, got.1)
  }

  /** In a class that does not load lazily, `as_dict()` is the map of the
      set fields it visits and leaves the object as it was. */
  lemma {:induction false} AsDictOfSetFields(env: Env, s: ObjState, order: seq<string>)
    requires forall i :: 0 <= i < |order| ==> order[i] in s.cls.fields
    requires !s.cls.loads
    ensures AsDictOf(env, s, order) == (map n | n in s.slots && n in order :: s.slots[n], s)
    decreases |order|
  {
    if order != [] {
      var init := order[..|order| - 1];
      var name := order[|order| - 1];
      assert forall i :: 0 <= i < |init| ==> init[i] == order[i];
      AsDictOfSetFields(env, s, init);
      var m := map n | n in s.slots && n in init :: s.slots[n];
      var got := GetField(env, s, name);
      assert AsDictOf(env, s, order) == if got.0.Ok? then (m[name := got.0.value], s) else (m, s);
      assert forall n :: n in order <==> n in init || n == name by {
        assert order == init + [name];
      }
      var full := map n | n in s.slots && n in order :: s.slots[n];
      if name in s.slots {
        assert m[name := s.slots[name]] == full;
      } else {
        assert m == full;
      }
    }
  }

  /** One more field visited by `as_dict()`. */
  lemma AsDictOfStep(env: Env, s: ObjState, order: seq<string>, name: string)
    requires forall i :: 0 <= i < |order| ==> order[i] in s.cls.fields
    requires name in s.cls.fields
    ensures var prev := AsDictOf(env, s, order);
      var got := GetField(env, prev.1, name);
      AsDictOf(env, s, order + [name]) ==
        if got.0.Ok? then (prev.0[name := got.0.value], got.1) else (prev.0, got.1)
  {
    assert (order + [name])[..|order|] == order;
  }

  /** `as_dict()` over every field of a class that does not load lazily. */
  lemma AsDictOfAll(env: Env, s: ObjState, order: seq<string>)
    requires forall x :: x in order <==> x in s.cls.fields
    requires !s.cls.loads
    ensures AsDictOf(env, s, order) == (map n | n in s.slots && n in s.cls.fields :: s.slots[n], s)
  {
    AsDictOfSetFields(env, s, order);
    assert (map n | n in s.slots && n in order :: s.slots[n]) == map n | n in s.slots && n in s.cls.fields :: s.slots[n];
  }

  /** `obj_get_changes()` visiting the changed names in `order`: each is
      read through `self[key]`; a name that is not a field, or a getter
      that raises, ends the call with that error. The loop iterates the
      live changed-set, and every change a lazy load makes to it is taken
      as made in place: a load that leaves it with another size makes the
      next step of the iteration raise RuntimeError. */
  function GetChangesOf(env: Env, s: ObjState, order: seq<string>): (r: (Result<map<string, Value>>, ObjState))
    ensures r.1.cls == s.cls
    ensures r.0.Ok? ==> r.0.value.Keys == set n | n in order
    decreases |order|
  {
    if order == [] then (Ok(map[]), s)
    else
      var prev := GetChangesOf(env, s, order[..|order| - 1]);
      var name := order[|order| - 1];
      if prev.0.Err? then prev
      else if name !in s.cls.fields then (Err(UnknownAttribute(s.cls.name, name)), prev.1)
      else
        var got := GetField(env, prev.1, name);
        match got.0
        case Err(e) => (Err(e), got.1)
        case Ok(v) =>
          if |got.1.changed| != |s.changed| then (Err(SetResized), got.1)
          else (Ok(prev.0.value[name := v]), got.1)
  }

  /** One more changed name visited by `obj_get_changes()`. */
  lemma GetChangesOfStep(env: Env, s: ObjState, order: seq<string>, name: string)
    ensures var prev := GetChangesOf(env, s, order);
      GetChangesOf(env, s, order + [name]) ==
        if prev.0.Err? then prev
        else if name !in s.cls.fields then (Err(UnknownAttribute(s.cls.name, name)), prev.1)
        else
          var got := GetField(env, prev.1, name);
          match got.0
          case Err(e) => (Err(e), got.1)
          case Ok(v) =>
            if |got.1.changed| != |s.changed| then (Err(SetResized), got.1)
            else (Ok(prev.0.value[name := v]), got.1)
  {
    assert (order + [name])[..|order|] == order;
  }

  /** A changed name whose lazy load resizes the live changed-set in place
      ends `obj_get_changes()` with RuntimeError. */
  lemma GetChangesResized(env: Env, s: ObjState, order: seq<string>, name: string)
    requires GetChangesOf(env, s, order).0.Ok? && name in s.cls.fields
    requires var got := GetField(env, GetChangesOf(env, s, order).1, name);
      got.0.Ok? && |got.1.changed| != |s.changed|
    ensures GetChangesOf(env, s, order + [name]) ==
      (Err(SetResized), GetField(env, GetChangesOf(env, s, order).1, name).1)
  {
    GetChangesOfStep(env, s, order, name);
  }

  /** Over all the changed names, when each is a set field. */
  lemma GetChangesOfAll(env: Env, s: ObjState, order: seq<string>)
    requires forall x :: x in order <==> x in s.changed
    ensures s.changed <= s.slots.Keys * s.cls.fields.Keys ==>
      GetChangesOf(env, s, order) == (Ok(map n | n in s.changed :: s.slots[n]), s)
  {
    if s.changed <= s.slots.Keys * s.cls.fields.Keys {
      assert forall i :: 0 <= i < |order| ==> order[i] in s.changed;
      GetChangesOfSetFields(env, s, order);
      assert (map n | n in order :: s.slots[n]) == map n | n in s.changed :: s.slots[n];
    }
  }

  /** When every changed name is a set field, `obj_get_changes()` maps each
      of them to its value and loads nothing. */
  lemma {:induction false} GetChangesOfSetFields(env: Env, s: ObjState, order: seq<string>)
    requires forall i :: 0 <= i < |order| ==> order[i] in s.cls.fields && order[i] in s.slots
    ensures GetChangesOf(env, s, order) == (Ok(map n | n in order :: s.slots[n]), s)
    decreases |order|
  {
    if order != [] {
      var init := order[..|order| - 1];
      GetChangesOfSetFields(env, s, init);
      var name := order[|order| - 1];
      assert order == init + [name];
      var m := map n | n in init :: s.slots[n];
      assert m[name := s.slots[name]] == map n | n in order :: s.slots[n];
    }
  }

  /** A changed name that is not a field makes `obj_get_changes()` fail,
      whatever the other names. */
  lemma {:induction false} GetChangesOfUnknown(env: Env, s: ObjState, order: seq<string>, k: nat)
    requires k < |order| && order[k] !in s.cls.fields
    ensures GetChangesOf(env, s, order).0.Err?
    decreases |order|
  {
    var init := order[..|order| - 1];
    if k < |order| - 1 {
      assert init[k] == order[k];
      GetChangesOfUnknown(env, s, init, k);
    }
  }

  /** `__deepcopy__` visiting the fields in `order`: a fresh object of the
      same class and context, with the CLASS version, every set field
      passed through the new object's setter, and finally a copy of the
      changed-set. */
  function CloneOf(env: Env, s: ObjState, order: seq<string>): (r: Result<ObjState>)
    requires forall i :: 0 <= i < |order| ==> order[i] in s.cls.fields
    ensures r.Ok? ==> (r.value.cls == s.cls && r.value.version == s.cls.version &&
      r.value.context == s.context && r.value.changed == s.changed)
  {
    match CopySlots(env, s, order)
    case Err(e) => Err(e)
    case Ok(t) => Ok(t.(changed := s.changed))
  }

  /** The field loop of `__deepcopy__`. */
  function CopySlots(env: Env, s: ObjState, order: seq<string>): (r: Result<ObjState>)
    requires forall i :: 0 <= i < |order| ==> order[i] in s.cls.fields
    ensures r.Ok? ==> r.value.cls == s.cls && r.value.version == s.cls.version && r.value.context == s.context
    decreases |order|
  {
    if order == [] then Ok(ObjState(s.cls, s.cls.version, s.context, map[], {}))
    else
      match CopySlots(env, s, order[..|order| - 1])
      case Err(e) => Err(e)
      case Ok(t) =>
        var name := order[|order| - 1];
        if name !in s.slots then Ok(t)
        else
          var set_ := SetField(env, t, name, s.slots[name]);
          if set_.0.Fail? then Err(set_.0.error) else Ok(set_.1)
  }

  /** A copy keeps every set field whose value is a fixed point of its
      coercion, and only the fields it visits. */
  lemma {:induction false} CopySlotsFixed(env: Env, s: ObjState, order: seq<string>)
    requires forall i :: 0 <= i < |order| ==> order[i] in s.cls.fields
    requires forall n :: n in s.slots && n in s.cls.fields ==> Coerce(env, s.cls.fields[n], s.slots[n]) == Some(s.slots[n])
    ensures CopySlots(env, s, order).Ok?
    ensures CopySlots(env, s, order).value.slots == map n | n in order && n in s.slots :: s.slots[n]
    decreases |order|
  {
    if order != [] {
      var init := order[..|order| - 1];
      CopySlotsFixed(env, s, init);
      var name := order[|order| - 1];
      assert order == init + [name];
      var m := map n | n in init && n in s.slots :: s.slots[n];
      if name in s.slots {
        assert m[name := s.slots[name]] == map n | n in order && n in s.slots :: s.slots[n];
      } else {
        assert m == map n | n in order && n in s.slots :: s.slots[n];
      }
    }
  }

  /** A copy fails exactly when the coercion of some set field it visits
      refuses the value, naming that field. */
  lemma {:induction false} CopySlotsFails(env: Env, s: ObjState, order: seq<string>)
    requires forall i :: 0 <= i < |order| ==> order[i] in s.cls.fields
    ensures CopySlots(env, s, order).Err? <==>
      exists i :: 0 <= i < |order| && order[i] in s.slots && Coerce(env, s.cls.fields[order[i]], s.slots[order[i]]).None?
    ensures CopySlots(env, s, order).Err? ==>
      exists i :: 0 <= i < |order| && CopySlots(env, s, order).error == CoercionFailed(s.cls.name + "." + order[i])
    decreases |order|
  {
    if order != [] {
      var init := order[..|order| - 1];
      CopySlotsFails(env, s, init);
      var name := order[|order| - 1];
      assert forall i :: 0 <= i < |init| ==> init[i] == order[i];
      if CopySlots(env, s, init).Ok? && name in s.slots && Coerce(env, s.cls.fields[name], s.slots[name]).None? {
        assert order[|order| - 1] == name;
      }
    }
  }

  /** The copy of an object whose field values survive their coercion is
      the object with its class's VERSION in place of its own. */
  lemma CloneOfFixed(env: Env, s: ObjState, order: seq<string>)
    requires Enumerates(order, s.cls.fields.Keys)
    requires s.slots.Keys <= s.cls.fields.Keys
    requires forall n :: n in s.slots ==> Coerce(env, s.cls.fields[n], s.slots[n]) == Some(s.slots[n])
    ensures CloneOf(env, s, order) == Ok(s.(version := s.cls.version))
  {
    CopySlotsFixed(env, s, order);
    var m := map n | n in order && n in s.slots :: s.slots[n];
    assert m == s.slots;
  }

  /* ---------------------------------------------------------------- */
  /* The object                                                       */
  /* ---------------------------------------------------------------- */

  /** An instance: `cls` is its class, `version` its VERSION (an instance
      attribute once decoding has set it), `context` its `_context`,
      `slots` the `_<name>` storage attributes that are set, `changed` its
      `_changed_fields`. */
  class MagnumObject {
    const cls: ClassInfo
    var version: string
    var context: Option<Context>
    var slots: map<string, Value>
    var changed: set<string>

    /** The object as a value. */
    function State(): ObjState
      reads this
    {
      ObjState(cls, version, context, slots, changed)
    }

    /** `__init__(context)`: nothing set, nothing changed, the class's
        VERSION. */
    constructor(cls: ClassInfo, context: Option<Context>)
      ensures State() == ObjState(cls, cls.version, context, map[], {})
    {
      this.cls := cls;
      this.version := cls.version;
      this.context := context;
      this.slots := map[];
      this.changed := {};
    }

    /** `setattr(self, name, value)` on a field. */
    method SetAttr(env: Env, name: string, value: Value) returns (r: Outcome)
      requires name in cls.fields
      modifies this
      ensures (r, State()) == SetField(env, old(State()), name, value)
    {
      changed := changed + {name};
      var c := Coerce(env, cls.fields[name], value);
      if c.None? {
        return Fail(CoercionFailed(cls.name + "." + name));
      }
      slots := slots[name := c.value];
      r := Pass;
    }

    /** `getattr(self, name)` on a field. */
    method GetAttr(env: Env, name: string) returns (r: Result<Value>)
      requires name in cls.fields
      modifies this
      ensures (r, State()) == GetField(env, old(State()), name)
    {
      if name in slots {
        return Ok(slots[name]);
      }
      if !cls.loads {
        return Err(NotImplemented(name));
      }
      var loaded := env.load(State(), name);
      if loaded.Err? {
        return Err(loaded.error);
      }
      version, context, slots, changed := loaded.value.version, loaded.value.context, loaded.value.slots, loaded.value.changed;
      if name in slots {
        r := Ok(slots[name]);
      } else {
        r := Err(AttributeUnset(name));
      }
    }

    /** `obj_what_changed()`. */
    function WhatChanged(): (r: set<string>)
      reads this
      ensures r == State().changed
    {
      changed
    }

    /** `obj_reset_changes(fields)`: only the changed-set changes; the
        values stay (it is not a revert). */
    method ResetChanges(fields: Option<seq<string>>)
      modifies this
      ensures changed == ResetChanged(old(changed), fields)
      ensures slots == old(slots) && version == old(version) && context == old(context)
    {
      if fields.None? || fields.value == [] {
        changed := {};
      } else {
        changed := changed - set n | n in fields.value;
      }
    }

    /** `obj_attr_is_set(name)`: an AttributeError for a name that is
        neither a field nor an extra field; otherwise whether its slot is
        set. */
    function AttrIsSet(name: string): (r: Result<bool>)
      reads this
      ensures r.Err? <==> name !in cls.fields && name !in cls.extraFields
      ensures r.Err? ==> r.error == UnknownAttribute(cls.name, name)
      ensures r == Ok(true) <==> (name in cls.fields || name in cls.extraFields) && name in slots
    {
      if name !in cls.fields && name !in cls.extraFields then Err(UnknownAttribute(cls.name, name))
      else Ok(name in slots)
    }

    /** `as_dict()`: the fields in dictionary order, which the contract
        leaves open. */
    method AsDict(env: Env) returns (d: map<string, Value>)
      modifies this
      ensures exists order :: Enumerates(order, cls.fields.Keys) && (d, State()) == AsDictOf(env, old(State()), order)
      ensures !cls.loads ==> d == (map n | n in old(slots) && n in cls.fields :: old(slots)[n]) && State() == old(State())
    {
      ghost var s0 := State();
      var remaining := cls.fields.Keys;
      ghost var order: seq<string> := [];
      d := map[];
      while remaining != {}
        invariant remaining <= cls.fields.Keys
        invariant forall x :: x in order <==> x in cls.fields && x !in remaining
        invariant forall i, j :: 0 <= i < j < |order| ==> order[i] != order[j]
        invariant (d, State()) == AsDictOf(env, s0, order)
        decreases remaining
      {
        var name :| name in remaining;
        AsDictOfStep(env, s0, order, name);
        var got := GetAttr(env, name);
        if got.Ok? {
          d := d[name := got.value];
        }
        order := order + [name];
        remaining := remaining - {name};
      }
      if !cls.loads {
        AsDictOfAll(env, s0, order);
      }
    }

    /** `obj_get_changes()`: the changed names in set order, failing when a
        lazy load resizes, in place, the changed-set it iterates. */
    method GetChanges(env: Env) returns (r: Result<map<string, Value>>)
      modifies this
      ensures exists order :: Enumerates(order, old(changed)) && (r, State()) == GetChangesOf(env, old(State()), order)
      ensures old(changed) <= old(slots).Keys * cls.fields.Keys ==>
        r == Ok(map n | n in old(changed) :: old(slots)[n]) && State() == old(State())
      ensures (exists n :: n in old(changed) && n !in cls.fields) ==> r.Err?
    {
      ghost var s0 := State();
      var remaining := changed;
      var size := |changed|;
      ghost var order: seq<string> := [];
      var acc: map<string, Value> := map[];
      r := Ok(map[]);
      while remaining != {}
        invariant remaining <= s0.changed
        invariant forall x :: x in order <==> x in s0.changed && x !in remaining
        invariant forall i, j :: 0 <= i < j < |order| ==> order[i] != order[j]
        invariant r.Ok? && (r, State()) == GetChangesOf(env, s0, order)
        decreases remaining
      {
        var name :| name in remaining;
        GetChangesOfStep(env, s0, order, name);
        ghost var next := order + [name];
        if name !in cls.fields {
          r := Err(UnknownAttribute(cls.name, name));
          assert GetChangesOf(env, s0, next) == (r, State());
          StopGetChanges(env, s0, order, name, remaining);
          return;
        }
        var got := GetAttr(env, name);
        if got.Err? {
          r := Err(got.error);
          assert GetChangesOf(env, s0, next) == (r, State());
          StopGetChanges(env, s0, order, name, remaining);
          return;
        }
        if |changed| != size {
          r := Err(SetResized);
          assert GetChangesOf(env, s0, next) == (r, State());
          StopGetChanges(env, s0, order, name, remaining);
          return;
        }
        r := Ok(r.value[name := got.value]);
        order := next;
        remaining := remaining - {name};
      }
      GetChangesOfAll(env, s0, order);
      NotFieldFails(env, s0, order);
    }

    /** `__deepcopy__`: a new object, or the error of a field whose
        coercion refuses its own value. */
    method Clone(env: Env) returns (r: Result<MagnumObject>)
      ensures r.Ok? ==> fresh(r.value)
      ensures exists order ::
        Enumerates(order, cls.fields.Keys) &&
        CloneOf(env, State(), order) == (if r.Ok? then Ok(r.value.State()) else Err(r.error))
    {
      var copy := new MagnumObject(cls, context);
      var remaining := cls.fields.Keys;
      ghost var order: seq<string> := [];
      while remaining != {}
        invariant remaining <= cls.fields.Keys
        invariant forall x :: x in order <==> x in cls.fields && x !in remaining
        invariant forall i, j :: 0 <= i < j < |order| ==> order[i] != order[j]
        invariant fresh(copy) && copy.cls == cls
        invariant CopySlots(env, State(), order) == Ok(copy.State())
        decreases remaining
      {
        var name :| name in remaining;
        assert (order + [name])[..|order|] == order;
        ghost var next := order + [name];
        if name in slots {
          var set_ := copy.SetAttr(env, name, slots[name]);
          if set_.Fail? {
            r := Err(set_.error);
            assert CopySlots(env, State(), next) == Err(set_.error);
            StopCopy(env, State(), order, name, remaining);
            return;
          }
        }
        order := next;
        remaining := remaining - {name};
      }
      copy.changed := changed;
      r := Ok(copy);
      assert Enumerates(order, cls.fields.Keys);
      assert CloneOf(env, State(), order) == Ok(copy.State());
    }
  }

  /* ---------------------------------------------------------------- */
  /* Helpers for loops that stop early                                */
  /* ---------------------------------------------------------------- */

  /** Some listing of a set. */
  ghost function Rest(s: set<string>): (r: seq<string>)
    ensures Enumerates(r, s)
    decreases s
  {
    if s == {} then []
    else
      var x :| x in s;
      var rest := Rest(s - {x});
      assert forall i :: 0 <= i < |rest| ==> rest[i] in s - {x};
      [x] + rest
  }

  /** A visited prefix, the name in hand and a listing of the names left
      make a listing of the whole set. */
  lemma EnumerateRest(order: seq<string>, name: string, remaining: set<string>, all: set<string>)
    requires remaining <= all && name in remaining
    requires forall x :: x in order <==> x in all && x !in remaining
    requires forall i, j :: 0 <= i < j < |order| ==> order[i] != order[j]
    ensures Enumerates(order + [name] + Rest(remaining - {name}), all)
  {
    var rest := Rest(remaining - {name});
    var full := order + [name] + rest;
    forall i, j | 0 <= i < j < |full| ensures full[i] != full[j] {
      if j < |order| {
      } else if j == |order| {
        assert full[j] == name && full[i] == order[i];
      } else if i > |order| {
        assert full[i] == rest[i - |order| - 1] && full[j] == rest[j - |order| - 1];
      } else if i == |order| {
        assert full[j] == rest[j - |order| - 1] && full[j] in rest;
      } else {
        assert full[j] == rest[j - |order| - 1] && full[j] in rest && full[i] == order[i];
      }
    }
  }

  /** Once `obj_get_changes()` has failed, the names after that one do not
      change the outcome. */
  lemma {:induction false} GetChangesOfErrStays(env: Env, s: ObjState, prefix: seq<string>, order: seq<string>)
    requires |prefix| <= |order| && order[..|prefix|] == prefix
    requires GetChangesOf(env, s, prefix).0.Err?
    ensures GetChangesOf(env, s, order) == GetChangesOf(env, s, prefix)
    decreases |order|
  {
    if |order| > |prefix| {
      var init := order[..|order| - 1];
      assert init[..|prefix|] == prefix;
      GetChangesOfErrStays(env, s, prefix, init);
    } else {
      assert order == prefix;
    }
  }

  /** Once a copy has failed, the fields after that one do not change the
      outcome. */
  lemma {:induction false} CopySlotsErrStays(env: Env, s: ObjState, prefix: seq<string>, order: seq<string>)
    requires forall i :: 0 <= i < |order| ==> order[i] in s.cls.fields
    requires |prefix| <= |order| && order[..|prefix|] == prefix
    requires CopySlots(env, s, prefix).Err?
    ensures CopySlots(env, s, order) == CopySlots(env, s, prefix)
    decreases |order|
  {
    if |order| > |prefix| {
      var init := order[..|order| - 1];
      assert init[..|prefix|] == prefix;
      CopySlotsErrStays(env, s, prefix, init);
    } else {
      assert order == prefix;
    }
  }

  /** `obj_get_changes()` stopped by an error: some listing of all the
      changed names gives the same outcome. */
  lemma StopGetChanges(env: Env, s: ObjState, order: seq<string>, name: string, remaining: set<string>)
    requires remaining <= s.changed && name in remaining
    requires forall x :: x in order <==> x in s.changed && x !in remaining
    requires forall i, j :: 0 <= i < j < |order| ==> order[i] != order[j]
    requires GetChangesOf(env, s, order + [name]).0.Err?
    ensures exists full :: Enumerates(full, s.changed) && GetChangesOf(env, s, full) == GetChangesOf(env, s, order + [name])
    ensures !(s.changed <= s.slots.Keys * s.cls.fields.Keys)
  {
    if s.changed <= s.slots.Keys * s.cls.fields.Keys {
      assert forall i :: 0 <= i < |order + [name]| ==> (order + [name])[i] in s.changed;
      GetChangesOfSetFields(env, s, order + [name]);
    }
    EnumerateRest(order, name, remaining, s.changed);
    var full := order + [name] + Rest(remaining - {name});
    assert full[..|order| + 1] == order + [name];
    GetChangesOfErrStays(env, s, order + [name], full);
  }

  /** `__deepcopy__` stopped by a coercion error: some listing of all the
      fields gives the same outcome. */
  lemma StopCopy(env: Env, s: ObjState, order: seq<string>, name: string, remaining: set<string>)
    requires remaining <= s.cls.fields.Keys && name in remaining
    requires forall x :: x in order <==> x in s.cls.fields && x !in remaining
    requires forall i, j :: 0 <= i < j < |order| ==> order[i] != order[j]
    requires CopySlots(env, s, order + [name]).Err?
    ensures exists full :: Enumerates(full, s.cls.fields.Keys) && CloneOf(env, s, full) == CopySlots(env, s, order + [name])
  {
    EnumerateRest(order, name, remaining, s.cls.fields.Keys);
    var full := order + [name] + Rest(remaining - {name});
    assert full[..|order| + 1] == order + [name];
    CopySlotsErrStays(env, s, order + [name], full);
  }

  /** A non-field changed name met anywhere makes the whole call fail. */
  lemma NotFieldFails(env: Env, s: ObjState, order: seq<string>)
    requires forall x :: x in order <==> x in s.changed
    ensures (exists n :: n in s.changed && n !in s.cls.fields) ==> GetChangesOf(env, s, order).0.Err?
  {
    if n :| n in s.changed && n !in s.cls.fields {
      var k :| 0 <= k < |order| && order[k] == n;
      GetChangesOfUnknown(env, s, order, k);
    }
  }
}
