# Magnum versioned objects in Dafny

This project models the versioned object layer of Magnum
(`magnum/objects/base.py`). That layer covers:

- objects with a declared set of fields, each passed through a coercion
  callable when it is set;
- a changed-field set;
- a per-name class registry that resolves a name and a requested version to
  a class;
- a wire form made of nested dictionaries, keyed by `magnum_object.*`;
- the `remotable` and `remotable_classmethod` decorators, which forward calls
  to an indirection endpoint when one is configured;
- a serializer that carries objects, and containers of objects, across that
  endpoint.

Modules:

- `Values`: the Python values an object holds or sends, the class schema, an
  object's state and the exceptions of the layer.
- `Versions`: `str.split`, `int()` on byte strings (whitespace after the
  sign included), `'%i.%i'`, `check_object_version` and the compatibility
  rule.
- `Schema`: `make_class_properties`, which merges a class's fields with its
  ancestors'.
- `Registry`: the metaclass's registration, and `obj_class_from_name` as a
  function (`Resolve`) and as a loop (`ObjRegistry.ObjClassFromName`).
- `Objects`: the `MagnumObject` class, whose methods update its fields in
  place, and the functions that specify those methods.
- `Codec`: `obj_to_primitive` and `obj_from_primitive` as functions of
  object states, including the `ObjectListBase` handlers.
- `Hydrate`: `obj_from_primitive` as the imperative code it is. It builds
  objects with the setter and is proved against `Codec`.
- `RoundTrip`: what a primitive decodes to, and the round trip
  `obj_from_primitive(obj_to_primitive(o)) == o`.
- `Remote`: the two decorators.
- `Serializer`: `MagnumObjectSerializer` and the module-level
  `obj_to_primitive`.

### Unordered loops

The source iterates over dictionaries and sets in an order it does not fix.
The model handles such a loop in two parts:

- A specification function takes the visiting order as an argument.
- The method that runs the loop promises that some listing of the keys
  (`Enumerates`) makes its outcome and its final state those of the
  function.

Which of several failing fields reports its error is left to that order.

### Collaborators outside the model

Collaborators whose code is not in this file are parameters, given in the
`Env` and `Endpoint` values:

- the coercion callables;
- the datetime handlers of `created_at` and `updated_at`;
- an overriding `obj_load_attr`;
- the indirection endpoint;
- the bodies of remotable methods.

## Model

| member | source | states |
|---|---|---|
| Versions.CheckObjectVersion | magnum/objects/base.py:154-169 | The check passes exactly when both strings split into `major.minor` with an integer minor, the majors are equal and the client's minor does not exceed the server's. It fails with the invalid-version error exactly when either string is malformed. A major mismatch reports two different majors; a minor mismatch reports a client minor above the server's. |
| Versions.CompatibleReflexive | magnum/objects/base.py:154-169 | Every well-formed version is served by itself. |
| Versions.CompatibleTransitive | magnum/objects/base.py:154-169 | Compatibility composes: a server that serves a middle version serves every client that the middle version serves. |
| Versions.SameMajorCompatibility | magnum/objects/base.py:164-169 | Between two formatted versions of one major, the check passes exactly when the client's minor does not exceed the server's; otherwise it reports both minors. |
| Versions.OtherMajorIncompatible | magnum/objects/base.py:164-166 | Versions with different majors fail with a major mismatch naming both majors, whatever their minors. |
| Versions.ThreePartVersionMalformed | magnum/objects/base.py:155-162 | A version with a second dot is refused as an invalid version string, on either side, rather than as a mismatch. |
| Versions.NonNumericMinorMalformed | magnum/objects/base.py:155-162 | A minor with no digit in it is refused as an invalid version string, on either side. |
| Versions.ParseSpacedMinus | magnum/objects/base.py:158-159 | `int()` skips whitespace between a minus sign and the digits: a minus, one whitespace character and digits read as the negated digits. |
| Versions.SpacedSignExample | magnum/objects/base.py:158-159 | `int("- 5")` reads as -5. |
| Versions.MinorAboveServer | magnum/objects/base.py:154-169 | A server minor that `int()` reads as a negative number, such as "- 5", is compared rather than refused: a client at minor 0 of the same major fails with a minor mismatch naming 0 and that number. |
| Versions.CompatibilityExamples | magnum/objects/base.py:154-169 | "1.5" is served by "1.9"; "1.9" is not served by "1.5" (minor mismatch 9 > 5); "2.0" is not served by "1.9". |
| Versions.JoinSplit | magnum/objects/base.py:156-157 | Joining the pieces of `s.split(sep)` with `sep` gives `s` back. |
| Versions.SplitJoin | magnum/objects/base.py:156-157 | Splitting a join of separator-free pieces gives the pieces back. |
| Versions.VersionPartsOf | magnum/objects/base.py:156-159 | Every `<major>.<minor>` string with one dot and an integer minor reads back as that major and minor. |
| Versions.ParseIntToString | magnum/objects/base.py:246 | `int()` reads back what `'%i'` writes, for every integer, negative ones included. |
| Versions.FormatVersionReadsBack | magnum/objects/base.py:234-246 | The supported version `'%i.%i' % latest` splits and parses back to the same pair, through both `check_object_version`'s split and `version_bits`. |
| Versions.LexLessPairs | magnum/objects/base.py:237 | Python's `<` on two 2-tuples orders by major and then by minor. |
| Schema.MergedNames | magnum/objects/base.py:51-57 | The merged fields are exactly the class's own names and every name an ancestor declares. |
| Schema.MergedKeepsOwn | magnum/objects/base.py:55-57 | A field the class declares keeps the class's declaration, whatever its ancestors declare. |
| Schema.MergedTakesFirstAncestor | magnum/objects/base.py:52-57 | A field the class does not declare takes the declaration of the first ancestor, in resolution order, that has it. |
| Schema.MergeFields | magnum/objects/base.py:51-57 | The loop over the ancestors computes the merged fields. |
| Schema.AddMissingNames | magnum/objects/base.py:55-57 | One ancestor's turn adds exactly its names that are missing, keeping the names already present. |
| Registry.ObjRegistry.Register | magnum/objects/base.py:86-93 | Defining a subclass merges its fields and appends the class to the list under its name. The other names keep their lists. |
| Registry.ObjRegistry.ObjClassFromName | magnum/objects/base.py:220-249 | The lookup loop, with its early returns and its `latest` and `compatible_match` variables, gives exactly the result `Resolve` specifies. |
| Registry.ResolveUnregistered | magnum/objects/base.py:223-226 | An unregistered name is refused with UnsupportedObjectError carrying that name. |
| Registry.ResolveExact | magnum/objects/base.py:230-232 | A class whose VERSION equals the requested version is returned: the first such class registered. |
| Registry.ResolveFallback | magnum/objects/base.py:228-244 | Without an exact match, the last registered class compatible with the request is returned. |
| Registry.ResolveIncompatible | magnum/objects/base.py:234-249 | With neither an exact nor a compatible class, the error reports a registered version as supported, and that version is at least every registered version in tuple order. |
| Registry.ResolveMalformedRequest | magnum/objects/base.py:240 | A requested version that is not `major.minor` is refused as invalid by the first compatibility check. |
| Registry.RegisterThenResolve | magnum/objects/base.py:228-232 | Registering a class under a version no earlier class of that name has makes that name and version resolve to the new class. |
| Registry.LatestIsMax | magnum/objects/base.py:234-238 | The tracked `latest` is one of the version tuples seen and is at least all of them. |
| Registry.LastCompatibleIsLast | magnum/objects/base.py:240-241 | `compatible_match` ends as the last compatible class in the list. |
| Objects.MagnumObject.constructor | magnum/objects/base.py:207-209 | A new object has nothing set, nothing changed, the class's VERSION and the given context. |
| Objects.MagnumObject.SetAttr | magnum/objects/base.py:66-74 | The setter always marks the field changed. It stores `typefn(value)` only when the coercion succeeds. When the coercion raises, the setter raises and leaves the slots as they were. The model tags that error with `<objname>.<field>`, the name the setter logs. Nothing else changes. |
| Objects.MagnumObject.GetAttr | magnum/objects/base.py:60-64 | The getter reads a set slot as it is. An unset slot first goes through `obj_load_attr`: the base class raises NotImplementedError, and a slot still unset after loading raises AttributeError. |
| Objects.MagnumObject.WhatChanged | magnum/objects/base.py:369-371 | `obj_what_changed()` is the changed-set. |
| Objects.MagnumObject.ResetChanges | magnum/objects/base.py:373-381 | With no names or an empty list the changed-set is cleared; otherwise exactly the given names leave it. Values are not reverted. |
| Objects.MagnumObject.AttrIsSet | magnum/objects/base.py:383-398 | AttributeError exactly for a name that is neither a field nor an extra field; otherwise true exactly when its slot is set. |
| Objects.MagnumObject.AsDict | magnum/objects/base.py:400-403 | Visiting the fields in some order, `as_dict` gives what `AsDictOf` gives and leaves the object as `AsDictOf` says. For a class that does not load lazily, it returns exactly the set fields and leaves the object unchanged. |
| Objects.AsDictOfSetFields | magnum/objects/base.py:400-403 | Without lazy loading, `as_dict` over any fields gives the set ones with their values and changes nothing. |
| Objects.MagnumObject.GetChanges | magnum/objects/base.py:362-367 | When every changed name is a set field, the result maps each changed name to its value and the object is unchanged. A changed name that is not a field makes the call fail. The loop iterates the live changed-set, and the model takes every change a lazy load makes to it as made in place: a load that resizes the live set in place ends the call with RuntimeError. In every case the outcome is that of `GetChangesOf` in some order. |
| Objects.GetChangesOfUnknown | magnum/objects/base.py:365-366 | A changed name that is not a field makes `obj_get_changes()` fail, whatever the other names. |
| Objects.GetChangesResized | magnum/objects/base.py:365-371 | A changed name whose lazy load resizes the live changed-set in place ends `obj_get_changes()` with RuntimeError, because `obj_what_changed()` hands the loop the live set. |
| Objects.MagnumObject.Clone | magnum/objects/base.py:293-308 | `__deepcopy__` builds a fresh object whose state is `CloneOf` for some order of the fields. On failure it reports the same error. |
| Objects.CloneOfFixed | magnum/objects/base.py:302-307 | When every set value survives its own coercion, the copy is the object with its class's VERSION in place of its own. |
| Objects.CopySlotsFails | magnum/objects/base.py:303-306 | The copy fails exactly when the coercion of some set field refuses its value. The model tags that error with the field's `<objname>.<field>` name, which the setter logs. |
| Codec.AttrToPrimitive | magnum/objects/base.py:314-325 | Only the `objects` field of a list class can fail to encode; every other set field encodes, through its handler or as it is. |
| Codec.EncodeShape | magnum/objects/base.py:327-342 | The primitive carries the class name, namespace `magnum`, the object's VERSION and the data of the set fields. It carries a changes entry exactly when the changed-set is non-empty, and that entry lists the changed names. |
| Codec.EncodeData | magnum/objects/base.py:332-335 | The data entry has exactly the names of the set fields. |
| Codec.ChangesList | magnum/objects/base.py:340-341 | `list(obj_what_changed())` holds only strings, and holds exactly the changed names. |
| Codec.ChangedNames | magnum/objects/base.py:268-273 | For changes given as a list, tuple or set: the restored changed-set is exactly those changes that are declared fields, and restoring fails exactly when a change is unhashable, a tuple holding an unhashable item included. Whatever the changes are, the restored set holds only declared fields. |
| Codec.DecodeSlotsSpec | magnum/objects/base.py:269-272 | The field loop succeeds exactly when every field's turn does, and otherwise fails with the error of a failing field. On success the slots set are exactly the fields present in the data, each holding its decoded and coerced value. |
| Codec.DecodeHeader | magnum/objects/base.py:264-291 | A decoded object has the class its name and version resolve to, the payload's version (not the class's) and the context it was decoded in. Its slots and changed-set are declared fields. |
| Codec.DecodeForeignNamespace | magnum/objects/base.py:282-287 | A payload from another namespace is refused, naming its namespace and object name. |
| Codec.DecodeUnregisteredName | magnum/objects/base.py:288-290 | A hashable name that no class is registered under is refused with UnsupportedObjectError carrying that name. This happens whether or not the name is a string, and before the version is used. |
| Codec.DecodeUnhashableName | magnum/objects/base.py:288-290 | A name that cannot be hashed makes the registry lookup raise. |
| Codec.DecodeOddVersion | magnum/objects/base.py:288-290 | A registered name with a version that is not a string never decodes. When the first class's VERSION parses, the compatibility check is what refuses it. |
| Codec.NestedUnhashableChange | magnum/objects/base.py:273 | A change given as a tuple that holds a list makes restoring the changed-set raise, because the tuple is hashed through its items. |
| Codec.DecodeEntities | magnum/objects/base.py:417-424 | The list handler decodes a list, tuple or set of entities into a list with as many items as there were entities. |
| RoundTrip.DecodeShape | magnum/objects/base.py:267-273 | A decoded object holds exactly the declared fields present in the data, and its changed-set is the declared names among the payload's changes. |
| RoundTrip.DecodeNeedsData | magnum/objects/base.py:267-270 | For a class with fields, a payload whose data is an integer, a boolean, `None` or another scalar cannot be searched with `in`, and is refused. |
| RoundTrip.DecodeRejectsField | magnum/objects/base.py:269-272 | A field whose coercion rejects its decoded value makes decoding fail. The model tags that error with `<class>.<field>`, the name the setter logs. |
| RoundTrip.ObjectRoundTrip | magnum/objects/base.py:263-291 | For an object whose set values survive their handlers and coercion, in a registry where its name and version resolve to its class: decoding its primitive in its own context gives the object back. |
| RoundTrip.ObjectsRoundTrip | magnum/objects/base.py:413-424 | The items of a list object encode, and decode back to the same items. |
| RoundTrip.ChangesRoundTrip | magnum/objects/base.py:268-273 | The changes entry written for a changed-set of declared fields restores exactly that set, including the empty set when the entry is absent. |
| Hydrate.ObjFromPrimitive | magnum/objects/base.py:276-291 | `obj_from_primitive` yields a fresh object exactly when `Codec.FromPrimitive` succeeds, and that object's state is the decoded state. |
| Hydrate.ObjFromDict | magnum/objects/base.py:263-274 | `_obj_from_primitive` builds its object with the setter. It succeeds exactly when `Codec.DecodeAs` does, with the same state. |
| Hydrate.FieldTurn | magnum/objects/base.py:270-272 | One turn of the field loop fails exactly when its specification does, sets a value exactly when the specification does, and the setter coerces that value to the specified one. |
| Hydrate.ObjectsFromPrimitive | magnum/objects/base.py:417-424 | The list handler succeeds exactly when `DecodeEntities` does, with the same list. |
| Hydrate.ObjectsLoop | magnum/objects/base.py:419-424 | The loop over the entities decodes each in the list's context, in order. It succeeds exactly when `DecodeItems` does, with the same list. |
| Remote.WhatChangedOf | magnum/objects/base.py:141 | A missing `obj_what_changed` entry gives the empty set. A list, tuple or set of strings gives exactly those strings, and a dictionary gives its keys. |
| Remote.ApplyOfUntouched | magnum/objects/base.py:138-140 | Update keys that are not fields, and fields the updates do not mention, leave their slots as they were. The changed-set only gains applied fields. |
| Remote.ApplyOfPass | magnum/objects/base.py:138-140 | The updates loop gets through exactly when every field among the update keys decodes and is accepted by its setter. Each such field then holds its coerced value and is marked changed. |
| Remote.RemoteUpdates | magnum/objects/base.py:135-142 | A call through the endpoint succeeds exactly when every updated field is accepted and the changes entry is readable. It then returns the endpoint's result. The updated fields hold their decoded values, every other slot is as it was, and the changed-set is the one the updates name (empty when they name none). |
| Remote.Remotable | magnum/objects/base.py:122-145 | A context passed as the first argument wins over the object's own. Without either, the call raises OrphanedObjectError. Otherwise the call runs the body locally or goes through the endpoint, and the result and final state are those of `CallOf` for some order of the update keys. |
| Remote.ApplyUpdates | magnum/objects/base.py:138-140 | The loop over the updates gets through exactly when `ApplyOf` does for some listing of the keys, and leaves the object in the state `ApplyOf` gives. |
| Remote.CallOf | magnum/objects/base.py:125-134 | Without a context the call raises OrphanedObjectError and changes nothing; the object's class never changes. |
| Remote.RemotableClassmethod | magnum/objects/base.py:102-114 | Through the endpoint the result is the endpoint's, unchanged. Run locally, the call succeeds exactly when the body does. An object result is given the call's context; any other result is returned as the body gives it. |
| Serializer.ProcessIterable | magnum/objects/base.py:436-451 | The processed items come back in a container of the same kind, except that a set becomes a tuple. |
| Serializer.SerializeEntity | magnum/objects/base.py:453-460 | A serialized entity holds no set and is no object. Containers keep their length, and scalars and dictionaries pass through unchanged. |
| Serializer.DeserializeEntity | magnum/objects/base.py:462-468 | A dictionary naming an object becomes that object exactly when `obj_from_primitive` succeeds. Containers keep their length and no set comes back. Anything else passes through unchanged. |
| Serializer.EntityRoundTrip | magnum/objects/base.py:436-468 | Deserializing what was serialized, in the objects' own context, gives the entity back with every set, at any depth, turned into a tuple. |
| Serializer.ItemsRoundTrip | magnum/objects/base.py:451 | The same round trip item by item over a container's contents. |
| Serializer.Dump | magnum/objects/base.py:471-485 | A non-object is returned as it is. A non-list object that dumps becomes a dictionary keyed by exactly its set fields, and a list object becomes a list. |
| Serializer.DumpObject | magnum/objects/base.py:479-483 | An object dumps exactly when all its set fields do, and each key then holds its field's dump. |
| Serializer.DumpItemsAll | magnum/objects/base.py:477-478 | The items of a list object dump in order, and the dump fails exactly when some item's does. |
| Serializer.DumpIsData | magnum/objects/base.py:471-483 | For an object with no handlers and no nested objects, the module-level `obj_to_primitive` gives exactly the data entry of the method's primitive. |

## Left out

- Aliasing: nested objects are value snapshots, and a method that changes an
  object changes only that object's own state. Sharing one child object
  between two parents is not modelled.
- Dictionary and set iteration order is left open. Every loop over one is
  proved for some listing of its keys.
- Hydrate.ObjFromPrimitive: when several fields fail, which error it
  reports is not tied to the specification. It only agrees on success and
  on the resulting state. The same holds for Hydrate.ObjFromDict,
  Hydrate.AttrFromPrimitive, Hydrate.ObjectsFromPrimitive and
  Hydrate.ObjectsLoop.
- Remote.Remotable: the error of a failing call is not tied to `CallOf`,
  only success, the result value and the final state.
- Remote.WhatChangedOf: a non-string item in an `obj_what_changed` list is
  refused as malformed. The source would put it in the changed-set, which
  the model holds as a set of names.
- Serializer.Dump: iterating a list object's `objects` that are not yet
  loaded gives AttributeUnset, with no lazy load. Extra fields, which
  `iteritems` may also yield, are left out.
- A lazy load's effects beyond the requested slot are kept as the `load`
  oracle returns them. Only the class is pinned.
- Objects.MagnumObject.GetChanges: the model takes every change a lazy load
  makes to the changed-set as made in place on the set being iterated. A
  load that assigns a new set instead, as `remotable` does
  (magnum/objects/base.py:141), leaves the source's loop on the old set
  with no RuntimeError; the model reports RuntimeError whenever the size
  differs. A load that changes the set but keeps its size lets the model's
  loop go on over the names it has not visited yet. CPython's behaviour for
  that case depends on the hash table's layout.
- Versions.ParseInt: `int()` is modelled on byte strings, with ASCII
  digits and ASCII whitespace. On a unicode string, which is what a
  JSON-decoded version is, `int()` also accepts other Unicode decimal
  digits and Unicode whitespace. The model refuses those as malformed.
- Versions.CheckObjectVersion: through `ParseInt`, a minor written with
  non-ASCII decimal digits or surrounded by non-ASCII whitespace is
  reported as an invalid version string, where the source would compare
  it.
- CoercionFailed: a coercion callable's own exception is reduced to one
  error value. The model tags it with `<objname>.<field>`, the attribute
  name the setter logs (magnum/objects/base.py:70-74). The source re-raises
  the callable's exception unchanged.
- Codec.DecodeField: payload data given as an object is refused as
  malformed. The source would search it and read it through the dictionary
  compatibility layer, which is not part of this model.
- Codec.DecodeOddVersion: what `is_compatible` raises for a version that is
  not a string is reduced to a malformed-version error.
- `update(kwargs)` in `__init__`, and keyword arguments of remotable calls,
  are left out. The ovoo dictionary compatibility layer (`update`,
  `__getitem__`, `iteritems`, iteration) is not part of this model.
- The transport, the coercion callables, the datetime handlers, `obj_load_attr`
  overrides, `versionutils.is_compatible` and the remotable bodies are
  parameters. `is_compatible` is taken to follow `check_object_version`'s
  rule.
- Logging and message translation are left out. Exceptions are reduced to
  the `Error` values.
- `deepcopy` of field values: a copy passes each value through the new
  object's setter unchanged.
- `save` and the base `obj_load_attr` are modelled only as the errors they
  raise.
- Metaclass property synthesis is replaced by an explicit field schema per
  class.
- Remote.RemotableClassmethod: the caller's `context` is stamped only on an
  object computed locally (magnum/objects/base.py:110-112). An object that
  `object_class_action` returns is passed back as it is.
