/** `make_class_properties`: a class's field declarations merged with its
    ancestors' (magnum/objects/base.py:45-57). */
module Schema {
  import opened Values

  /** A `fields` dictionary: field name to coercion callable. */
  type Fields = map<string, FieldType>

  /** One ancestor's contribution: each of its fields whose name is not yet
      present. An ancestor without a `fields` attribute is `None` and is
      skipped. */
  function AddMissing(acc: Fields, ancestor: Option<Fields>): Fields
  {
    match ancestor
    case None => acc
    case Some(a) => a + acc
  }

  /** The merged fields of a class: what `cls.fields` resolves to, followed
      by the ancestors in method resolution order (the class itself and
      `object` excluded). */
  function Merged(own: Fields, ancestors: seq<Option<Fields>>): Fields
    decreases |ancestors|
  {
    if ancestors == [] then own else Merged(AddMissing(own, ancestors[0]), ancestors[1..])
  }

  /** Every field name some ancestor declares. */
  function AncestorNames(ancestors: seq<Option<Fields>>): set<string>
    decreases |ancestors|
  {
    if ancestors == [] then {}
    else (if ancestors[0].Some? then ancestors[0].value.Keys else {}) + AncestorNames(ancestors[1..])
  }

  /** The merged class has exactly the names the class and its ancestors
      declare. */
  lemma {:induction false} MergedNames(own: Fields, ancestors: seq<Option<Fields>>)
    ensures Merged(own, ancestors).Keys == own.Keys + AncestorNames(ancestors)
    decreases |ancestors|
  {
    if ancestors != [] {
      MergedNames(AddMissing(own, ancestors[0]), ancestors[1..]);
    }
  }

  /** Fields the class declares (or that `cls.fields` resolves to) are kept
      as they are: the subclass's declaration wins. */
  lemma {:induction false} MergedKeepsOwn(own: Fields, ancestors: seq<Option<Fields>>, name: string)
    requires name in own
    ensures name in Merged(own, ancestors) && Merged(own, ancestors)[name] == own[name]
    decreases |ancestors|
  {
    if ancestors != [] {
      MergedKeepsOwn(AddMissing(own, ancestors[0]), ancestors[1..], name);
    }
  }

  /** A field the class does not declare takes the declaration of the first
      ancestor, in resolution order, that has it. */
  lemma {:induction false} MergedTakesFirstAncestor(own: Fields, ancestors: seq<Option<Fields>>, name: string, i: nat)
    requires name !in own
    requires i < |ancestors| && ancestors[i].Some? && name in ancestors[i].value
    requires forall j :: 0 <= j < i ==> ancestors[j].None? || name !in ancestors[j].value
    ensures name in Merged(own, ancestors) && Merged(own, ancestors)[name] == ancestors[i].value[name]
    decreases |ancestors|
  {
    var next := AddMissing(own, ancestors[0]);
    if i == 0 {
      MergedKeepsOwn(next, ancestors[1..], name);
    } else {
      assert ancestors[0].None? || name !in ancestors[0].value;
      MergedTakesFirstAncestor(next, ancestors[1..], name, i - 1);
    }
  }

  /** The loop of `make_class_properties`: a private copy of the class's
      fields, then each ancestor's missing names added in turn. */
  method MergeFields(own: Fields, ancestors: seq<Option<Fields>>) returns (fields: Fields)
    ensures fields == Merged(own, ancestors)
  {
    fields := own;
    for i := 0 to |ancestors|
      invariant Merged(fields, ancestors[i..]) == Merged(own, ancestors)
    {
      assert ancestors[i..][0] == ancestors[i] && ancestors[i..][1..] == ancestors[i + 1..];
      if ancestors[i].Some? {
        fields := AddMissingNames(fields, ancestors[i].value);
      }
    }
  }

  /** One ancestor's turn: each of its names not yet present is added
      with the ancestor's declaration. */
  method AddMissingNames(acc: Fields, ancestor: Fields) returns (fields: Fields)
    ensures fields == ancestor + acc
  {
    fields := acc;
    var names := ancestor.Keys;
    while names != {}
      invariant names <= ancestor.Keys
      invariant fields == (map k | k in ancestor && k !in names :: ancestor[k]) + acc
      decreases names
    {
      var name :| name in names;
      if name !in fields {
        fields := fields[name := ancestor[name]];
      }
      names := names - {name};
    }
    assert fields == ancestor + acc;
  }
}
