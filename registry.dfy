/** The class registry kept by the metaclass and the lookup
    `obj_class_from_name` (magnum/objects/base.py:79-93, 219-249). */
module Registry {
  import opened Values
  import opened Versions
  import opened Schema

  /** `_obj_classes`: object name to the classes registered under it, in
      registration order. */
  type Classes = map<string, seq<ClassInfo>>

  /** The classes registered under a name; the defaultdict's empty list for
      an unknown one. */
  function ClassesOf(classes: Classes, objname: string): seq<ClassInfo>
  {
    if objname in classes then classes[objname] else []
  }

  /** The registry after `cls` is appended under its name. */
  function Registered(classes: Classes, cls: ClassInfo): (r: Classes)
    ensures r.Keys == classes.Keys + {cls.name}
    ensures r[cls.name] == ClassesOf(classes, cls.name) + [cls]
    ensures forall n :: n in classes && n != cls.name ==> r[n] == classes[n]
  {
    classes[cls.name := ClassesOf(classes, cls.name) + [cls]]
  }

  /** A class VERSION from which `version_bits` is a pair of integers. */
  predicate WellFormedVersion(v: string)
  {
    VersionBits(v).Some? && |VersionBits(v).value| == 2
  }

  /** `is_compatible(objver, objclass.VERSION)` holds. */
  predicate Compatible(objver: string, c: ClassInfo)
  {
    IsCompatible(objver, c.version) == Ok(true)
  }

  /** `if latest is None: latest = bits; elif latest < bits: latest = bits`. */
  function UpdateLatest(latest: Option<seq<int>>, bits: seq<int>): Option<seq<int>>
  {
    if latest.None? || LexLess(latest.value, bits) then Some(bits) else latest
  }

  /** What the loop reads of one registered class: the class, its
      `version_bits` (None where `int()` raises) and the answer of
      `is_compatible(objver, VERSION)`. */
  datatype Step = Step(cls: ClassInfo, bits: Option<seq<int>>, compatible: Result<bool>)

  /** The steps of the loop over `cs` for the requested version. */
  function Steps(cs: seq<ClassInfo>, objver: string): (r: seq<Step>)
    ensures |r| == |cs|
    ensures forall j :: 0 <= j < |cs| ==>
      r[j] == Step(cs[j], VersionBits(cs[j].version), IsCompatible(objver, cs[j].version))
  {
    seq(|cs|, j requires 0 <= j < |cs| => Step(cs[j], VersionBits(cs[j].version), IsCompatible(objver, cs[j].version)))
  }

  /** What the lookup does once the loop has run out of classes. */
  function ScanEnd(objname: string, objver: string, latest: Option<seq<int>>, compatible: Option<ClassInfo>): Result<ClassInfo>
  {
    if compatible.Some? then Ok(compatible.value)
    else if latest.Some? && |latest.value| == 2 then
      Err(NoCompatibleVersion(objname, objver, FormatVersion(latest.value[0], latest.value[1])))
    else Err(NoVersionToReport)
  }

  /** The loop of `obj_class_from_name` over the remaining steps, with the
      values of `latest` and `compatible_match` so far. */
  function Scan(steps: seq<Step>, objname: string, objver: string,
                latest: Option<seq<int>>, compatible: Option<ClassInfo>): (r: Result<ClassInfo>)
    ensures r.Ok? ==> (exists j :: 0 <= j < |steps| && steps[j].cls == r.value) || Some(r.value) == compatible
    decreases |steps|
  {
    if steps == [] then ScanEnd(objname, objver, latest, compatible)
    else if steps[0].cls.version == objver then Ok(steps[0].cls)
    else match steps[0].bits
      case None => Err(MalformedClassVersion(steps[0].cls.version))
      case Some(bits) =>
        match steps[0].compatible
        case Err(e) => Err(e)
        case Ok(ok) =>
          var r := Scan(steps[1..], objname, objver, UpdateLatest(latest, bits), if ok then Some(steps[0].cls) else compatible);
          assert r.Ok? && r.value != steps[0].cls && Some(r.value) != compatible ==>
            exists j :: 1 <= j < |steps| && steps[j].cls == r.value by {
            if r.Ok? && r.value != steps[0].cls && Some(r.value) != compatible {
              var j :| 0 <= j < |steps[1..]| && steps[1..][j].cls == r.value;
              assert steps[j + 1] == steps[1..][j];
            }
          }
          r
  }

  /** `obj_class_from_name(objname, objver)`. */
  function Resolve(classes: Classes, objname: string, objver: string): (r: Result<ClassInfo>)
    ensures objname !in classes ==> r == Err(UnsupportedObject(VStr(objname)))
    ensures r.Ok? ==> objname in classes && r.value in classes[objname]
  {
    if objname !in classes then Err(UnsupportedObject(VStr(objname)))
    else Scan(Steps(classes[objname], objver), objname, objver, None, None)
  }

  /** Steps whose bits are pairs and whose compatibility check answered. */
  predicate Regular(steps: seq<Step>)
  {
    forall j :: 0 <= j < |steps| ==>
      steps[j].bits.Some? && |steps[j].bits.value| == 2 && steps[j].compatible.Ok?
  }

  /** The largest bits seen by the loop, starting from `latest`. */
  function LatestOf(steps: seq<Step>, latest: Option<seq<int>>): Option<seq<int>>
    decreases |steps|
  {
    if steps == [] then latest
    else match steps[0].bits
      case None => LatestOf(steps[1..], latest)
      case Some(bits) => LatestOf(steps[1..], UpdateLatest(latest, bits))
  }

  /** The last compatible class, starting from `compatible`. */
  function LastCompatible(steps: seq<Step>, compatible: Option<ClassInfo>): Option<ClassInfo>
    decreases |steps|
  {
    if steps == [] then compatible
    else LastCompatible(steps[1..], if steps[0].compatible == Ok(true) then Some(steps[0].cls) else compatible)
  }

  /** A well-formed VERSION also passes the `major.minor` split of the
      compatibility check. */
  lemma WellFormedParts(v: string)
    requires WellFormedVersion(v)
    ensures VersionParts(v).Some?
  {
    var parts := Split(v, '.');
    assert ParseInt(parts[1]) == Some(VersionBits(v).value[1]);
  }

  /** Registered classes with well-formed versions and a well-formed
      requested version give regular steps. */
  lemma StepsRegular(cs: seq<ClassInfo>, objver: string)
    requires VersionParts(objver).Some?
    requires forall j :: 0 <= j < |cs| ==> WellFormedVersion(cs[j].version)
    ensures Regular(Steps(cs, objver))
  {
    forall j | 0 <= j < |cs|
      ensures VersionParts(cs[j].version).Some?
    {
      WellFormedParts(cs[j].version);
    }
  }

  /** Without an exact match, the loop ends with the last compatible class,
      or reports the largest version seen. */
  lemma {:induction false} ScanWithoutExact(steps: seq<Step>, objname: string, objver: string,
                                            latest: Option<seq<int>>, compatible: Option<ClassInfo>)
    requires Regular(steps)
    requires forall j :: 0 <= j < |steps| ==> steps[j].cls.version != objver
    ensures Scan(steps, objname, objver, latest, compatible) ==
      ScanEnd(objname, objver, LatestOf(steps, latest), LastCompatible(steps, compatible))
    decreases |steps|
  {
    if steps != [] {
      var next := if steps[0].compatible == Ok(true) then Some(steps[0].cls) else compatible;
      assert Regular(steps[1..]) by {
        forall j | 0 <= j < |steps[1..]| ensures steps[1..][j] == steps[j + 1] { }
      }
      ScanWithoutExact(steps[1..], objname, objver, UpdateLatest(latest, steps[0].bits.value), next);
    }
  }

  /** The first step whose class VERSION equals the requested one is
      returned. */
  lemma {:induction false} ScanExact(steps: seq<Step>, objname: string, objver: string,
                                     latest: Option<seq<int>>, compatible: Option<ClassInfo>, i: nat)
    requires i < |steps| && steps[i].cls.version == objver
    requires forall j :: 0 <= j < i ==>
      steps[j].cls.version != objver && steps[j].bits.Some? && steps[j].compatible.Ok?
    ensures Scan(steps, objname, objver, latest, compatible) == Ok(steps[i].cls)
    decreases |steps|
  {
    if i > 0 {
      var next := if steps[0].compatible == Ok(true) then Some(steps[0].cls) else compatible;
      assert forall j :: 0 <= j < i - 1 ==> steps[1..][j] == steps[j + 1];
      ScanExact(steps[1..], objname, objver, UpdateLatest(latest, steps[0].bits.value), next, i - 1);
    }
  }

  /** The last compatible class in the list wins. */
  lemma {:induction false} LastCompatibleIsLast(steps: seq<Step>, compatible: Option<ClassInfo>, k: nat)
    requires k < |steps| && steps[k].compatible == Ok(true)
    requires forall j :: k < j < |steps| ==> steps[j].compatible != Ok(true)
    ensures LastCompatible(steps, compatible) == Some(steps[k].cls)
    decreases |steps|
  {
    var next := if steps[0].compatible == Ok(true) then Some(steps[0].cls) else compatible;
    if k == 0 {
      LastCompatibleNone(steps[1..], next);
    } else {
      LastCompatibleIsLast(steps[1..], next, k - 1);
    }
  }

  /** With no compatible class, the initial value is kept. */
  lemma {:induction false} LastCompatibleNone(steps: seq<Step>, compatible: Option<ClassInfo>)
    requires forall j :: 0 <= j < |steps| ==> steps[j].compatible != Ok(true)
    ensures LastCompatible(steps, compatible) == compatible
    decreases |steps|
  {
    if steps != [] {
      assert steps[0].compatible != Ok(true);
      LastCompatibleNone(steps[1..], compatible);
    }
  }

  /** One update of `latest` keeps the larger of the two, in Python tuple
      order. */
  lemma UpdateLatestMax(latest: Option<seq<int>>, bits: seq<int>)
    requires |bits| == 2 && (latest.Some? ==> |latest.value| == 2)
    ensures var n := UpdateLatest(latest, bits);
      n.Some? && |n.value| == 2 && (n == latest || n == Some(bits)) &&
      !LexLess(n.value, bits) && (latest.Some? ==> !LexLess(n.value, latest.value))
  {
    var n := UpdateLatest(latest, bits).value;
    LexLessPairs(n, bits);
    if latest.Some? {
      LexLessPairs(n, latest.value);
      LexLessPairs(latest.value, bits);
    }
  }

  /** Python tuple order on pairs is transitive in its non-strict form. */
  lemma NotLessTransitive(a: seq<int>, b: seq<int>, c: seq<int>)
    requires |a| == 2 && |b| == 2 && |c| == 2
    requires !LexLess(a, b) && !LexLess(b, c)
    ensures !LexLess(a, c)
  {
    LexLessPairs(a, b);
    LexLessPairs(b, c);
    LexLessPairs(a, c);
  }

  /** The tracked `latest` is the largest of the versions seen (Python
      tuple order), and is one of them. */
  lemma {:induction false} LatestIsMax(steps: seq<Step>, latest: Option<seq<int>>)
    requires Regular(steps)
    requires latest.Some? ==> |latest.value| == 2
    requires latest.Some? || steps != []
    ensures var m := LatestOf(steps, latest);
      m.Some? && |m.value| == 2 &&
      (m == latest || exists j :: 0 <= j < |steps| && steps[j].bits == m) &&
      (latest.Some? ==> !LexLess(m.value, latest.value)) &&
      forall j :: 0 <= j < |steps| ==> !LexLess(m.value, steps[j].bits.value)
    decreases |steps|
  {
    if steps != [] {
      var bits := steps[0].bits.value;
      var next := UpdateLatest(latest, bits);
      UpdateLatestMax(latest, bits);
      var rest := steps[1..];
      assert Regular(rest) by {
        forall j | 0 <= j < |rest| ensures rest[j] == steps[j + 1] { }
      }
      var m := LatestOf(steps, latest);
      assert m == LatestOf(rest, next);
      if rest == [] {
        assert m == next;
      } else {
        LatestIsMax(rest, next);
        NotLessTransitive(m.value, next.value, bits);
        if latest.Some? {
          NotLessTransitive(m.value, next.value, latest.value);
        }
        forall j | 1 <= j < |steps|
          ensures !LexLess(m.value, steps[j].bits.value)
        {
          assert steps[j] == rest[j - 1];
        }
        if m != next {
          var j :| 0 <= j < |rest| && rest[j].bits == m;
          assert steps[j + 1] == rest[j];
        }
      }
    } else {
      LexLessPairs(latest.value, latest.value);
    }
  }

  /** An unregistered name is refused. */
  lemma ResolveUnregistered(classes: Classes, objname: string, objver: string)
    requires objname !in classes
    ensures Resolve(classes, objname, objver) == Err(UnsupportedObject(VStr(objname)))
  {
  }

  /** An exact VERSION match is returned: the first one registered. */
  lemma ResolveExact(classes: Classes, objname: string, objver: string, i: nat)
    requires objname in classes
    requires i < |classes[objname]| && classes[objname][i].version == objver
    requires forall j :: 0 <= j < i ==>
      classes[objname][j].version != objver && WellFormedVersion(classes[objname][j].version)
    requires 0 < i ==> VersionParts(objver).Some?
    ensures Resolve(classes, objname, objver) == Ok(classes[objname][i])
  {
    var cs := classes[objname];
    forall j | 0 <= j < i
      ensures VersionParts(cs[j].version).Some?
    {
      WellFormedParts(cs[j].version);
    }
    ScanExact(Steps(cs, objver), objname, objver, None, None, i);
  }

  /** Without an exact match, the last registered class that can serve the
      requested version is returned. */
  lemma ResolveFallback(classes: Classes, objname: string, objver: string, k: nat)
    requires objname in classes && VersionParts(objver).Some?
    requires forall j :: 0 <= j < |classes[objname]| ==>
      WellFormedVersion(classes[objname][j].version) && classes[objname][j].version != objver
    requires k < |classes[objname]| && Compatible(objver, classes[objname][k])
    requires forall j :: k < j < |classes[objname]| ==> !Compatible(objver, classes[objname][j])
    ensures Resolve(classes, objname, objver) == Ok(classes[objname][k])
  {
    var cs := classes[objname];
    var steps := Steps(cs, objver);
    StepsRegular(cs, objver);
    StepsFallback(cs, objver, k);
    ScanFallback(steps, objname, objver, k);
  }

  /** The steps of a lookup without an exact match, where class `k` is the
      last compatible one. */
  lemma StepsFallback(cs: seq<ClassInfo>, objver: string, k: nat)
    requires forall j :: 0 <= j < |cs| ==> cs[j].version != objver
    requires k < |cs| && Compatible(objver, cs[k])
    requires forall j :: k < j < |cs| ==> !Compatible(objver, cs[j])
    ensures var steps := Steps(cs, objver);
      (forall j :: 0 <= j < |steps| ==> steps[j].cls.version != objver) &&
      steps[k] == Step(cs[k], VersionBits(cs[k].version), Ok(true)) &&
      forall j :: k < j < |steps| ==> steps[j].compatible != Ok(true)
  {
  }

  /** The loop over steps without an exact match ends with the last
      compatible one. */
  lemma ScanFallback(steps: seq<Step>, objname: string, objver: string, k: nat)
    requires Regular(steps)
    requires forall j :: 0 <= j < |steps| ==> steps[j].cls.version != objver
    requires k < |steps| && steps[k].compatible == Ok(true)
    requires forall j :: k < j < |steps| ==> steps[j].compatible != Ok(true)
    ensures Scan(steps, objname, objver, None, None) == Ok(steps[k].cls)
  {
    ScanWithoutExact(steps, objname, objver, None, None);
    LastCompatibleIsLast(steps, None, k);
  }

  /** When no registered class can serve the requested version, the error
      reports the largest registered version as the supported one. */
  lemma ResolveIncompatible(classes: Classes, objname: string, objver: string)
    requires objname in classes && classes[objname] != [] && VersionParts(objver).Some?
    requires forall j :: 0 <= j < |classes[objname]| ==>
      WellFormedVersion(classes[objname][j].version) && classes[objname][j].version != objver &&
      !Compatible(objver, classes[objname][j])
    ensures exists i ::
      0 <= i < |classes[objname]| && WellFormedVersion(classes[objname][i].version) &&
      IncompatibleReport(classes, objname, objver, VersionBits(classes[objname][i].version).value)
  {
    var cs := classes[objname];
    var steps := Steps(cs, objver);
    StepsRegular(cs, objver);
    ResolveReportsLatest(classes, objname, objver);
    LatestIsMax(steps, None);
    var m := LatestOf(steps, None).value;
    var i :| 0 <= i < |steps| && steps[i].bits == Some(m);
    assert VersionBits(cs[i].version) == Some(m);
    forall j | 0 <= j < |cs| && WellFormedVersion(cs[j].version)
      ensures !LexLess(m, VersionBits(cs[j].version).value)
    {
      assert steps[j].bits == VersionBits(cs[j].version);
    }
  }

  /** With no exact and no compatible class, the lookup reports the largest
      bits the loop saw. */
  lemma ResolveReportsLatest(classes: Classes, objname: string, objver: string)
    requires objname in classes && classes[objname] != [] && VersionParts(objver).Some?
    requires forall j :: 0 <= j < |classes[objname]| ==>
      WellFormedVersion(classes[objname][j].version) && classes[objname][j].version != objver &&
      !Compatible(objver, classes[objname][j])
    ensures var m := LatestOf(Steps(classes[objname], objver), None);
      m.Some? && |m.value| == 2 &&
      Resolve(classes, objname, objver) == Err(NoCompatibleVersion(objname, objver, FormatVersion(m.value[0], m.value[1])))
  {
    var cs := classes[objname];
    var steps := Steps(cs, objver);
    StepsRegular(cs, objver);
    ScanWithoutExact(steps, objname, objver, None, None);
    LastCompatibleNone(steps, None);
    LatestIsMax(steps, None);
  }

  /** The lookup raises IncompatibleObjectVersion naming `m` as the
      supported version, and `m` is at least every registered version. */
  predicate IncompatibleReport(classes: Classes, objname: string, objver: string, m: seq<int>)
    requires objname in classes && |m| == 2
  {
    Resolve(classes, objname, objver) == Err(NoCompatibleVersion(objname, objver, FormatVersion(m[0], m[1]))) &&
    forall j :: 0 <= j < |classes[objname]| && WellFormedVersion(classes[objname][j].version) ==>
      !LexLess(m, VersionBits(classes[objname][j].version).value)
  }

  /** A requested version that is not `major.minor` is refused as malformed
      by the compatibility check of the first class. */
  lemma ResolveMalformedRequest(classes: Classes, objname: string, objver: string)
    requires objname in classes && classes[objname] != [] && VersionParts(objver).None?
    requires WellFormedVersion(classes[objname][0].version)
    ensures Resolve(classes, objname, objver) == Err(InvalidVersionString)
  {
    WellFormedParts(classes[objname][0].version);
    var steps := Steps(classes[objname], objver);
    assert steps[0].compatible == Err(InvalidVersionString);
  }

  /** A class just registered under a version no earlier class of its name
      has is what that name and version resolve to. */
  lemma RegisterThenResolve(classes: Classes, cls: ClassInfo)
    requires WellFormedVersion(cls.version)
    requires forall j :: 0 <= j < |ClassesOf(classes, cls.name)| ==>
      WellFormedVersion(ClassesOf(classes, cls.name)[j].version) &&
      ClassesOf(classes, cls.name)[j].version != cls.version
    ensures Resolve(Registered(classes, cls), cls.name, cls.version) == Ok(cls)
  {
    var after := Registered(classes, cls);
    var n := |ClassesOf(classes, cls.name)|;
    ResolveExact(after, cls.name, cls.version, n);
  }

  /** `_obj_classes` and the metaclass's registration step. */
  class ObjRegistry {
    var classes: Classes

    constructor()
      ensures classes == map[]
    {
      classes := map[];
    }

    /** Defining a subclass: its fields are merged with its ancestors' and
        the class is appended under its name. */
    method Register(name: string, version: string, own: Fields, ancestors: seq<Option<Fields>>,
                    extraFields: seq<string>, hooked: set<string>, isList: bool, loads: bool)
      returns (cls: ClassInfo)
      modifies this
      ensures cls == ClassInfo(name, version, Merged(own, ancestors), extraFields, hooked, isList, loads)
      ensures classes == Registered(old(classes), cls)
    {
      var fields := MergeFields(own, ancestors);
      cls := ClassInfo(name, version, fields, extraFields, hooked, isList, loads);
      var registered := if name in classes then classes[name] else [];
      classes := classes[name := registered + [cls]];
    }

    /** `obj_class_from_name`. */
    method ObjClassFromName(objname: string, objver: string) returns (r: Result<ClassInfo>)
      ensures r == Resolve(classes, objname, objver)
    {
      if objname !in classes {
        return Err(UnsupportedObject(VStr(objname)));
      }
      var cs := classes[objname];
      ghost var steps := Steps(cs, objver);
      var latest: Option<seq<int>> := None;
      var compatible: Option<ClassInfo> := None;
      for i := 0 to |cs|
        invariant Scan(steps[i..], objname, objver, latest, compatible) == Resolve(classes, objname, objver)
      {
        assert steps[i..][0] == steps[i] && steps[i..][1..] == steps[i + 1..];
        if cs[i].version == objver {
          return Ok(cs[i]);
        }
        var bits := VersionBits(cs[i].version);
        if bits.None? {
          return Err(MalformedClassVersion(cs[i].version));
        }
        if latest.None? {
          latest := bits;
        } else if LexLess(latest.value, bits.value) {
          latest := bits;
        }
        var ok := IsCompatible(objver, cs[i].version);
        if ok.Err? {
          return Err(ok.error);
        }
        if ok.value {
          compatible := Some(cs[i]);
        }
      }
      assert steps[|cs|..] == [];
      if compatible.Some? {
        return Ok(compatible.value);
      }
      if latest.Some? && |latest.value| == 2 {
        return Err(NoCompatibleVersion(objname, objver, FormatVersion(latest.value[0], latest.value[1])));
      }
      return Err(NoVersionToReport);
    }
  }
}
