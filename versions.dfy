/** Version strings: Python's `str.split`, `int()` and `'%i.%i'` as far as
    the object layer uses them, `check_object_version`, and the
    compatibility test the class registry applies. */
module Versions {
  import opened Values

  predicate IsSpace(c: char)
  {
    c == ' ' || c == '\t' || c == '\n' || c == '\r' || c == '\U{B}' || c == '\U{C}'
  }

  predicate IsDigit(c: char)
  {
    '0' <= c <= '9'
  }

  predicate AllDigits(s: string)
  {
    forall i :: 0 <= i < |s| ==> IsDigit(s[i])
  }

  function StripLeft(s: string): (r: string)
    ensures |r| <= |s| && r == s[|s| - |r|..]
    ensures |r| > 0 ==> !IsSpace(r[0])
  {
    if |s| > 0 && IsSpace(s[0]) then StripLeft(s[1..]) else s
  }

  function StripRight(s: string): (r: string)
    ensures |r| <= |s| && r == s[..|r|]
    ensures |r| > 0 ==> !IsSpace(r[|r| - 1])
  {
    if |s| > 0 && IsSpace(s[|s| - 1]) then StripRight(s[..|s| - 1]) else s
  }

  /** `s.strip()`: the surrounding whitespace that `int()` ignores. */
  function Strip(s: string): string
  {
    StripRight(StripLeft(s))
  }

  /** Stripping only removes characters. */
  lemma StripInside(s: string)
    ensures forall j :: 0 <= j < |Strip(s)| ==> Strip(s)[j] in s
  {
    var l := StripLeft(s);
    forall j | 0 <= j < |Strip(s)| ensures Strip(s)[j] in s {
      assert Strip(s)[j] == l[j] == s[|s| - |l| + j];
    }
  }

  /** The first position at or after `i` that is not whitespace. */
  function SpacesFrom(s: string, i: nat): (k: nat)
    requires i <= |s|
    ensures i <= k <= |s|
    ensures forall j :: i <= j < k ==> IsSpace(s[j])
    ensures k < |s| ==> !IsSpace(s[k])
    decreases |s| - i
  {
    if i < |s| && IsSpace(s[i]) then SpacesFrom(s, i + 1) else i
  }

  /** The value of a string of decimal digits. */
  function DigitsValue(s: string): nat
    requires AllDigits(s)
  {
    if s == [] then 0 else DigitsValue(s[..|s| - 1]) * 10 + (s[|s| - 1] as int - '0' as int)
  }

  /** Python 2 `int(s)` on a byte string: optional surrounding whitespace
      around what `ParseStripped` reads; None where `int()` raises
      ValueError. */
  function ParseInt(s: string): (r: Option<int>)
    ensures r.Some? ==> exists i :: 0 <= i < |s| && IsDigit(s[i])
  {
    StripInside(s);
    ParseStripped(Strip(s))
  }

  /** `int()` once the surrounding whitespace is gone: an optional sign,
      optional whitespace after the sign (which `PyOS_strtol` and
      `PyLong_FromString` skip once more) and at least one ASCII decimal
      digit. */
  function ParseStripped(t: string): (r: Option<int>)
    ensures r.Some? ==> exists i :: 0 <= i < |t| && IsDigit(t[i])
  {
    if |t| > 0 && (t[0] == '-' || t[0] == '+') then
      var k := SpacesFrom(t, 1);
      if k < |t| && AllDigits(t[k..]) then
        assert IsDigit(t[k..][0]);
        var magnitude: int := DigitsValue(t[k..]);
        Some(if t[0] == '-' then -magnitude else magnitude)
      else None
    else if |t| > 0 && AllDigits(t) then
      assert IsDigit(t[0]);
      Some(DigitsValue(t))
    else
      None
  }

  /** The position of the first `c` in `s`. */
  function IndexOf(s: string, c: char): (i: nat)
    requires c in s
    ensures i < |s| && s[i] == c && c !in s[..i]
  {
    if s[0] == c then 0
    else
      var j := IndexOf(s[1..], c);
      assert s[..j + 1] == [s[0]] + s[1..][..j];
      j + 1
  }

  /** `s.split(sep)`: the pieces between the separators, at least one. */
  function Split(s: string, sep: char): (parts: seq<string>)
    ensures |parts| >= 1
    ensures forall i :: 0 <= i < |parts| ==> sep !in parts[i]
    decreases |s|
  {
    if sep !in s then [s]
    else
      var i := IndexOf(s, sep);
      [s[..i]] + Split(s[i + 1..], sep)
  }

  /** `sep.join(parts)`. */
  function Join(parts: seq<string>, sep: char): string
    requires |parts| >= 1
  {
    if |parts| == 1 then parts[0] else parts[0] + [sep] + Join(parts[1..], sep)
  }

  /** Splitting loses nothing: joining the pieces gives the string back. */
  lemma {:induction false} JoinSplit(s: string, sep: char)
    ensures Join(Split(s, sep), sep) == s
    decreases |s|
  {
    if sep in s {
      var i := IndexOf(s, sep);
      var rest := Split(s[i + 1..], sep);
      var parts := [s[..i]] + rest;
      assert Split(s, sep) == parts;
      assert parts[0] == s[..i] && parts[1..] == rest;
      JoinSplit(s[i + 1..], sep);
      assert Join(parts, sep) == s[..i] + [sep] + Join(rest, sep);
      assert s == s[..i] + [sep] + s[i + 1..];
    }
  }

  /** Splitting undoes joining pieces that hold no separator. */
  lemma {:induction false} SplitJoin(parts: seq<string>, sep: char)
    requires |parts| >= 1
    requires forall i :: 0 <= i < |parts| ==> sep !in parts[i]
    ensures Split(Join(parts, sep), sep) == parts
  {
    if |parts| > 1 {
      var s := Join(parts, sep);
      var rest := Join(parts[1..], sep);
      assert s == parts[0] + [sep] + rest;
      IndexOfAfter(parts[0], sep, rest);
      var i := |parts[0]|;
      assert s[..i] == parts[0] && s[i + 1..] == rest;
      assert Split(s, sep) == [parts[0]] + Split(rest, sep);
      SplitJoin(parts[1..], sep);
      assert parts == [parts[0]] + parts[1..];
    }
  }

  /** The first separator is the one right after a piece without any. */
  lemma {:induction false} IndexOfAfter(a: string, sep: char, rest: string)
    requires sep !in a
    ensures sep in a + [sep] + rest && IndexOf(a + [sep] + rest, sep) == |a|
  {
    var s := a + [sep] + rest;
    assert s[|a|] == sep;
    if a != [] {
      assert s[1..] == a[1..] + [sep] + rest;
      IndexOfAfter(a[1..], sep, rest);
    }
  }

  /** The two halves of `major, minor = v.split('.')` with the minor passed
      through `int()`; None where either step raises ValueError. */
  function VersionParts(v: string): (r: Option<(string, int)>)
    ensures r.Some? ==> exists minorText ::
      v == r.value.0 + "." + minorText && '.' !in r.value.0 && '.' !in minorText &&
      ParseInt(minorText) == Some(r.value.1)
  {
    var parts := Split(v, '.');
    if |parts| != 2 then None
    else match ParseInt(parts[1])
      case None => None
      case Some(minor) =>
        JoinSplit(v, '.');
        assert Join(parts, '.') == parts[0] + "." + parts[1];
        Some((parts[0], minor))
  }

  /** Every `<major>.<minor>` string with one dot and an integer minor is
      read back as that major and minor. */
  lemma VersionPartsOf(major: string, minorText: string, minor: int)
    requires '.' !in major && '.' !in minorText
    requires ParseInt(minorText) == Some(minor)
    ensures VersionParts(major + "." + minorText) == Some((major, minor))
  {
    SplitJoin([major, minorText], '.');
    assert Join([major, minorText], '.') == major + "." + minorText;
  }

  /** `check_object_version(server, client)`: Pass when the client may use
      the server's implementation. */
  function CheckObjectVersion(server: string, client: string): (r: Outcome)
    ensures r == Pass <==>
      VersionParts(server).Some? && VersionParts(client).Some? &&
      VersionParts(client).value.0 == VersionParts(server).value.0 &&
      VersionParts(client).value.1 <= VersionParts(server).value.1
    ensures r == Fail(InvalidVersionString) <==>
      VersionParts(server).None? || VersionParts(client).None?
    ensures r.Fail? && r.error.MajorMismatch? ==> r.error.clientMajor != r.error.serverMajor
    ensures r.Fail? && r.error.MinorMismatch? ==> r.error.clientMinor > r.error.serverMinor
  {
    match (VersionParts(client), VersionParts(server))
    case (Some((clientMajor, clientMinor)), Some((serverMajor, serverMinor))) =>
      if clientMajor != serverMajor then Fail(MajorMismatch(clientMajor, serverMajor))
      else if clientMinor > serverMinor then Fail(MinorMismatch(clientMinor, serverMinor))
      else Pass
    case _ => Fail(InvalidVersionString)
  }

  /** `versionutils.is_compatible(requested, available)`, taken to follow
      `check_object_version`'s rule: a malformed string raises, otherwise
      the majors must agree and the requested minor must not exceed the
      available one. */
  function IsCompatible(requested: string, available: string): (r: Result<bool>)
    ensures r == Ok(true) <==> CheckObjectVersion(available, requested) == Pass
    ensures r.Err? <==> VersionParts(requested).None? || VersionParts(available).None?
    ensures r.Err? ==> r.error == InvalidVersionString
  {
    match CheckObjectVersion(available, requested)
    case Pass => Ok(true)
    case Fail(InvalidVersionString) => Err(InvalidVersionString)
    case Fail(_) => Ok(false)
  }

  /** A version compatible with itself: every well-formed version. */
  lemma CompatibleReflexive(v: string)
    requires VersionParts(v).Some?
    ensures CheckObjectVersion(v, v) == Pass
  {
  }

  /** Compatibility composes: a client served by a middle version that is
      itself served by the server is served by the server. */
  lemma CompatibleTransitive(server: string, middle: string, client: string)
    requires CheckObjectVersion(middle, client) == Pass
    requires CheckObjectVersion(server, middle) == Pass
    ensures CheckObjectVersion(server, client) == Pass
  {
  }

  /** `tuple([int(x) for x in v.split(".")])`; None where an `int()` raises. */
  function VersionBits(v: string): Option<seq<int>>
  {
    IntsOf(Split(v, '.'))
  }

  function IntsOf(parts: seq<string>): (r: Option<seq<int>>)
    ensures r.Some? ==> |r.value| == |parts|
    ensures r.Some? ==> forall i :: 0 <= i < |parts| ==> ParseInt(parts[i]) == Some(r.value[i])
    ensures r.None? ==> exists i :: 0 <= i < |parts| && ParseInt(parts[i]).None?
  {
    if parts == [] then Some([])
    else match ParseInt(parts[0])
      case None => None
      case Some(x) =>
        match IntsOf(parts[1..])
        case None => None
        case Some(xs) => Some([x] + xs)
  }

  /** Python's `<` on tuples of integers. */
  predicate LexLess(a: seq<int>, b: seq<int>)
  {
    if a == [] then b != []
    else if b == [] then false
    else a[0] < b[0] || (a[0] == b[0] && LexLess(a[1..], b[1..]))
  }

  /** On pairs, `<` orders by major and then by minor. */
  lemma LexLessPairs(a: seq<int>, b: seq<int>)
    requires |a| == 2 && |b| == 2
    ensures LexLess(a, b) <==> a[0] < b[0] || (a[0] == b[0] && a[1] < b[1])
  {
    assert LexLess(a[1..], b[1..]) <==> a[1] < b[1] by {
      assert a[1..][1..] == [] && b[1..][1..] == [];
    }
  }

  function NatToString(n: nat): (s: string)
    ensures |s| > 0 && AllDigits(s)
  {
    if n < 10 then [('0' as int + n) as char]
    else NatToString(n / 10) + [('0' as int + n % 10) as char]
  }

  /** `'%i' % n`. */
  function IntToString(n: int): (s: string)
    ensures |s| > 0 && '.' !in s
  {
    if n < 0 then "-" + NatToString(-n) else NatToString(n)
  }

  /** `'%i.%i' % (major, minor)`. */
  function FormatVersion(major: int, minor: int): string
  {
    IntToString(major) + "." + IntToString(minor)
  }

  lemma {:induction false} DigitsOfNat(n: nat)
    ensures DigitsValue(NatToString(n)) == n
  {
    if n >= 10 {
      var s := NatToString(n);
      DigitsOfNat(n / 10);
      assert s[..|s| - 1] == NatToString(n / 10);
    }
  }

  /** `int()` reads back what `'%i'` writes. */
  lemma ParseIntToString(n: int)
    ensures ParseInt(IntToString(n)) == Some(n)
  {
    if n < 0 {
      ParseNegative(n);
    } else {
      ParseNatural(n);
    }
  }

  /** A string that starts and ends with no whitespace is its own strip. */
  lemma StripUnspaced(s: string)
    requires |s| > 0 && !IsSpace(s[0]) && !IsSpace(s[|s| - 1])
    ensures Strip(s) == s
  {
    assert StripLeft(s) == s;
  }

  lemma ParseNatural(n: int)
    requires n >= 0
    ensures ParseInt(IntToString(n)) == Some(n)
  {
    var s := NatToString(n);
    assert IntToString(n) == s;
    assert IsDigit(s[0]) && IsDigit(s[|s| - 1]);
    StripUnspaced(s);
    DigitsOfNat(n);
    assert !(|s| > 0 && (s[0] == '-' || s[0] == '+'));
  }

  lemma ParseNegative(n: int)
    requires n < 0
    ensures ParseInt(IntToString(n)) == Some(n)
  {
    NegativeText(n);
    ParseMinusDigits(IntToString(n));
  }

  /** `'%i'` writes a negative number as a minus sign and the digits of its
      magnitude. */
  lemma NegativeText(n: int)
    requires n < 0
    ensures var s := IntToString(n);
      |s| > 1 && s[0] == '-' && AllDigits(s[1..]) && DigitsValue(s[1..]) == -n
  {
    var s := IntToString(n);
    var d := NatToString(-n);
    assert s == "-" + d;
    assert s[1..] == d;
    DigitsOfNat(-n);
  }



  /** The version the registry reports as supported is well-formed and reads
      back as the pair it was made from. */
  lemma FormatVersionReadsBack(major: int, minor: int)
    ensures VersionParts(FormatVersion(major, minor)) == Some((IntToString(major), minor))
    ensures VersionBits(FormatVersion(major, minor)) == Some([major, minor])
  {
    ParseIntToString(minor);
    VersionPartsOf(IntToString(major), IntToString(minor), minor);
    SplitFormatted(major, minor);
    IntsOfFormatted(major, minor);
  }

  lemma SplitFormatted(major: int, minor: int)
    ensures Split(FormatVersion(major, minor), '.') == [IntToString(major), IntToString(minor)]
  {
    var parts := [IntToString(major), IntToString(minor)];
    SplitJoin(parts, '.');
    assert Join(parts, '.') == FormatVersion(major, minor);
  }

  lemma IntsOfFormatted(major: int, minor: int)
    ensures IntsOf([IntToString(major), IntToString(minor)]) == Some([major, minor])
  {
    ParseIntToString(major);
    ParseIntToString(minor);
    IntsOfPair(IntToString(major), IntToString(minor), major, minor);
  }

  lemma IntsOfPair(x: string, y: string, a: int, b: int)
    requires ParseInt(x) == Some(a) && ParseInt(y) == Some(b)
    ensures IntsOf([x, y]) == Some([a, b])
  {
    IntsOfCons(y, [], b, []);
    assert [y] + [] == [y] && [b] + [] == [b];
    IntsOfCons(x, [y], a, [b]);
    assert [x] + [y] == [x, y] && [a] + [b] == [a, b];
  }

  lemma IntsOfCons(p: string, ps: seq<string>, x: int, xs: seq<int>)
    requires ParseInt(p) == Some(x) && IntsOf(ps) == Some(xs)
    ensures IntsOf([p] + ps) == Some([x] + xs)
  {
    var parts := [p] + ps;
    assert parts[0] == p && parts[1..] == ps;
  }


  /** Between two versions of one major, the check passes exactly when the
      client's minor does not exceed the server's, and otherwise reports
      both minors. */
  lemma SameMajorCompatibility(major: int, serverMinor: int, clientMinor: int)
    ensures CheckObjectVersion(FormatVersion(major, serverMinor), FormatVersion(major, clientMinor)) ==
      if clientMinor <= serverMinor then Pass else Fail(MinorMismatch(clientMinor, serverMinor))
  {
    FormatVersionReadsBack(major, serverMinor);
    FormatVersionReadsBack(major, clientMinor);
  }

  /** Versions of different majors never pass, whatever their minors. */
  lemma OtherMajorIncompatible(serverMajor: int, serverMinor: int, clientMajor: int, clientMinor: int)
    requires serverMajor != clientMajor
    ensures CheckObjectVersion(FormatVersion(serverMajor, serverMinor), FormatVersion(clientMajor, clientMinor)) ==
      Fail(MajorMismatch(IntToString(clientMajor), IntToString(serverMajor)))
  {
    FormatVersionReadsBack(serverMajor, serverMinor);
    FormatVersionReadsBack(clientMajor, clientMinor);
    ParseIntToString(serverMajor);
    ParseIntToString(clientMajor);
  }

  /** A version with a second dot is refused as malformed, not as a
      mismatch, whichever side it is on. */
  lemma ThreePartVersionMalformed(a: int, b: int, c: int, other: string)
    ensures CheckObjectVersion(FormatVersion(a, b) + "." + IntToString(c), other) == Fail(InvalidVersionString)
    ensures CheckObjectVersion(other, FormatVersion(a, b) + "." + IntToString(c)) == Fail(InvalidVersionString)
  {
    var v := FormatVersion(a, b) + "." + IntToString(c);
    var parts := [IntToString(a), IntToString(b), IntToString(c)];
    assert Join(parts, '.') == v by {
      assert parts[1..] == [IntToString(b), IntToString(c)];
      assert parts[1..][1..] == [IntToString(c)];
      assert Join(parts[1..], '.') == IntToString(b) + "." + IntToString(c);
    }
    SplitJoin(parts, '.');
    assert VersionParts(v).None?;
  }

  /** A minor with no digit in it is refused as malformed. */
  lemma NonNumericMinorMalformed(major: string, minorText: string, other: string)
    requires '.' !in major && '.' !in minorText
    requires forall i :: 0 <= i < |minorText| ==> !IsDigit(minorText[i])
    ensures CheckObjectVersion(major + "." + minorText, other) == Fail(InvalidVersionString)
    ensures CheckObjectVersion(other, major + "." + minorText) == Fail(InvalidVersionString)
  {
    SplitJoin([major, minorText], '.');
    assert Join([major, minorText], '.') == major + "." + minorText;
  }

  /** Worked examples: "1.5" is served by "1.9", "1.9" is not served
      by "1.5", and "2.0" is not served by "1.9". */
  lemma CompatibilityExamples()
    ensures CheckObjectVersion(FormatVersion(1, 9), FormatVersion(1, 5)) == Pass
    ensures CheckObjectVersion(FormatVersion(1, 5), FormatVersion(1, 9)) == Fail(MinorMismatch(9, 5))
    ensures CheckObjectVersion(FormatVersion(1, 9), FormatVersion(2, 0)).Fail?
  {
    SameMajorCompatibility(1, 9, 5);
    SameMajorCompatibility(1, 5, 9);
    OtherMajorIncompatible(1, 9, 2, 0);
  }

  /** A minus sign followed by digits reads as the negated digits. */
  lemma ParseMinusDigits(s: string)
    requires |s| > 1 && s[0] == '-' && AllDigits(s[1..])
    ensures ParseInt(s) == Some(-(DigitsValue(s[1..]) as int))
  {
    var d := s[1..];
    assert IsDigit(d[|d| - 1]) && s[|s| - 1] == d[|d| - 1];
    StripUnspaced(s);
    StrippedMinus(s, 1, d);
  }


  /** A minus sign, one whitespace character, then digits: the whitespace
      after the sign is skipped. */
  lemma ParseSpacedMinus(minor: string)
    requires |minor| > 2 && minor[0] == '-' && IsSpace(minor[1])
    requires AllDigits(minor[2..])
    ensures ParseInt(minor) == Some(-(DigitsValue(minor[2..]) as int))
  {
    var d := minor[2..];
    assert IsDigit(d[|d| - 1]) && minor[|minor| - 1] == d[|d| - 1];
    StripUnspaced(minor);
    assert IsDigit(minor[2]) by { assert minor[2] == d[0]; }
    StrippedMinus(minor, 2, d);
  }


  /** A minus sign, whitespace up to `k`, then the digits `d`. */
  lemma StrippedMinus(t: string, k: nat, d: string)
    requires 1 <= k < |t| && t[0] == '-' && t[k..] == d
    requires |d| > 0 && AllDigits(d)
    requires forall j :: 1 <= j < k ==> IsSpace(t[j])
    ensures ParseStripped(t) == Some(-(DigitsValue(d) as int))
  {
    assert !IsSpace(t[k]) by { assert t[k] == d[0] && IsDigit(d[0]); }
    SpacesFromReaches(t, 1, k);
  }

  lemma SpacesFromReaches(t: string, i: nat, k: nat)
    requires i <= k < |t| && !IsSpace(t[k])
    requires forall j :: i <= j < k ==> IsSpace(t[j])
    ensures SpacesFrom(t, i) == k
    decreases k - i
  {
    if i < k { SpacesFromReaches(t, i + 1, k); }
  }


  lemma SpacedSignExample()
    ensures ParseInt("- 5") == Some(-5)
  {
    var minor := "- 5";
    assert minor[2..] == "5" && DigitsValue("5") == 5 by { assert "5"[..0] == ""; }
    ParseSpacedMinus(minor);
  }

  /** A client at minor 0 against a server whose minor text reads as a
      negative number, such as "- 5": the minors are compared, and the
      client is newer. */
  lemma MinorAboveServer(major: string, minor: string)
    requires '.' !in major && '.' !in minor
    requires ParseInt(minor).Some? && ParseInt(minor).value < 0
    ensures CheckObjectVersion(major + "." + minor, major + "." + "0") ==
            Fail(MinorMismatch(0, ParseInt(minor).value))
  {
    VersionPartsOf(major, minor, ParseInt(minor).value);
    ParseIntToString(0);
    assert IntToString(0) == "0";
    VersionPartsOf(major, "0", 0);
  }

}
