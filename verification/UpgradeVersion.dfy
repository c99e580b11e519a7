/** The upgrade command's own version order (cmd/pasture/cmd_upgrade.go), and where it
    agrees with the release order of SemVer. */
module UpgradeVersion {
  import opened Wrappers
  import opened Orders
  import opened Numerals
  import opened Text
  import opened SemVer

  /** int is 64 bits wide: strconv.Atoi fails from here on. */
  const INT_LIMIT: nat := 0x8000_0000_0000_0000

  datatype UpgradeVersion = UpgradeVersion(major: nat, minor: nat, patch: nat, prerelease: seq<string>)

  // ----- parsing -----

  function TrimPrefix(s: string, c: char): string {
    if s != "" && s[0] == c then s[1..] else s
  }

  function ParseComponent(part: string): Option<nat> {
    if Canonical(part, 10) && Value(part, 10) < INT_LIMIT then Some(Value(part, 10)) else None
  }

  predicate AcceptedField(field: string) {
    field != "" && forall c | c in field :: IdentifierChar(c)
  }

  /** parseUpgradeVersion: surrounding space, one leading "v" and build metadata are dropped. */
  function ParsedUpgrade(version: string): Option<UpgradeVersion> {
    var original := TrimSpace(version);
    if original == "" then None else ParsedBare(TrimPrefix(original, 'v'))
  }

  function ParsedBare(version: string): Option<UpgradeVersion> {
    var (withoutBuild, _, _) := Cut(version, '+');
    var (core, pre, hasPre) := Cut(withoutBuild, '-');
    var parts := Split(core, '.');
    if |parts| != 3 then None
    else
      match (ParseComponent(parts[0]), ParseComponent(parts[1]), ParseComponent(parts[2]))
      case (Some(major), Some(minor), Some(patch)) =>
        if !hasPre then Some(UpgradeVersion(major, minor, patch, []))
        else if pre != "" && forall field | field in Split(pre, '.') :: AcceptedField(field)
        then Some(UpgradeVersion(major, minor, patch, Split(pre, '.')))
        else None
      case _ => None
  }

  // ----- comparison -----

  /** parseNumericIdentifier: digits whose value fits in an int. */
  function NumericField(field: string): Option<nat> {
    if IsNumeric(field) && Value(field, 10) < INT_LIMIT then Some(Value(field, 10)) else None
  }

  function CompareField(a: string, b: string): int {
    match (NumericField(a), NumericField(b))
    case (Some(m), Some(n)) => CompareInt(m, n)
    case (Some(_), None) => -1
    case (None, Some(_)) => 1
    case (None, None) => CompareString(a, b)
  }

  function ComparePrerelease(a: seq<string>, b: seq<string>): int {
    if a == [] then (if b == [] then 0 else 1)
    else if b == [] then -1
    else CompareSeq(CompareField, a, b)
  }

  function CompareUpgrade(a: UpgradeVersion, b: UpgradeVersion): int {
    if a.major != b.major then CompareInt(a.major, b.major)
    else if a.minor != b.minor then CompareInt(a.minor, b.minor)
    else if a.patch != b.patch then CompareInt(a.patch, b.patch)
    else ComparePrerelease(a.prerelease, b.prerelease)
  }

  lemma FieldsAreOrdered()
    ensures Comparator(CompareField)
  {
    StringOrder();
  }

  /** The upgrade order is a total preorder on everything the parser accepts, and beyond:
      leading zeros, mixed fields and numbers too large for an int included. */
  lemma UpgradeIsPreorder()
    ensures Comparator(CompareUpgrade)
  {
    FieldsAreOrdered();
    forall a: UpgradeVersion, b: UpgradeVersion
      ensures -1 <= CompareUpgrade(a, b) <= 1 && CompareUpgrade(a, b) == -CompareUpgrade(b, a)
    {
      CompareSeqAntisymmetric(CompareField, a.prerelease, b.prerelease);
    }
    forall a: UpgradeVersion, b: UpgradeVersion, c: UpgradeVersion | CompareUpgrade(a, b) <= 0 && CompareUpgrade(b, c) <= 0
      ensures CompareUpgrade(a, c) <= 0
    {
      if a.prerelease != [] && b.prerelease != [] && c.prerelease != []
         && CompareSeq(CompareField, a.prerelease, b.prerelease) <= 0
         && CompareSeq(CompareField, b.prerelease, c.prerelease) <= 0 {
        CompareSeqTransitive(CompareField, a.prerelease, b.prerelease, c.prerelease);
      }
    }
  }

  // ----- the two orders against each other -----

  predicate CoreFits(v: Version) {
    v.major < INT_LIMIT && v.minor < INT_LIMIT && v.patch < INT_LIMIT
  }

  predicate FieldFits(field: string) {
    IsNumeric(field) ==> Value(field, 10) < INT_LIMIT
  }

  predicate Fits(v: Version) {
    CoreFits(v) && forall field | field in Fields(v.pre) :: FieldFits(field)
  }

  /** The upgrade command's reading of a release version. */
  function AsUpgrade(v: Version): UpgradeVersion {
    UpgradeVersion(v.major, v.minor, v.patch, Fields(v.pre))
  }

  /** A version string ParseVersion accepts is accepted here, with or without a leading "v" and
      with the same parts, exactly when its three numbers fit in an int. */
  lemma UpgradeAcceptsReleases(v: Version)
    requires Valid(v)
    ensures ParsedUpgrade(v.value) == ParsedUpgrade("v" + v.value)
         == if CoreFits(v) then Some(AsUpgrade(v)) else None
  {
    BareRelease(v);
    NoSpaces(v);
    CoreShape(v.major, v.minor, v.patch);
    ParsedIsCanonical(v.value);
    assert v.value[0] == Core(v.major, v.minor, v.patch)[0] && ("v" + v.value)[1..] == v.value;
    TrimSpaceClean(v.value);
    TrimSpaceClean("v" + v.value);
  }

  lemma BareRelease(v: Version)
    requires Valid(v)
    ensures ParsedBare(v.value) == if CoreFits(v) then Some(AsUpgrade(v)) else None
  {
    var core := Core(v.major, v.minor, v.patch);
    ParsedIsCanonical(v.value);
    CoreShape(v.major, v.minor, v.patch);
    ComponentOfDigits(v.major);
    ComponentOfDigits(v.minor);
    ComponentOfDigits(v.patch);
    NoSpaces(v);
    CutWithout(v.value, '+');
    if v.pre == "" {
      assert v.value == core;
      CutWithout(core, '-');
    } else {
      assert v.value == core + ['-'] + v.pre;
      CutPrefixed(core, v.pre, '-');
      assert forall field | field in Split(v.pre, '.') :: ValidField(field);
    }
  }

  lemma ComponentOfDigits(n: nat)
    ensures ParseComponent(Digits(n, 10)) == if n < INT_LIMIT then Some(n) else None
  {
    ValueOfDigits(n, 10);
  }

  lemma NoSpaces(v: Version)
    requires Valid(v)
    ensures v.value != "" && forall c | c in v.value :: Visible(c) && c != '+'
  {
    hide Parsed, ValidPre, Digits, Join, Value;
    ParsedIsCanonical(v.value);
    DigitsAreDigits(v.major);
    DigitsAreDigits(v.minor);
    DigitsAreDigits(v.patch);
    CoreSpelling(Digits(v.major, 10), Digits(v.minor, 10), Digits(v.patch, 10));
    if v.pre != "" {
      ValidPreChars(v.pre);
    }
  }

  /** On versions whose numbers all fit in an int the two orders have the same sign. */
  lemma OrdersAgree(u: Version, v: Version)
    requires Fits(u) && Fits(v)
    ensures CompareUpgrade(AsUpgrade(u), AsUpgrade(v)) == ComparePrecedence(PrecedenceOf(u), PrecedenceOf(v))
  {
    CoreOrder([u.major, u.minor, u.patch], [v.major, v.minor, v.patch]);
    FieldOrdersAgree(Fields(u.pre), Fields(v.pre));
  }

  lemma {:induction false} FieldOrdersAgree(a: seq<string>, b: seq<string>)
    requires (forall field | field in a :: FieldFits(field)) && (forall field | field in b :: FieldFits(field))
    ensures CompareSeq(CompareField, a, b) == CompareSeq(CompareIdentifier, Identifiers(a), Identifiers(b))
    decreases |a|
  {
    assert |Identifiers(a)| == |a| && |Identifiers(b)| == |b|;
    if a != [] && b != [] {
      FieldOrdersAgree(a[1..], b[1..]);
      assert FieldFits(a[0]) && FieldFits(b[0]);
      assert Identifiers(a)[1..] == Identifiers(a[1..]) && Identifiers(b)[1..] == Identifiers(b[1..]);
    }
  }

  /** A version whose core fits agrees with every version that fits exactly when it fits
      itself: one oversized numeric identifier already gives an opposite answer somewhere. */
  lemma AgreementIsFitting(v: Version)
    requires Valid(v) && CoreFits(v)
    ensures Fits(v) <==>
            forall w: Version | Valid(w) && Fits(w) ::
              CompareUpgrade(AsUpgrade(v), AsUpgrade(w)) == ComparePrecedence(PrecedenceOf(v), PrecedenceOf(w))
  {
    if Fits(v) {
      forall w: Version | Valid(w) && Fits(w)
        ensures CompareUpgrade(AsUpgrade(v), AsUpgrade(w)) == ComparePrecedence(PrecedenceOf(v), PrecedenceOf(w))
      {
        OrdersAgree(v, w);
      }
    } else {
      var w := Opponent(v);
    }
  }

  /** A version that fits and that the two orders place on different sides of v. */
  lemma Opponent(v: Version) returns (w: Version)
    requires Valid(v) && CoreFits(v) && !Fits(v)
    ensures Valid(w) && Fits(w)
    ensures CompareUpgrade(AsUpgrade(v), AsUpgrade(w)) == 1 && ComparePrecedence(PrecedenceOf(v), PrecedenceOf(w)) == -1
  {
    ParsedIsCanonical(v.value);
    var a := Fields(v.pre);
    assert forall field | field in a :: ValidField(field);
    hide Parsed, ValidPre, Render;
    var k := FirstOversized(a);
    var b := a[..k] + ["-"];
    assert ValidField("-") && FieldFits("-") by { assert !IsNumeric("-") by { assert DigitValue("-"[0]) == 16; } }
    var pre := JoinFields(b);
    CanonicalIsParsed(v.major, v.minor, v.patch, pre);
    w := Version(Render(v.major, v.minor, v.patch, pre), v.major, v.minor, v.patch, pre);
    FieldsDisagree(a, b, k);
    CoreOrder([v.major, v.minor, v.patch], [w.major, w.minor, w.patch]);
  }

  /** Versions that do not fit exist: any number from 2^63 on may stand as a prerelease. */
  lemma OversizedIsValid(n: nat) returns (v: Version)
    requires n >= INT_LIMIT
    ensures Valid(v) && CoreFits(v) && v.pre == Digits(n, 10) && !Fits(v)
  {
    var pre := Digits(n, 10);
    ValueOfDigits(n, 10);
    DigitsAreDigits(n);
    hide Digits;
    SplitWithout(pre, '.');
    assert ValidField(pre) && ValidPre(pre);
    CanonicalIsParsed(1, 0, 0, pre);
    v := Version(Render(1, 0, 0, pre), 1, 0, 0, pre);
    assert pre in Fields(v.pre) && IsNumeric(pre) && !FieldFits(pre);
  }

  lemma JoinFields(fields: seq<string>) returns (pre: string)
    requires fields != [] && forall field | field in fields :: ValidField(field)
    ensures ValidPre(pre) && Split(pre, '.') == fields
  {
    pre := Join(fields, '.');
    forall field | field in fields ensures '.' !in field {
      assert ValidField(field);
    }
    SplitOfJoin(fields, '.');
    assert Split("", '.') == [""] && !ValidField("");
  }

  lemma FieldsDisagree(a: seq<string>, b: seq<string>, k: nat)
    requires (forall field | field in a :: ValidField(field)) && (forall field | field in b :: ValidField(field))
    requires k < |a| && !FieldFits(a[k]) && b == a[..k] + ["-"]
    ensures ComparePrerelease(a, b) == 1 && ComparePre(Identifiers(a), Identifiers(b)) == -1
  {
    assert a[..k] == b[..k] && b[k] == "-";
    assert !IsNumeric("-") by { assert DigitValue("-"[0]) == 16; }
    DifferenceDecides(a, b, k);
    FieldsAreOrdered();
    forall i | 0 <= i < k ensures a[i] == b[i] && CompareField(a[i], b[i]) == 0 {
      assert a[..k][i] == a[i];
      assert CompareField(a[i], a[i]) == -CompareField(a[i], a[i]);
    }
    CommonPrefix(CompareField, a, b, k);
    assert DigitValue(a[k][0]) < 10;
    assert CompareString(a[k], "-") == 1;
  }

  lemma FirstOversized(a: seq<string>) returns (k: nat)
    requires exists field :: field in a && !FieldFits(field)
    ensures k < |a| && !FieldFits(a[k]) && forall field | field in a[..k] :: FieldFits(field)
  {
    k := 0;
    while FieldFits(a[k])
      invariant k < |a| && forall field | field in a[..k] :: FieldFits(field)
      invariant exists field :: field in a[k..] && !FieldFits(field)
      decreases |a| - k
    {
      assert a[k..] == [a[k]] + a[k + 1..];
      assert a[..k + 1] == a[..k] + [a[k]];
      k := k + 1;
    }
  }
}
