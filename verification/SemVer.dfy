/** Release versions (artifact/aggregate_types.go) against section 11 of Semantic
    Versioning 2.0.0. */
module SemVer {
  import opened Wrappers
  import opened Orders
  import opened Numerals
  import opened Text

  datatype Version = Version(value: string, major: nat, minor: nat, patch: nat, pre: string)

  // ----- precedence, as section 11 words it -----

  datatype Identifier = Numeric(number: nat) | Alphanumeric(text: string)

  datatype Precedence = Precedence(core: seq<int>, pre: seq<Identifier>)

  function CompareIdentifier(a: Identifier, b: Identifier): int {
    match (a, b)
    case (Numeric(m), Numeric(n)) => CompareInt(m, n)
    case (Numeric(_), Alphanumeric(_)) => -1
    case (Alphanumeric(_), Numeric(_)) => 1
    case (Alphanumeric(s), Alphanumeric(t)) => CompareString(s, t)
  }

  /** A version without prerelease identifiers comes after the same core with some. */
  function ComparePre(a: seq<Identifier>, b: seq<Identifier>): int {
    if a == [] then (if b == [] then 0 else 1)
    else if b == [] then -1
    else CompareSeq(CompareIdentifier, a, b)
  }

  function ComparePrecedence(a: Precedence, b: Precedence): int {
    var c := CompareSeq(CompareInt, a.core, b.core);
    if c != 0 then c else ComparePre(a.pre, b.pre)
  }

  /** "Compared field by field until a difference is found; a larger set of fields wins." */
  ghost predicate FieldsPrecede(a: seq<Identifier>, b: seq<Identifier>) {
    exists i: nat :: DifferAt(a, b, i)
  }

  ghost predicate DifferAt(a: seq<Identifier>, b: seq<Identifier>, i: nat) {
    && i <= |a| && i < |b| && a[..i] == b[..i]
    && (i < |a| ==> CompareIdentifier(a[i], b[i]) < 0)
  }

  function ToIdentifier(field: string): Identifier {
    if IsNumeric(field) then Numeric(Value(field, 10)) else Alphanumeric(field)
  }

  predicate IsNumeric(field: string) {
    field != "" && AllDigits(field, 10)
  }

  function Fields(pre: string): seq<string> {
    if pre == "" then [] else Split(pre, '.')
  }

  function Identifiers(fields: seq<string>): (ids: seq<Identifier>)
    ensures |ids| == |fields| && forall i | 0 <= i < |ids| :: ids[i] == ToIdentifier(fields[i])
  {
    seq(|fields|, i requires 0 <= i < |fields| => ToIdentifier(fields[i]))
  }

  function PrecedenceOf(v: Version): Precedence {
    Precedence([v.major, v.minor, v.patch], Identifiers(Fields(v.pre)))
  }

  // ----- parsing -----

  predicate IdentifierChar(c: char) {
    c == '-' || '0' <= c <= '9' || 'A' <= c <= 'Z' || 'a' <= c <= 'z'
  }

  predicate ValidField(field: string) {
    && field != "" && (forall c | c in field :: IdentifierChar(c))
    && (AllDigits(field, 10) ==> Canonical(field, 10))
  }

  predicate ValidPre(pre: string) {
    pre != "" && forall field | field in Split(pre, '.') :: ValidField(field)
  }

  predicate ValidNumber(part: string) {
    Canonical(part, 10) && Value(part, 10) < UINT64_LIMIT
  }

  /** What ParseVersion accepts, and with which result. */
  function Parsed(value: string): Option<Version> {
    if value == "" || value[0] == 'v' || '+' in value then None
    else
      var (core, pre, hasPre) := Cut(value, '-');
      var parts := Split(core, '.');
      if |parts| != 3 || (hasPre && !ValidPre(pre)) then None
      else if ValidNumber(parts[0]) && ValidNumber(parts[1]) && ValidNumber(parts[2])
      then Some(Version(value, Value(parts[0], 10), Value(parts[1], 10), Value(parts[2], 10), pre))
      else None
  }

  /** A constructed Version value. */
  ghost predicate Valid(v: Version) {
    Parsed(v.value) == Some(v)
  }

  method ValidPrerelease(value: string) returns (valid: bool)
    ensures valid == ValidPre(value)
  {
    if value == "" {
      return false;
    }
    var parts := Split(value, '.');
    for i := 0 to |parts|
      invariant forall k | 0 <= k < i :: ValidField(parts[k])
    {
      var part := parts[i];
      var allNumeric := true;
      for k := 0 to |part|
        invariant allNumeric == AllDigits(part[..k], 10)
      {
        assert part[..k + 1] == part[..k] + [part[k]];
        allNumeric := allNumeric && '0' <= part[k] <= '9';
      }
      assert part[..|part|] == part;
      if part == "" || (allNumeric && |part| > 1 && part[0] == '0') {
        assert !ValidField(part);
        return false;
      }
      for k := 0 to |part|
        invariant forall j | 0 <= j < k :: IdentifierChar(part[j])
      {
        if !IdentifierChar(part[k]) {
          assert part[k] in part && !ValidField(part);
          return false;
        }
      }
    }
    return true;
  }

  method ParseVersion(value: string) returns (result: Option<Version>)
    ensures result == Parsed(value)
  {
    if value == "" || value[0] == 'v' || '+' in value {
      return None;
    }
    var (core, pre, hasPre) := Cut(value, '-');
    var parts := Split(core, '.');
    var preOk := true;
    if hasPre {
      preOk := ValidPrerelease(pre);
    }
    if |parts| != 3 || !preOk {
      return None;
    }
    var numbers: seq<nat> := [];
    for i := 0 to 3
      invariant |numbers| == i
      invariant forall k | 0 <= k < i :: ValidNumber(parts[k]) && numbers[k] == Value(parts[k], 10)
    {
      var part := parts[i];
      if part == "" || (|part| > 1 && part[0] == '0') || !AllDigits(part, 10) || Value(part, 10) >= UINT64_LIMIT {
        assert !ValidNumber(part);
        return None;
      }
      numbers := numbers + [Value(part, 10)];
    }
    return Some(Version(value, numbers[0], numbers[1], numbers[2], pre));
  }

  // ----- the canonical form -----

  function Render(major: nat, minor: nat, patch: nat, pre: string): string {
    Core(major, minor, patch) + if pre == "" then "" else ['-'] + pre
  }

  function Core(major: nat, minor: nat, patch: nat): string {
    Join([Digits(major, 10), Digits(minor, 10), Digits(patch, 10)], '.')
  }

  lemma DigitsAreDigits(n: nat)
    ensures forall c | c in Digits(n, 10) :: '0' <= c <= '9'
    ensures Digits(n, 10) != ""
  {
    ValueOfDigits(n, 10);
    var s := Digits(n, 10);
    forall c | c in s ensures '0' <= c <= '9' {
      var k :| 0 <= k < |s| && s[k] == c;
    }
  }

  lemma CoreSpelling(a: string, b: string, c: string)
    ensures Join([a, b, c], '.') == a + ['.'] + (b + ['.'] + c)
  {
    assert [a, b, c][1..] == [b, c] && [b, c][1..] == [c];
    assert Join([b, c], '.') == b + ['.'] + Join([c], '.');
  }

  lemma CoreShape(major: nat, minor: nat, patch: nat)
    ensures var core := Core(major, minor, patch);
            && core != "" && '0' <= core[0] <= '9' && '-' !in core && '+' !in core
            && Split(core, '.') == [Digits(major, 10), Digits(minor, 10), Digits(patch, 10)]
  {
    DigitsAreDigits(major);
    DigitsAreDigits(minor);
    DigitsAreDigits(patch);
    CoreOf(Digits(major, 10), Digits(minor, 10), Digits(patch, 10));
  }

  lemma CoreOf(a: string, b: string, c: string)
    requires a != "" && forall d | d in a || d in b || d in c :: '0' <= d <= '9'
    ensures var core := Join([a, b, c], '.');
            && core != "" && '0' <= core[0] <= '9' && '-' !in core && '+' !in core
            && Split(core, '.') == [a, b, c]
  {
    CoreSpelling(a, b, c);
    SplitOfJoin([a, b, c], '.');
    assert a[0] in a;
  }

  /** The only characters of a prerelease are its separators and those of its fields. */
  lemma ValidPreChars(pre: string)
    requires ValidPre(pre)
    ensures forall c | c in pre :: c == '.' || IdentifierChar(c)
  {
    JoinOfSplit(pre, '.');
    JoinedChars(Split(pre, '.'));
  }

  lemma {:induction false} JoinedChars(fields: seq<string>)
    requires forall field | field in fields :: ValidField(field)
    ensures forall c | c in Join(fields, '.') :: c == '.' || IdentifierChar(c)
  {
    if |fields| == 1 {
      assert ValidField(fields[0]);
    } else if |fields| > 1 {
      assert ValidField(fields[0]);
      JoinedChars(fields[1..]);
    }
  }

  /** ParseVersion accepts exactly the canonical spellings, and a version is determined by
      its numbers and its prerelease text. */
  lemma ParsedIsCanonical(value: string)
    ensures Parsed(value).Some? ==>
              var v := Parsed(value).value;
              && v.major < UINT64_LIMIT && v.minor < UINT64_LIMIT && v.patch < UINT64_LIMIT
              && (v.pre == "" || ValidPre(v.pre))
              && value == v.value == Render(v.major, v.minor, v.patch, v.pre)
  {
    if Parsed(value).Some? {
      CutParts(value, '-');
      var (core, pre, hasPre) := Cut(value, '-');
      var parts := Split(core, '.');
      assert |parts| == 3 && parts == [parts[0], parts[1], parts[2]];
      assert ValidNumber(parts[0]) && ValidNumber(parts[1]) && ValidNumber(parts[2]);
      assert Parsed(value) == Some(Version(value, Value(parts[0], 10), Value(parts[1], 10), Value(parts[2], 10), pre));
      assert hasPre ==> ValidPre(pre) && pre != "" by { assert Split("", '.') == [""] && !ValidField(""); }
      hide Parsed, Cut, Split, Value, ValidPre, Core, ValidNumber;
      NumbersSpell(core, parts[0], parts[1], parts[2]);
    }
  }

  lemma NumbersSpell(core: string, a: string, b: string, c: string)
    requires Split(core, '.') == [a, b, c] && ValidNumber(a) && ValidNumber(b) && ValidNumber(c)
    ensures core == Core(Value(a, 10), Value(b, 10), Value(c, 10))
    ensures Value(a, 10) < UINT64_LIMIT && Value(b, 10) < UINT64_LIMIT && Value(c, 10) < UINT64_LIMIT
  {
    hide Split;
    DigitsOfValue(a, 10);
    DigitsOfValue(b, 10);
    DigitsOfValue(c, 10);
    hide Value, Digits;
    JoinOfSplit(core, '.');
  }

  lemma CanonicalIsParsed(major: nat, minor: nat, patch: nat, pre: string)
    requires major < UINT64_LIMIT && minor < UINT64_LIMIT && patch < UINT64_LIMIT
    requires pre == "" || ValidPre(pre)
    ensures Parsed(Render(major, minor, patch, pre))
         == Some(Version(Render(major, minor, patch, pre), major, minor, patch, pre))
  {
    var core, value := Core(major, minor, patch), Render(major, minor, patch, pre);
    CoreShape(major, minor, patch);
    ValueOfDigits(major, 10);
    ValueOfDigits(minor, 10);
    ValueOfDigits(patch, 10);
    if pre == "" {
      assert value == core;
      CutWithout(core, '-');
    } else {
      ValidPreChars(pre);
      assert value == core + ['-'] + pre;
      CutPrefixed(core, pre, '-');
    }
    assert value[0] == core[0];
  }

  // ----- comparison -----

  /** Version.Compare: the raw strings, compared by length and text, give the precedence of
      section 11. */
  method Compare(v: Version, other: Version) returns (order: int)
    requires Valid(v) && Valid(other)
    ensures order == ComparePrecedence(PrecedenceOf(v), PrecedenceOf(other))
  {
    CoreOrder([v.major, v.minor, v.patch], [other.major, other.minor, other.patch]);
    var pairs := [(v.major, other.major), (v.minor, other.minor), (v.patch, other.patch)];
    for i := 0 to 3
      invariant i > 0 ==> v.major == other.major
      invariant i > 1 ==> v.minor == other.minor
      invariant i > 2 ==> v.patch == other.patch
    {
      if pairs[i].0 < pairs[i].1 {
        return -1;
      }
      if pairs[i].0 > pairs[i].1 {
        return 1;
      }
    }
    if v.pre == other.pre {
      PreReflexive(Identifiers(Fields(v.pre)));
      return 0;
    }
    if v.pre == "" {
      return 1;
    }
    if other.pre == "" {
      return -1;
    }
    ParsedIsCanonical(v.value);
    ParsedIsCanonical(other.value);
    order := CompareFields(v.pre, other.pre);
  }

  /** The field loop of Version.Compare. */
  method CompareFields(p: string, q: string) returns (order: int)
    requires ValidPre(p) && ValidPre(q) && p != q
    ensures order == ComparePre(Identifiers(Split(p, '.')), Identifiers(Split(q, '.')))
  {
    var a, b := Split(p, '.'), Split(q, '.');
    var i := 0;
    while i < |a| && i < |b|
      invariant i <= |a| && i <= |b|
      invariant a[..i] == b[..i]
    {
      if a[i] == b[i] {
        i := i + 1;
        continue;
      }
      DifferenceDecides(a, b, i);
      var aNumeric, bNumeric := IsNumeric(a[i]), IsNumeric(b[i]);
      if aNumeric && bNumeric {
        if |a[i]| < |b[i]| || (|a[i]| == |b[i]| && CompareString(a[i], b[i]) < 0) {
          return -1;
        }
        return 1;
      }
      if aNumeric {
        return -1;
      }
      if bNumeric {
        return 1;
      }
      if CompareString(a[i], b[i]) < 0 {
        return -1;
      }
      return 1;
    }
    PrefixDecides(p, q, i);
    if |a| < |b| {
      return -1;
    }
    return 1;
  }

  lemma CoreOrder(a: seq<int>, b: seq<int>)
    requires |a| == |b| == 3
    ensures CompareSeq(CompareInt, a, b)
         == if a[0] != b[0] then CompareInt(a[0], b[0])
            else if a[1] != b[1] then CompareInt(a[1], b[1])
            else CompareInt(a[2], b[2])
  {
    CommonPrefix(CompareInt, a, b, if a[0] != b[0] then 0 else if a[1] != b[1] then 1 else if a[2] != b[2] then 2 else 3);
  }

  /** Where two field lists first differ, the raw fields decide as the identifiers do. */
  lemma DifferenceDecides(a: seq<string>, b: seq<string>, i: nat)
    requires i < |a| && i < |b| && a[..i] == b[..i] && a[i] != b[i]
    requires (forall field | field in a :: ValidField(field)) && (forall field | field in b :: ValidField(field))
    ensures CompareString(a[i], b[i]) != 0 && -1 <= CompareString(a[i], b[i]) <= 1
    ensures ComparePre(Identifiers(a), Identifiers(b))
         == if IsNumeric(a[i]) && IsNumeric(b[i]) then CompareByLength(a[i], b[i])
            else if IsNumeric(a[i]) then -1 else if IsNumeric(b[i]) then 1
            else CompareString(a[i], b[i])
  {
    StringOrder();
    FieldOrder(a[i], b[i]);
    SharedFields(a, b, i);
    assert CompareIdentifier(Identifiers(a)[i], Identifiers(b)[i]) != 0;
  }

  /** Fields that agree up to i leave the decision to the rest. */
  lemma SharedFields(a: seq<string>, b: seq<string>, i: nat)
    requires i <= |a| && i <= |b| && a[..i] == b[..i]
    ensures CompareSeq(CompareIdentifier, Identifiers(a), Identifiers(b))
         == CompareSeq(CompareIdentifier, Identifiers(a)[i..], Identifiers(b)[i..])
  {
    IdentifierOrder();
    forall k | 0 <= k < i
      ensures Identifiers(a)[k] == Identifiers(b)[k] && CompareIdentifier(Identifiers(a)[k], Identifiers(b)[k]) == 0
    {
      assert a[..i][k] == b[..i][k];
      var id := Identifiers(a)[k];
      assert CompareIdentifier(id, id) == -CompareIdentifier(id, id);
    }
    CommonPrefix(CompareIdentifier, Identifiers(a), Identifiers(b), i);
  }

  /** Of two different prereleases with agreeing fields the shorter comes first. */
  lemma PrefixDecides(p: string, q: string, i: nat)
    requires p != q && p != "" && q != ""
    requires i <= |Split(p, '.')| && i <= |Split(q, '.')| && (i == |Split(p, '.')| || i == |Split(q, '.')|)
    requires Split(p, '.')[..i] == Split(q, '.')[..i]
    ensures ComparePre(Identifiers(Split(p, '.')), Identifiers(Split(q, '.')))
         == if |Split(p, '.')| < |Split(q, '.')| then -1 else 1
  {
    var a, b := Split(p, '.'), Split(q, '.');
    SharedFields(a, b, i);
    if |a| == |b| {
      assert a == a[..i] && b == b[..i];
    }
    JoinOfSplit(p, '.');
    JoinOfSplit(q, '.');
  }

  /** Two different fields of valid prereleases compare as their identifiers do. */
  lemma FieldOrder(a: string, b: string)
    requires ValidField(a) && ValidField(b) && a != b
    ensures CompareString(a, b) != 0
    ensures CompareIdentifier(ToIdentifier(a), ToIdentifier(b))
         == if IsNumeric(a) && IsNumeric(b) then CompareByLength(a, b)
            else if IsNumeric(a) then -1 else if IsNumeric(b) then 1
            else CompareString(a, b)
  {
    StringOrder();
    if IsNumeric(a) && IsNumeric(b) {
      LengthOrderIsNumeric(a, b);
    }
  }

  /** Equal heads do not decide a lexicographic comparison. */
  lemma {:induction false} CommonPrefix<T>(cmp: (T, T) -> int, a: seq<T>, b: seq<T>, n: nat)
    requires n <= |a| && n <= |b|
    requires forall k | 0 <= k < n :: a[k] == b[k] && cmp(a[k], b[k]) == 0
    ensures CompareSeq(cmp, a, b) == CompareSeq(cmp, a[n..], b[n..])
  {
    if n == 0 {
      assert a[0..] == a && b[0..] == b;
    } else {
      forall k | 0 <= k < n - 1 ensures a[1..][k] == b[1..][k] && cmp(a[1..][k], b[1..][k]) == 0 {
        assert a[1..][k] == a[k + 1] && b[1..][k] == b[k + 1];
      }
      CommonPrefix(cmp, a[1..], b[1..], n - 1);
      assert a[1..][n - 1..] == a[n..] && b[1..][n - 1..] == b[n..];
    }
  }

  lemma IdentifierOrder()
    ensures Comparator(CompareIdentifier) && Exact(CompareIdentifier)
  {
    hide CompareString;
    StringOrder();
  }

  lemma PreReflexive(a: seq<Identifier>)
    ensures ComparePre(a, a) == 0
  {
    IdentifierOrder();
    CompareSeqAntisymmetric(CompareIdentifier, a, a);
  }

  /** Section 11's order of field lists is the lexicographic order. */
  lemma {:induction false} LexicographicIsFieldwise(a: seq<Identifier>, b: seq<Identifier>)
    ensures CompareSeq(CompareIdentifier, a, b) < 0 <==> FieldsPrecede(a, b)
  {
    IdentifierOrder();
    if CompareSeq(CompareIdentifier, a, b) < 0 {
      FirstDifference(a, b);
    }
    if i: nat :| DifferAt(a, b, i) {
      forall k | 0 <= k < i ensures a[k] == b[k] && CompareIdentifier(a[k], b[k]) == 0 {
        assert a[..i][k] == b[..i][k];
        assert CompareIdentifier(a[k], a[k]) == -CompareIdentifier(a[k], a[k]);
      }
      CommonPrefix(CompareIdentifier, a, b, i);
    }
  }

  lemma {:induction false} FirstDifference(a: seq<Identifier>, b: seq<Identifier>)
    requires CompareSeq(CompareIdentifier, a, b) < 0
    ensures FieldsPrecede(a, b)
  {
    if a == [] {
      assert DifferAt(a, b, 0);
    } else if CompareIdentifier(a[0], b[0]) < 0 {
      assert DifferAt(a, b, 0);
    } else {
      FirstDifference(a[1..], b[1..]);
      var i: nat :| DifferAt(a[1..], b[1..], i);
      StringOrder();
      assert a[0] == b[0];
      assert a[..i + 1] == [a[0]] + a[1..][..i] && b[..i + 1] == [b[0]] + b[1..][..i];
      assert DifferAt(a, b, i + 1);
    }
  }

  lemma PrecedenceIsComparator()
    ensures Comparator(ComparePrecedence)
  {
    IdentifierOrder();
    forall a: Precedence, b: Precedence
      ensures -1 <= ComparePrecedence(a, b) <= 1 && ComparePrecedence(a, b) == -ComparePrecedence(b, a)
    {
      CompareSeqAntisymmetric(CompareInt, a.core, b.core);
      CompareSeqAntisymmetric(CompareIdentifier, a.pre, b.pre);
    }
    forall a: Precedence, b: Precedence, c: Precedence | ComparePrecedence(a, b) <= 0 && ComparePrecedence(b, c) <= 0
      ensures ComparePrecedence(a, c) <= 0
    {
      PrecedenceTransitive(a, b, c);
    }
  }

  lemma PrecedenceTransitive(a: Precedence, b: Precedence, c: Precedence)
    requires ComparePrecedence(a, b) <= 0 && ComparePrecedence(b, c) <= 0
    ensures ComparePrecedence(a, c) <= 0
  {
    IdentifierOrder();
    CompareSeqTransitive(CompareInt, a.core, b.core, c.core);
    if CompareSeq(CompareInt, a.core, c.core) == 0 {
      CompareSeqExact(CompareInt, a.core, c.core);
      CompareSeqAntisymmetric(CompareInt, a.core, b.core);
      CompareSeqAntisymmetric(CompareInt, b.core, c.core);
      if a.pre != [] && b.pre != [] && c.pre != [] {
        CompareSeqTransitive(CompareIdentifier, a.pre, b.pre, c.pre);
      }
    }
  }

  /** Compare is a strict total order on parsed versions: its sign flips with its arguments,
      it is transitive, and it is zero exactly on equal strings. */
  lemma VersionsAreTotallyOrdered(u: Version, v: Version, w: Version)
    requires Valid(u) && Valid(v) && Valid(w)
    ensures var (p, q, r) := (PrecedenceOf(u), PrecedenceOf(v), PrecedenceOf(w));
            && ComparePrecedence(p, q) == -ComparePrecedence(q, p)
            && (ComparePrecedence(p, q) <= 0 && ComparePrecedence(q, r) <= 0 ==> ComparePrecedence(p, r) <= 0)
            && (ComparePrecedence(p, q) == 0 <==> u.value == v.value)
  {
    PrecedenceIsComparator();
    var p, q := PrecedenceOf(u), PrecedenceOf(v);
    if ComparePrecedence(p, q) == 0 {
      IdentifierOrder();
      CompareSeqExact(CompareInt, p.core, q.core);
      assert p.core[0] == q.core[0] && p.core[1] == q.core[1] && p.core[2] == q.core[2];
      if p.pre != [] && q.pre != [] {
        CompareSeqExact(CompareIdentifier, p.pre, q.pre);
      }
      SameIdentifiers(u, v);
      ParsedIsCanonical(u.value);
      ParsedIsCanonical(v.value);
    }
  }

  /** Identifiers determine the prerelease text: canonical numerals have one spelling. */
  lemma SameIdentifiers(u: Version, v: Version)
    requires Valid(u) && Valid(v) && Identifiers(Fields(u.pre)) == Identifiers(Fields(v.pre))
    ensures u.pre == v.pre
  {
    ParsedIsCanonical(u.value);
    ParsedIsCanonical(v.value);
    var a, b := Fields(u.pre), Fields(v.pre);
    if u.pre != "" && v.pre != "" {
      forall i | 0 <= i < |a| ensures a[i] == b[i] {
        assert Identifiers(a)[i] == Identifiers(b)[i];
        assert ValidField(a[i]) && ValidField(b[i]);
        if IsNumeric(a[i]) {
          DigitsOfValue(a[i], 10);
          DigitsOfValue(b[i], 10);
        }
      }
      assert a == b;
      JoinOfSplit(u.pre, '.');
      JoinOfSplit(v.pre, '.');
    }
  }
}
