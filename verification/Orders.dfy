/** Three-way comparators in the style of Go's slices.SortFunc and strings.Compare, the
    ways the repository combines them, and the sort they drive. */
module Orders {

  /** A three-way total preorder: antisymmetric in sign and transitive. */
  ghost predicate Comparator<T(!new)>(cmp: (T, T) -> int) {
    && (forall x, y :: -1 <= cmp(x, y) <= 1 && cmp(x, y) == -cmp(y, x))
    && (forall x, y, z :: cmp(x, y) <= 0 && cmp(y, z) <= 0 ==> cmp(x, z) <= 0)
  }

  /** Only equal values compare as equal. */
  ghost predicate Exact<T(!new)>(cmp: (T, T) -> int) {
    forall x, y :: cmp(x, y) == 0 ==> x == y
  }

  ghost predicate SortedBy<T>(cmp: (T, T) -> int, s: seq<T>) {
    forall i, j | 0 <= i < j < |s| :: cmp(s[i], s[j]) <= 0
  }

  ghost predicate StrictlySortedBy<T>(cmp: (T, T) -> int, s: seq<T>) {
    forall i, j | 0 <= i < j < |s| :: cmp(s[i], s[j]) < 0
  }

  // ----- combinators -----

  function CompareInt(a: int, b: int): int {
    if a < b then -1 else if a > b then 1 else 0
  }

  function CompareChar(a: char, b: char): int {
    if a < b then -1 else if a > b then 1 else 0
  }

  /** Lexicographic order of sequences: a proper prefix comes first. */
  function CompareSeq<T>(cmp: (T, T) -> int, a: seq<T>, b: seq<T>): int {
    if a == [] then (if b == [] then 0 else -1)
    else if b == [] then 1
    else
      var c := cmp(a[0], b[0]);
      if c != 0 then c else CompareSeq(cmp, a[1..], b[1..])
  }

  function BySeq<T>(cmp: (T, T) -> int): (seq<T>, seq<T>) -> int {
    (a, b) => CompareSeq(cmp, a, b)
  }

  /** strings.Compare: the byte order of strings. */
  function CompareString(a: string, b: string): int {
    CompareSeq(CompareChar, a, b)
  }

  function On<T, K>(key: T -> K, cmp: (K, K) -> int): (T, T) -> int {
    (x, y) => cmp(key(x), key(y))
  }

  function Then<T>(first: (T, T) -> int, second: (T, T) -> int): (T, T) -> int {
    (x, y) => if first(x, y) != 0 then first(x, y) else second(x, y)
  }

  // ----- laws -----

  lemma {:induction false} CompareSeqAntisymmetric<T(!new)>(cmp: (T, T) -> int, a: seq<T>, b: seq<T>)
    requires Comparator(cmp)
    ensures -1 <= CompareSeq(cmp, a, b) <= 1
    ensures CompareSeq(cmp, a, b) == -CompareSeq(cmp, b, a)
  {
    if a != [] && b != [] {
      CompareSeqAntisymmetric(cmp, a[1..], b[1..]);
    }
  }

  lemma {:induction false} CompareSeqTransitive<T(!new)>(cmp: (T, T) -> int, a: seq<T>, b: seq<T>, c: seq<T>)
    requires Comparator(cmp)
    requires CompareSeq(cmp, a, b) <= 0 && CompareSeq(cmp, b, c) <= 0
    ensures CompareSeq(cmp, a, c) <= 0
  {
    if a != [] && b != [] && c != [] {
      var x, y, z := a[0], b[0], c[0];
      assert cmp(x, y) <= 0 && cmp(y, z) <= 0 && cmp(x, z) <= 0;
      if cmp(x, z) == 0 {
        assert cmp(z, x) <= 0 && cmp(y, x) <= 0 && cmp(z, y) <= 0;
        CompareSeqTransitive(cmp, a[1..], b[1..], c[1..]);
      }
    }
  }

  lemma {:induction false} CompareSeqExact<T(!new)>(cmp: (T, T) -> int, a: seq<T>, b: seq<T>)
    requires Exact(cmp)
    requires CompareSeq(cmp, a, b) == 0
    ensures a == b
  {
    if a != [] && b != [] {
      CompareSeqExact(cmp, a[1..], b[1..]);
      assert a == [a[0]] + a[1..] && b == [b[0]] + b[1..];
    }
  }

  /** The lexicographic order built on a comparator is a comparator, and exact if that one is. */
  lemma BySeqIsComparator<T(!new)>(cmp: (T, T) -> int)
    requires Comparator(cmp)
    ensures Comparator(BySeq(cmp))
    ensures Exact(cmp) ==> Exact(BySeq(cmp))
  {
    var seqCmp := BySeq(cmp);
    forall a, b ensures -1 <= seqCmp(a, b) <= 1 && seqCmp(a, b) == -seqCmp(b, a) {
      CompareSeqAntisymmetric(cmp, a, b);
    }
    forall a, b, c | seqCmp(a, b) <= 0 && seqCmp(b, c) <= 0 ensures seqCmp(a, c) <= 0 {
      CompareSeqTransitive(cmp, a, b, c);
    }
    if Exact(cmp) {
      forall a, b | seqCmp(a, b) == 0 ensures a == b {
        CompareSeqExact(cmp, a, b);
      }
    }
  }

  /** strings.Compare is a total order on strings. */
  lemma StringOrder()
    ensures Comparator(CompareString) && Exact(CompareString)
  {
    BySeqIsComparator(CompareChar);
    assert forall a, b :: CompareString(a, b) == BySeq(CompareChar)(a, b);
  }

  lemma OnIsComparator<T(!new), K(!new)>(key: T -> K, cmp: (K, K) -> int)
    requires Comparator(cmp)
    ensures Comparator(On(key, cmp))
  {
  }

  lemma ThenIsComparator<T(!new)>(first: (T, T) -> int, second: (T, T) -> int)
    requires Comparator(first) && Comparator(second)
    ensures Comparator(Then(first, second))
  {
    var both := Then(first, second);
    forall x, y, z | both(x, y) <= 0 && both(y, z) <= 0 ensures both(x, z) <= 0 {
      assert first(x, y) <= 0 && first(y, z) <= 0 && first(x, z) <= 0;
      if first(x, z) == 0 {
        assert first(z, x) <= 0 && first(y, x) <= 0 && first(z, y) <= 0;
      }
    }
  }

  function ByText<T>(key: T -> string): (T, T) -> int {
    On(key, CompareString)
  }

  /** Comparing by a text and then by the rest: ties agree on the text and on the rest. */
  lemma ByTextThen<T(!new)>(key: T -> string, rest: (T, T) -> int)
    requires Comparator(rest)
    ensures Comparator(ByText(key)) && Comparator(Then(ByText(key), rest))
    ensures forall x, y | ByText(key)(x, y) == 0 :: key(x) == key(y)
    ensures forall x, y | Then(ByText(key), rest)(x, y) == 0 :: key(x) == key(y) && rest(x, y) == 0
  {
    StringOrder();
    OnIsComparator(key, CompareString);
    ThenIsComparator(ByText(key), rest);
  }

  // ----- sorting -----

  /** A least element may be put in front of a sorted sequence. */
  lemma SortedCons<T(!new)>(cmp: (T, T) -> int, x: T, s: seq<T>)
    requires SortedBy(cmp, s)
    requires forall y | y in s :: cmp(x, y) <= 0
    ensures SortedBy(cmp, [x] + s)
  {
    var r := [x] + s;
    forall i, j | 0 <= i < j < |r| ensures cmp(r[i], r[j]) <= 0 {
      assert r[j] == s[j - 1] && s[j - 1] in s;
      if i > 0 {
        assert r[i] == s[i - 1];
      }
    }
  }

  /** The head of a sorted sequence is below everything that x is above. */
  lemma HeadIsLeast<T(!new)>(cmp: (T, T) -> int, x: T, s: seq<T>)
    requires Comparator(cmp) && s != [] && SortedBy(cmp, s)
    ensures forall y | y in s :: cmp(s[0], y) <= 0
    ensures cmp(x, s[0]) <= 0 ==> forall y | y in s :: cmp(x, y) <= 0
    ensures cmp(x, s[0]) > 0 ==> cmp(s[0], x) <= 0
  {
    assert cmp(s[0], s[0]) == -cmp(s[0], s[0]);
    forall y | y in s ensures cmp(s[0], y) <= 0 {
      var k :| 0 <= k < |s| && s[k] == y;
    }
    if cmp(x, s[0]) <= 0 {
      forall y | y in s ensures cmp(x, y) <= 0 {
        assert cmp(s[0], y) <= 0;
      }
    }
  }

  function Insert<T(!new)>(cmp: (T, T) -> int, x: T, s: seq<T>): (r: seq<T>)
    requires Comparator(cmp) && SortedBy(cmp, s)
    ensures multiset(r) == multiset{x} + multiset(s)
    ensures SortedBy(cmp, r)
    decreases |s|
  {
    if s == [] then [x]
    else
      HeadIsLeast(cmp, x, s);
      if cmp(x, s[0]) <= 0 then
        SortedCons(cmp, x, s);
        [x] + s
      else
        var rest := Insert(cmp, x, s[1..]);
        InsertKeepsHead(cmp, s[0], x, s, rest);
        [s[0]] + rest
  }

  lemma InsertKeepsHead<T(!new)>(cmp: (T, T) -> int, head: T, x: T, s: seq<T>, rest: seq<T>)
    requires s != [] && s[0] == head && cmp(head, x) <= 0
    requires forall y | y in s :: cmp(head, y) <= 0
    requires SortedBy(cmp, rest) && multiset(rest) == multiset{x} + multiset(s[1..])
    ensures SortedBy(cmp, [head] + rest)
    ensures multiset([head] + rest) == multiset{x} + multiset(s)
  {
    assert s == [head] + s[1..];
    forall y | y in rest ensures cmp(head, y) <= 0 {
      assert y in multiset(rest);
      assert y == x || y in s[1..];
    }
    SortedCons(cmp, head, rest);
  }

  /** slices.SortFunc and sort.Slice: the elements of s in cmp order. */
  function Sort<T(!new)>(cmp: (T, T) -> int, s: seq<T>): (r: seq<T>)
    requires Comparator(cmp)
    ensures multiset(r) == multiset(s)
    ensures SortedBy(cmp, r)
  {
    if s == [] then []
    else
      assert s == [s[0]] + s[1..];
      Insert(cmp, s[0], Sort(cmp, s[1..]))
  }

  /** sort.Strings: strings in byte order. */
  function SortStrings(items: seq<string>): (sorted: seq<string>)
    ensures multiset(sorted) == multiset(items) && SortedBy(CompareString, sorted)
  {
    StringOrder();
    Sort(CompareString, items)
  }

  lemma SortedHeads<T(!new)>(cmp: (T, T) -> int, a: seq<T>, b: seq<T>)
    requires Comparator(cmp)
    requires a != [] && b != [] && SortedBy(cmp, a) && SortedBy(cmp, b)
    requires a[0] in b && b[0] in a
    ensures cmp(a[0], b[0]) == 0
  {
    HeadIsLeast(cmp, a[0], a);
    HeadIsLeast(cmp, b[0], b);
    assert cmp(a[0], b[0]) == -cmp(b[0], a[0]);
  }

  /** A sorted arrangement is unique when only equal elements tie, so the result of a sort
      does not depend on the order of its input or on the sorting algorithm. */
  lemma {:induction false} SortedUnique<T(!new)>(cmp: (T, T) -> int, a: seq<T>, b: seq<T>)
    requires Comparator(cmp)
    requires SortedBy(cmp, a) && SortedBy(cmp, b)
    requires multiset(a) == multiset(b)
    requires TiesAreEqual(cmp, a)
    ensures a == b
    decreases |a|
  {
    assert |multiset(a)| == |a| && |multiset(b)| == |b|;
    if a != [] {
      assert a[0] in multiset(b) && b[0] in multiset(a);
      SortedHeads(cmp, a, b);
      assert a[0] == b[0];
      hide SortedBy, TiesAreEqual, Comparator;
      SortedTails(a, b);
      SortedTail(cmp, a);
      SortedTail(cmp, b);
      SortedUnique(cmp, a[1..], b[1..]);
    }
  }

  ghost predicate TiesAreEqual<T>(cmp: (T, T) -> int, s: seq<T>) {
    forall x, y | x in s && y in s && cmp(x, y) == 0 :: x == y
  }

  lemma SortedTail<T(!new)>(cmp: (T, T) -> int, s: seq<T>)
    requires s != [] && SortedBy(cmp, s)
    ensures SortedBy(cmp, s[1..]) && (TiesAreEqual(cmp, s) ==> TiesAreEqual(cmp, s[1..]))
  {
  }

  lemma SortedTails<T>(a: seq<T>, b: seq<T>)
    requires a != [] && b != [] && a[0] == b[0] && multiset(a) == multiset(b)
    ensures multiset(a[1..]) == multiset(b[1..])
    ensures a[1..] == b[1..] ==> a == b
  {
    assert a == [a[0]] + a[1..] && b == [b[0]] + b[1..];
    assert multiset(a[1..]) == multiset(a) - multiset{a[0]};
    assert multiset(b[1..]) == multiset(b) - multiset{b[0]};
  }
}
