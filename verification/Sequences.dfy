/** Sequences as multisets: repetition, removal of one element, images of permutations. */
module Sequences {

  ghost predicate NoRepeats<T>(s: seq<T>) {
    forall i, j | 0 <= i < j < |s| :: s[i] != s[j]
  }

  lemma {:induction false} OccursOnce<T>(s: seq<T>, x: T)
    requires x in s && NoRepeats(s)
    ensures multiset(s)[x] == 1
  {
    assert s == [s[0]] + s[1..];
    if s[0] == x {
      assert x !in s[1..];
    } else {
      OccursOnce(s[1..], x);
    }
  }

  lemma OccursTwice<T>(s: seq<T>, i: nat, j: nat)
    requires i < j < |s| && s[i] == s[j]
    ensures multiset(s)[s[i]] >= 2
  {
    assert s == s[..j] + s[j..];
    assert s[i] == s[..j][i] && s[j] == s[j..][0];
    assert multiset(s)[s[i]] == multiset(s[..j])[s[i]] + multiset(s[j..])[s[i]];
  }

  /** Repetition is visible in the multiset alone. */
  lemma NoRepeatsCount<T>(s: seq<T>)
    ensures NoRepeats(s) <==> forall x | x in multiset(s) :: multiset(s)[x] == 1
  {
    if NoRepeats(s) {
      forall x | x in multiset(s) ensures multiset(s)[x] == 1 {
        OccursOnce(s, x);
      }
    } else {
      var i, j :| 0 <= i < j < |s| && s[i] == s[j];
      OccursTwice(s, i, j);
    }
  }

  lemma NoRepeatsPermuted<T>(a: seq<T>, b: seq<T>)
    requires multiset(a) == multiset(b)
    ensures NoRepeats(a) <==> NoRepeats(b)
    ensures forall x :: x in a <==> x in b
  {
    NoRepeatsCount(a);
    NoRepeatsCount(b);
    forall x ensures x in a <==> x in b {
      assert x in a <==> x in multiset(a);
      assert x in b <==> x in multiset(b);
    }
  }

  /** Repetition-free sequences with the same members are permutations of one another. */
  lemma SameMembers<T>(a: seq<T>, b: seq<T>)
    requires NoRepeats(a) && NoRepeats(b) && forall x :: x in a <==> x in b
    ensures multiset(a) == multiset(b)
  {
    NoRepeatsCount(a);
    NoRepeatsCount(b);
    forall x ensures multiset(a)[x] == multiset(b)[x] {
      assert x in a <==> x in multiset(a);
      assert x in b <==> x in multiset(b);
    }
  }

  lemma {:induction false} NoRepeatsSize<T>(s: seq<T>, items: set<T>)
    requires NoRepeats(s) && forall x :: x in s <==> x in items
    ensures |s| == |items|
  {
    if s == [] {
      assert items == {};
    } else {
      assert s == [s[0]] + s[1..];
      assert s[0] !in s[1..];
      NoRepeatsSize(s[1..], items - {s[0]});
    }
  }

  lemma NoRepeatsParts<T>(a: seq<T>, b: seq<T>)
    ensures NoRepeats(a + b) <==> NoRepeats(a) && NoRepeats(b) && forall x | x in a :: x !in b
  {
    var s := a + b;
    assert s[..|a|] == a && s[|a|..] == b;
    if x :| x in a && x in b {
      var i :| 0 <= i < |a| && a[i] == x;
      var j :| 0 <= j < |b| && b[j] == x;
      assert s[i] == s[|a| + j];
    } else if NoRepeats(a) && NoRepeats(b) {
      forall i, j | 0 <= i < j < |s| ensures s[i] != s[j] {
        assert i < |a| <= j ==> s[i] in a && s[j] in b;
        assert |a| <= i ==> s[i] == b[i - |a|] && s[j] == b[j - |a|];
      }
    } else if !NoRepeats(b) {
      var i, j :| 0 <= i < j < |b| && b[i] == b[j];
      assert s[|a| + i] == s[|a| + j];
    } else {
      var i, j :| 0 <= i < j < |a| && a[i] == a[j];
      assert s[i] == s[j];
    }
  }

  ghost predicate DistinctOn<T, K>(key: T -> K, s: seq<T>) {
    forall i, j | 0 <= i < j < |s| :: key(s[i]) != key(s[j])
  }

  /** Distinct keys: no repetition, and a key names one element. */
  lemma DistinctOnMembers<T, K>(key: T -> K, s: seq<T>)
    ensures DistinctOn(key, s) <==> NoRepeats(s) && forall x, y | x in s && y in s && key(x) == key(y) :: x == y
  {
    if DistinctOn(key, s) {
      forall x, y | x in s && y in s && key(x) == key(y) ensures x == y {
        var i :| 0 <= i < |s| && s[i] == x;
        var j :| 0 <= j < |s| && s[j] == y;
      }
    } else {
      var i, j :| 0 <= i < j < |s| && key(s[i]) == key(s[j]);
      assert s[i] in s && s[j] in s;
    }
  }

  lemma DistinctOnPermuted<T, K>(key: T -> K, a: seq<T>, b: seq<T>)
    requires multiset(a) == multiset(b)
    ensures DistinctOn(key, a) <==> DistinctOn(key, b)
  {
    NoRepeatsPermuted(a, b);
    DistinctOnMembers(key, a);
    DistinctOnMembers(key, b);
  }

  /** Ranging over a set: every element once, in any order. */
  method Drain<T(==)>(s: set<T>) returns (items: seq<T>)
    ensures multiset(items) == multiset(s)
  {
    items := [];
    var rest := s;
    while rest != {}
      invariant rest <= s && multiset(items) == multiset(s - rest)
      decreases |rest|
    {
      var x :| x in rest;
      assert s - (rest - {x}) == (s - rest) + {x};
      items, rest := items + [x], rest - {x};
    }
    assert s - rest == s;
  }

  // ----- images -----

  function Without<T>(s: seq<T>, j: nat): seq<T>
    requires j < |s|
  {
    s[..j] + s[j + 1..]
  }

  lemma WithoutLast<T>(s: seq<T>, j: nat)
    requires j < |s| - 1
    ensures Without(s, j)[..|s| - 2] == Without(s[..|s| - 1], j)
    ensures Without(s, j)[|s| - 2] == s[|s| - 1]
  {
  }

  function Mapped<A, B>(f: A -> B, s: seq<A>): (r: seq<B>)
    ensures |r| == |s|
  {
    if s == [] then [] else Mapped(f, s[..|s| - 1]) + [f(s[|s| - 1])]
  }

  lemma {:induction false} MappedAt<A, B>(f: A -> B, s: seq<A>)
    ensures forall i | 0 <= i < |s| :: Mapped(f, s)[i] == f(s[i])
    decreases |s|
  {
    if s != [] {
      MappedAt(f, s[..|s| - 1]);
    }
  }

  lemma {:induction false} MappedConcat<A, B>(f: A -> B, a: seq<A>, b: seq<A>)
    ensures Mapped(f, a + b) == Mapped(f, a) + Mapped(f, b)
    decreases |b|
  {
    if b == [] {
      assert a + b == a;
    } else {
      assert (a + b)[..|a + b| - 1] == a + b[..|b| - 1];
      MappedConcat(f, a, b[..|b| - 1]);
    }
  }

  /** One element contributes its image, wherever it stands. */
  lemma {:induction false} TakenOut<A, B>(f: A -> B, s: seq<A>, j: nat)
    requires j < |s|
    ensures multiset(Mapped(f, s)) == multiset(Mapped(f, Without(s, j))) + multiset{f(s[j])}
    decreases |s|
  {
    var last := |s| - 1;
    if j == last {
      assert Without(s, j) == s[..last];
    } else {
      WithoutLast(s, j);
      TakenOut(f, s[..last], j);
      assert Mapped(f, Without(s, j)) == Mapped(f, Without(s[..last], j)) + [f(s[last])];
    }
  }

  lemma Cancel<T>(x: multiset<T>, y: multiset<T>, v: T)
    requires x + multiset{v} == y + multiset{v}
    ensures x == y
  {
    assert x == x + multiset{v} - multiset{v} && y == y + multiset{v} - multiset{v};
  }

  lemma WithAndWithout<T>(s: seq<T>, j: nat)
    requires j < |s|
    ensures multiset(Without(s, j)) + multiset{s[j]} == multiset(s)
  {
    assert s == s[..j] + [s[j]] + s[j + 1..];
  }

  lemma SameWithout<T>(a: seq<T>, b: seq<T>, j: nat)
    requires a != [] && multiset(a) == multiset(b) && j < |b| && b[j] == a[|a| - 1]
    ensures multiset(a[..|a| - 1]) == multiset(Without(b, j))
  {
    WithAndWithout(a, |a| - 1);
    WithAndWithout(b, j);
    assert Without(a, |a| - 1) == a[..|a| - 1];
    Cancel(multiset(a[..|a| - 1]), multiset(Without(b, j)), b[j]);
  }

  /** Permuting the arguments permutes the images. */
  lemma {:induction false} MappedPermuted<A, B>(f: A -> B, a: seq<A>, b: seq<A>)
    requires multiset(a) == multiset(b)
    ensures multiset(Mapped(f, a)) == multiset(Mapped(f, b))
    decreases |a|
  {
    if a == [] {
      assert |multiset(b)| == |b| == 0;
    } else {
      assert a[|a| - 1] in multiset(b);
      var j :| 0 <= j < |b| && b[j] == a[|a| - 1];
      SameWithout(a, b, j);
      TakenOut(f, b, j);
      MappedPermuted(f, a[..|a| - 1], Without(b, j));
    }
  }
}
