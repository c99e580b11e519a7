/** Numbers as text: the digits strconv and fmt write, and the value they read back. */
module Numerals {
  import opened Orders

  const UINT64_LIMIT: nat := 0x1_0000_0000_0000_0000

  /** Octal, decimal and hexadecimal. */
  predicate IsBase(base: nat) {
    base == 8 || base == 10 || base == 16
  }

  function DigitChar(d: nat): char
    requires d < 16
  {
    if d < 10 then ('0' as int + d) as char else ('a' as int + d - 10) as char
  }

  /** The value of a lowercase digit, or 16 for any other character. */
  function DigitValue(c: char): nat {
    if '0' <= c <= '9' then c as int - '0' as int
    else if 'a' <= c <= 'f' then c as int - 'a' as int + 10
    else 16
  }

  predicate AllDigits(s: string, base: nat) {
    forall i | 0 <= i < |s| :: DigitValue(s[i]) < base
  }

  /** A numeral without a superfluous leading zero. */
  predicate Canonical(s: string, base: nat) {
    s != "" && AllDigits(s, base) && (|s| > 1 ==> s[0] != '0')
  }

  /** Division and multiplication by a base.  The three bases are written out so that all
      arithmetic on numerals is linear. */
  function Quotient(n: nat, base: nat): nat
    requires IsBase(base)
  {
    if base == 8 then n / 8 else if base == 10 then n / 10 else n / 16
  }

  function Remainder(n: nat, base: nat): nat
    requires IsBase(base)
  {
    if base == 8 then n % 8 else if base == 10 then n % 10 else n % 16
  }

  /** One more digit d at the end of a numeral for q. */
  function Shift(q: nat, base: nat, d: nat): nat
    requires IsBase(base)
  {
    if base == 8 then q * 8 + d else if base == 10 then q * 10 + d else q * 16 + d
  }

  /** strconv.FormatUint. */
  function Digits(n: nat, base: nat): string
    requires IsBase(base)
    decreases n
  {
    if n < base then [DigitChar(n)] else Digits(Quotient(n, base), base) + [DigitChar(Remainder(n, base))]
  }

  /** The number a digit string denotes. */
  function Value(s: string, base: nat): nat
    requires IsBase(base)
  {
    if s == "" then 0 else Shift(Value(s[..|s| - 1], base), base, DigitValue(s[|s| - 1]))
  }

  lemma DivMod(n: nat, base: nat)
    requires IsBase(base)
    ensures n == Shift(Quotient(n, base), base, Remainder(n, base)) && Remainder(n, base) < base
    ensures n >= base ==> 0 < Quotient(n, base) < n
  {
  }

  lemma DivModUnique(q: nat, r: nat, base: nat)
    requires IsBase(base) && r < base
    ensures Quotient(Shift(q, base, r), base) == q && Remainder(Shift(q, base, r), base) == r
    ensures q > 0 ==> Shift(q, base, r) >= base
    ensures q == 0 ==> Shift(q, base, r) == r
  {
  }

  /** Reading what was written gives the number back. */
  lemma {:induction false} ValueOfDigits(n: nat, base: nat)
    requires IsBase(base)
    ensures Value(Digits(n, base), base) == n && Canonical(Digits(n, base), base)
    ensures n > 0 ==> Digits(n, base)[0] != '0'
    decreases n
  {
    if n >= base {
      DivMod(n, base);
      ValueOfDigits(Quotient(n, base), base);
      var s := Digits(n, base);
      assert s[..|s| - 1] == Digits(Quotient(n, base), base);
    }
  }

  /** A canonical numeral is what its value would be written as. */
  lemma {:induction false} DigitsOfValue(s: string, base: nat)
    requires IsBase(base) && Canonical(s, base)
    ensures Digits(Value(s, base), base) == s
    ensures s[0] != '0' ==> Value(s, base) > 0
    decreases |s|
  {
    var init, last := s[..|s| - 1], s[|s| - 1];
    assert s == init + [last];
    if init == "" {
      assert s == [last];
      OneDigit(last, base);
    } else {
      assert init[0] == s[0];
      DigitsOfValue(init, base);
      hide Digits, DigitValue, DigitChar;
      AppendedDigit(init, last, base);
    }
  }

  lemma AppendedDigit(init: string, last: char, base: nat)
    requires IsBase(base) && DigitValue(last) < base
    requires Digits(Value(init, base), base) == init && Value(init, base) > 0
    ensures Digits(Value(init + [last], base), base) == init + [last] && Value(init + [last], base) > 0
  {
    hide Digits, DigitValue, DigitChar;
    var s := init + [last];
    assert s[..|s| - 1] == init;
    OneMoreDigit(Value(init, base), DigitValue(last), base);
    CharOfDigit(last);
  }

  lemma CharOfDigit(c: char)
    ensures DigitValue(c) < 16 ==> DigitChar(DigitValue(c)) == c
    ensures DigitValue(c) == 0 <==> c == '0'
  {
  }

  lemma OneDigit(c: char, base: nat)
    requires IsBase(base) && DigitValue(c) < base
    ensures Value([c], base) == DigitValue(c) && Digits(DigitValue(c), base) == [c]
    ensures c != '0' ==> DigitValue(c) > 0
  {
    assert [c][..0] == "";
    assert Value([c], base) == Shift(0, base, DigitValue(c));
  }

  lemma OneMoreDigit(q: nat, d: nat, base: nat)
    requires IsBase(base) && d < base && q > 0
    ensures Digits(Shift(q, base, d), base) == Digits(q, base) + [DigitChar(d)] && Shift(q, base, d) > 0
  {
    DivModUnique(q, d, base);
  }

  /** FormatInt: a minus sign before a negative number. */
  function SignedDigits(n: int, base: nat): string
    requires IsBase(base)
  {
    if n < 0 then "-" + Digits(-n, base) else Digits(n, base)
  }

  lemma DigitsInjective(a: nat, b: nat, base: nat)
    requires IsBase(base) && Digits(a, base) == Digits(b, base)
    ensures a == b
  {
    ValueOfDigits(a, base);
    ValueOfDigits(b, base);
  }

  lemma NoMinusSign(n: nat, base: nat)
    requires IsBase(base)
    ensures Digits(n, base) != "" && Digits(n, base)[0] != '-'
  {
    ValueOfDigits(n, base);
    assert DigitValue('-') == 16;
  }

  lemma SignedDigitsInjective(a: int, b: int, base: nat)
    requires IsBase(base) && SignedDigits(a, base) == SignedDigits(b, base)
    ensures a == b
  {
    var m, n := if a < 0 then -a else a, if b < 0 then -b else b;
    NoMinusSign(m, base);
    NoMinusSign(n, base);
    hide Digits;
    assert a < 0 <==> b < 0;
    assert a < 0 ==> SignedDigits(a, base)[1..] == Digits(m, base) && SignedDigits(b, base)[1..] == Digits(n, base);
    DigitsInjective(m, n, base);
  }

  // ----- the numeric order of canonical decimal numerals -----

  /** The order by length and then by text. */
  function CompareByLength(a: string, b: string): int {
    if |a| != |b| then CompareInt(|a|, |b|) else CompareString(a, b)
  }

  lemma {:induction false} CompareAppended(a: string, b: string, x: char, y: char)
    requires |a| == |b|
    ensures CompareString(a + [x], b + [y]) == if CompareString(a, b) != 0 then CompareString(a, b) else CompareChar(x, y)
    decreases |a|
  {
    if a == "" {
      assert (a + [x])[1..] == "" && (b + [y])[1..] == "";
      assert CompareSeq(CompareChar, "", "") == 0;
    } else {
      assert (a + [x])[1..] == a[1..] + [x] && (b + [y])[1..] == b[1..] + [y];
      CompareAppended(a[1..], b[1..], x, y);
    }
  }

  lemma {:induction false} LongerIsGreater(a: string, b: string)
    requires Canonical(a, 10) && Canonical(b, 10) && |a| < |b|
    ensures Value(a, 10) < Value(b, 10)
    decreases |a|
  {
    var a', b' := a[..|a| - 1], b[..|b| - 1];
    assert Canonical(b', 10) by { assert b'[0] == b[0]; }
    if a' == "" {
      DigitsOfValue(b', 10);
    } else {
      assert a'[0] == a[0];
      LongerIsGreater(a', b');
    }
  }

  lemma {:induction false} SameLengthOrder(a: string, b: string)
    requires AllDigits(a, 10) && AllDigits(b, 10) && |a| == |b|
    ensures CompareInt(Value(a, 10), Value(b, 10)) == CompareString(a, b)
    decreases |a|
  {
    if a != "" {
      var a', b', x, y := a[..|a| - 1], b[..|b| - 1], a[|a| - 1], b[|b| - 1];
      assert a == a' + [x] && b == b' + [y];
      CompareAppended(a', b', x, y);
      SameLengthOrder(a', b');
      assert DigitValue(x) == x as int - '0' as int && DigitValue(y) == y as int - '0' as int;
    }
  }

  /** On identifiers without leading zeros, length-then-text order is numeric order. */
  lemma LengthOrderIsNumeric(a: string, b: string)
    requires Canonical(a, 10) && Canonical(b, 10)
    ensures CompareByLength(a, b) == CompareInt(Value(a, 10), Value(b, 10))
  {
    if |a| < |b| {
      LongerIsGreater(a, b);
    } else if |a| > |b| {
      LongerIsGreater(b, a);
    } else {
      SameLengthOrder(a, b);
    }
  }
}
