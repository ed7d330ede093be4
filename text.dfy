/**
 * The string operations the plugin borrows from the Java library:
 * String.equalsIgnoreCase (restricted to the ASCII case maps) and the
 * decimal rendering of numbers by string concatenation, which always uses
 * the ASCII digits. String.format's %d uses the same digits only under a
 * default locale whose zero digit is '0'.
 */
module Text {

  /** Character.toLowerCase on the ASCII letters; every other character is its own lower case. */
  function LowerChar(c: char): char
  {
    if 'A' <= c <= 'Z' then (c as int - 'A' as int + 'a' as int) as char else c
  }

  /** Character.toUpperCase on the ASCII letters. */
  function UpperChar(c: char): char
  {
    if 'a' <= c <= 'z' then (c as int - 'a' as int + 'A' as int) as char else c
  }

  /** The lower-case form of a whole string, one character at a time. */
  function Lower(s: string): (r: string)
    ensures |r| == |s|
  {
    if s == [] then [] else [LowerChar(s[0])] + Lower(s[1..])
  }

  /** The per-character test of String.regionMatches(ignoreCase = true). */
  predicate CharsEqualIgnoreCase(a: char, b: char)
  {
    a == b || UpperChar(a) == UpperChar(b) || LowerChar(UpperChar(a)) == LowerChar(UpperChar(b))
  }

  /** String.equalsIgnoreCase: same length and every pair of characters equal up to case. */
  predicate EqualsIgnoreCase(a: string, b: string)
    ensures EqualsIgnoreCase(a, b) <==>
              |a| == |b| && forall i :: 0 <= i < |a| ==> CharsEqualIgnoreCase(a[i], b[i])
  {
    |a| == |b| && (a == [] || (CharsEqualIgnoreCase(a[0], b[0]) && EqualsIgnoreCase(a[1..], b[1..])))
  }

  /** Two strings are equal ignoring case exactly when their lower-case forms coincide. */
  lemma {:induction false} EqualsIgnoreCaseIffSameLower(a: string, b: string)
    ensures EqualsIgnoreCase(a, b) <==> Lower(a) == Lower(b)
    decreases |a|
  {
    if a != [] && b != [] {
      EqualsIgnoreCaseIffSameLower(a[1..], b[1..]);
      if Lower(a) == Lower(b) {
        assert Lower(a)[0] == Lower(b)[0];
        assert Lower(a)[1..] == Lower(a[1..]);
        assert Lower(b)[1..] == Lower(b[1..]);
      }
    }
  }

  /** Ignoring case is an equivalence: reflexive, symmetric and transitive. */
  lemma EqualsIgnoreCaseIsEquivalence(a: string, b: string, c: string)
    ensures EqualsIgnoreCase(a, a)
    ensures EqualsIgnoreCase(a, b) ==> EqualsIgnoreCase(b, a)
    ensures EqualsIgnoreCase(a, b) && EqualsIgnoreCase(b, c) ==> EqualsIgnoreCase(a, c)
  {
    EqualsIgnoreCaseIffSameLower(a, a);
    EqualsIgnoreCaseIffSameLower(a, b);
    EqualsIgnoreCaseIffSameLower(b, a);
    EqualsIgnoreCaseIffSameLower(b, c);
    EqualsIgnoreCaseIffSameLower(a, c);
  }

  predicate IsDigit(c: char)
  {
    '0' <= c <= '9'
  }

  function DigitChar(d: nat): (c: char)
    requires d < 10
    ensures IsDigit(c)
  {
    ('0' as int + d) as char
  }

  /** The number a string of decimal digits denotes, most significant digit first. */
  function DigitsValue(s: string): nat
    requires forall i :: 0 <= i < |s| ==> IsDigit(s[i])
  {
    if s == [] then 0
    else
      assert IsDigit(s[|s| - 1]);
      DigitsValue(s[..|s| - 1]) * 10 + (s[|s| - 1] as int - '0' as int)
  }

  /** Long.toString of a non-negative number: decimal digits, no sign, no leading zero. */
  function NatString(n: nat): (s: string)
    ensures |s| > 0
    ensures forall i :: 0 <= i < |s| ==> IsDigit(s[i])
    ensures s[0] == '0' ==> n == 0
  {
    if n < 10 then [DigitChar(n)] else NatString(n / 10) + [DigitChar(n % 10)]
  }

  /** Reading back the digits of NatString gives the number that was rendered. */
  lemma {:induction false} NatStringValue(n: nat)
    ensures DigitsValue(NatString(n)) == n
  {
    if n >= 10 {
      NatStringValue(n / 10);
      var s := NatString(n);
      assert s[..|s| - 1] == NatString(n / 10);
    }
  }

  /** Distinct numbers render as distinct strings. */
  lemma NatStringInjective(m: nat, n: nat)
    ensures NatString(m) == NatString(n) ==> m == n
  {
    NatStringValue(m);
    NatStringValue(n);
  }

  /** Integer.toString: a minus sign before the digits of a negative number. */
  function IntString(i: int): (s: string)
    ensures |s| > 0
    ensures s[0] == '-' <==> i < 0
    ensures i < 0 ==> s[1..] == NatString(-i)
    ensures i >= 0 ==> s == NatString(i)
  {
    if i < 0 then "-" + NatString(-i) else NatString(i)
  }

  /** Distinct integers render as distinct strings. */
  lemma IntStringInjective(i: int, j: int)
    ensures IntString(i) == IntString(j) ==> i == j
  {
    if IntString(i) == IntString(j) {
      if i < 0 {
        NatStringInjective(-i, -j);
      } else {
        NatStringInjective(i, j);
      }
    }
  }
}
