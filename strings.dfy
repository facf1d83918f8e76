/**
 * The Python string builtins the two core files rely on: decimal formatting
 * of an int inside an f-string, `sep.join(parts)`, `s.split("\n")[0]`,
 * slicing `s[:n]`, `s.lower()` and the substring test `k in s`.
 * Characters are Unicode scalar values, as Python's code points are.
 */
module Strings {

  // ---------------------------------------------------------------------------
  // Decimal formatting: f"{n}" for a non-negative int
  // ---------------------------------------------------------------------------

  predicate IsDigit(c: char) { '0' <= c <= '9' }

  predicate AllDigits(s: string) { forall i :: 0 <= i < |s| ==> IsDigit(s[i]) }

  function DigitChar(d: nat): (c: char)
    requires d < 10
    ensures IsDigit(c)
  {
    ('0' as int + d) as char
  }

  function DigitValue(c: char): (d: nat)
    requires IsDigit(c)
    ensures d < 10 && DigitChar(d) == c
  {
    c as int - '0' as int
  }

  /** The decimal rendering of n: digits only, no leading zero. */
  function NatToString(n: nat): (s: string)
    ensures |s| > 0 && AllDigits(s)
    ensures (s[0] == '0') <==> (n == 0)
  {
    if n < 10 then [DigitChar(n)] else NatToString(n / 10) + [DigitChar(n % 10)]
  }

  /** Reads a string of digits back as a number (what int(s) does). */
  function DigitsValue(s: string): nat
    requires AllDigits(s)
  {
    if s == [] then 0 else 10 * DigitsValue(s[..|s| - 1]) + DigitValue(s[|s| - 1])
  }

  /** Parsing the decimal rendering gives the number back. */
  lemma {:induction false} DigitsValueOfNatToString(n: nat)
    ensures DigitsValue(NatToString(n)) == n
  {
    if n >= 10 {
      var s := NatToString(n);
      assert s[..|s| - 1] == NatToString(n / 10);
      DigitsValueOfNatToString(n / 10);
    }
  }

  /** Distinct numbers have distinct decimal renderings. */
  lemma NatToStringInjective(m: nat, n: nat)
    requires NatToString(m) == NatToString(n)
    ensures m == n
  {
    DigitsValueOfNatToString(m);
    DigitsValueOfNatToString(n);
  }

  // ---------------------------------------------------------------------------
  // sep.join(parts)
  // ---------------------------------------------------------------------------

  /** k occurs in s starting at position i. */
  ghost predicate OccursAt(s: string, k: string, i: int)
  {
    0 <= i && i + |k| <= |s| && s[i..i + |k|] == k
  }

  /** `sep.join(parts)`: the parts in order with one separator between neighbours. */
  function JoinWith(sep: string, parts: seq<string>): string
  {
    if |parts| == 0 then ""
    else if |parts| == 1 then parts[0]
    else JoinWith(sep, parts[..|parts| - 1]) + sep + parts[|parts| - 1]
  }

  /** Where part i starts in JoinWith(sep, parts): the lengths of the parts before it, each followed by sep. */
  function Offset(sep: string, parts: seq<string>, i: nat): nat
    requires i <= |parts|
  {
    if i == 0 then 0 else Offset(sep, parts, i - 1) + |parts[i - 1]| + |sep|
  }

  lemma {:induction false} OffsetOfPrefix(sep: string, parts: seq<string>, m: nat, i: nat)
    requires i <= m <= |parts|
    ensures Offset(sep, parts[..m], i) == Offset(sep, parts, i)
  {
    if i > 0 {
      OffsetOfPrefix(sep, parts, m, i - 1);
    }
  }

  /** A non-empty join ends where the last separator would begin. */
  lemma {:induction false} JoinLength(sep: string, parts: seq<string>)
    requires |parts| > 0
    ensures |JoinWith(sep, parts)| + |sep| == Offset(sep, parts, |parts|)
  {
    if |parts| > 1 {
      var init := parts[..|parts| - 1];
      JoinLength(sep, init);
      OffsetOfPrefix(sep, parts, |parts| - 1, |parts| - 1);
    }
  }

  /** Part i of a join sits at Offset(i). */
  lemma {:induction false} JoinPart(sep: string, parts: seq<string>, i: nat)
    requires i < |parts|
    ensures OccursAt(JoinWith(sep, parts), parts[i], Offset(sep, parts, i))
  {
    if |parts| > 1 {
      var init := parts[..|parts| - 1];
      var ji := JoinWith(sep, init);
      assert JoinWith(sep, parts) == ji + sep + parts[|parts| - 1];
      if i < |parts| - 1 {
        JoinPart(sep, init, i);
        OffsetOfPrefix(sep, parts, |parts| - 1, i);
      } else {
        JoinLength(sep, init);
        OffsetOfPrefix(sep, parts, |parts| - 1, |parts| - 1);
      }
    }
  }

  /** Between part i and part i + 1 of a join stands exactly one separator. */
  lemma {:induction false} JoinSeparator(sep: string, parts: seq<string>, i: nat)
    requires i + 1 < |parts|
    ensures OccursAt(JoinWith(sep, parts), sep, Offset(sep, parts, i) + |parts[i]|)
  {
    var init := parts[..|parts| - 1];
    var ji := JoinWith(sep, init);
    assert JoinWith(sep, parts) == ji + sep + parts[|parts| - 1];
    OffsetOfPrefix(sep, parts, |parts| - 1, i);
    OffsetOfPrefix(sep, parts, |parts| - 1, i + 1);
    if i + 1 < |parts| - 1 {
      JoinSeparator(sep, init, i);
    } else {
      JoinLength(sep, init);
    }
  }

  /** With a non-empty separator, a part ends strictly before every later part begins. */
  lemma {:induction false} OffsetsIncrease(sep: string, parts: seq<string>, i: nat, j: nat)
    requires |sep| > 0 && i < j <= |parts|
    ensures Offset(sep, parts, i) + |parts[i]| < Offset(sep, parts, j)
  {
    if j > i + 1 {
      OffsetsIncrease(sep, parts, i, j - 1);
    }
  }

  // ---------------------------------------------------------------------------
  // s.split("\n")[0] and s[:n]
  // ---------------------------------------------------------------------------

  /** `t.split("\n")[0]`: the text before the first line feed, or all of t. */
  function FirstLine(t: string): (r: string)
    ensures r <= t
    ensures '\n' !in r
    ensures |r| == |t| || t[|r|] == '\n'
  {
    if |t| == 0 || t[0] == '\n' then "" else [t[0]] + FirstLine(t[1..])
  }

  /** `s[:n]` for n >= 0. */
  function TakeAtMost(s: string, n: nat): (r: string)
    ensures r <= s
    ensures |r| == if |s| <= n then |s| else n
  {
    if |s| <= n then s else s[..n]
  }

  // ---------------------------------------------------------------------------
  // s.lower()
  // ---------------------------------------------------------------------------

  /**
   * Python's lower-casing of one character, for the characters modelled:
   * ASCII A-Z and the Latin-1 capitals U+00C0..U+00DE except U+00D7 move up
   * by 32; every other character is kept.
   */
  function LowerChar(c: char): char
  {
    if 'A' <= c <= 'Z' || ('\U{C0}' <= c <= '\U{DE}' && c != '\U{D7}') then (c as int + 32) as char
    else c
  }

  lemma LowerCharIdempotent(c: char)
    ensures LowerChar(LowerChar(c)) == LowerChar(c)
  {
  }

  /** `s.lower()`, character by character. */
  function Lower(s: string): (r: string)
    ensures |r| == |s|
    ensures forall i :: 0 <= i < |s| ==> r[i] == LowerChar(s[i])
  {
    if s == [] then [] else [LowerChar(s[0])] + Lower(s[1..])
  }

  lemma LowerIdempotent(s: string)
    ensures Lower(Lower(s)) == Lower(s)
  {
    forall i | 0 <= i < |s| ensures Lower(Lower(s))[i] == Lower(s)[i] {
      LowerCharIdempotent(s[i]);
    }
  }

  // ---------------------------------------------------------------------------
  // k in s
  // ---------------------------------------------------------------------------

  /** `k in s` for strings, checked position by position. */
  function Contains(s: string, k: string): bool
  {
    if |k| > |s| then false
    else s[..|k|] == k || (|s| > 0 && Contains(s[1..], k))
  }

  /** An occurrence at position i makes the test succeed. */
  lemma {:induction false} OccursAtContains(s: string, k: string, i: int)
    requires OccursAt(s, k, i)
    ensures Contains(s, k)
  {
    if i > 0 {
      assert s[1..][i - 1..i - 1 + |k|] == s[i..i + |k|];
      OccursAtContains(s[1..], k, i - 1);
    }
  }

  /** A successful test finds k at some position of s. */
  lemma {:induction false} ContainsOccurs(s: string, k: string)
    requires Contains(s, k)
    ensures exists i :: OccursAt(s, k, i)
  {
    if s[..|k|] == k {
      assert OccursAt(s, k, 0);
    } else {
      ContainsOccurs(s[1..], k);
      var i :| OccursAt(s[1..], k, i);
      assert s[i + 1..i + 1 + |k|] == s[1..][i..i + |k|];
      assert OccursAt(s, k, i + 1);
    }
  }

  /** Contains agrees with the definition of a substring: some position where k occurs. */
  lemma ContainsIff(s: string, k: string)
    ensures Contains(s, k) <==> exists i :: OccursAt(s, k, i)
  {
    if Contains(s, k) {
      ContainsOccurs(s, k);
    }
    if i :| OccursAt(s, k, i) {
      OccursAtContains(s, k, i);
    }
  }

  /** `any(k in s for k in ks)`. */
  predicate ContainsAny(s: string, ks: seq<string>)
  {
    exists k :: k in ks && Contains(s, k)
  }

  /** Some string of ks occurs at some position of s. */
  ghost predicate SomeOccurs(s: string, ks: seq<string>)
  {
    exists k, i :: k in ks && OccursAt(s, k, i)
  }

  /** ContainsAny holds exactly when some k of ks occurs at some position of s. */
  lemma ContainsAnyIff(s: string, ks: seq<string>)
    ensures ContainsAny(s, ks) <==> SomeOccurs(s, ks)
  {
    if ContainsAny(s, ks) {
      var k :| k in ks && Contains(s, k);
      ContainsIff(s, k);
      var i :| OccursAt(s, k, i);
    }
    if SomeOccurs(s, ks) {
      var k, i :| k in ks && OccursAt(s, k, i);
      ContainsIff(s, k);
    }
  }
}
