/**
 * The few JavaScript string operations the routes and tables rely on:
 * `includes`, `startsWith`, ASCII case mapping, `trim`, and the decimal
 * rendering of an integer inside a template literal.
 */
module Strings {

  /** `sub` occurs in `s` starting at index `i`. */
  predicate OccursAt(s: string, sub: string, i: int) {
    0 <= i && i + |sub| <= |s| && s[i..i + |sub|] == sub
  }

  /** JavaScript's `s.includes(sub)`. */
  predicate Contains(s: string, sub: string) {
    exists i :: 0 <= i <= |s| - |sub| && OccursAt(s, sub, i)
  }

  /** JavaScript's `s.startsWith(p)`. */
  predicate StartsWith(s: string, p: string) {
    |p| <= |s| && s[..|p|] == p
  }

  /** A string contains each piece it is concatenated from, the middle one included. */
  lemma {:induction false} ContainsInConcat(a: string, sub: string, b: string)
    ensures Contains(a + sub + b, sub)
  {
    assert (a + sub + b)[|a|..|a| + |sub|] == sub;
    assert OccursAt(a + sub + b, sub, |a|);
  }

  // ---------------------------------------------------------------------------
  // ASCII case mapping

  function LowerChar(c: char): (r: char)
    ensures 'A' <= c <= 'Z' ==> 'a' <= r <= 'z'
    ensures !('A' <= c <= 'Z') ==> r == c
  {
    if 'A' <= c <= 'Z' then (c as int + 32) as char else c
  }

  function UpperChar(c: char): (r: char)
    ensures 'a' <= c <= 'z' ==> 'A' <= r <= 'Z'
    ensures !('a' <= c <= 'z') ==> r == c
  {
    if 'a' <= c <= 'z' then (c as int - 32) as char else c
  }

  /** `s.toLowerCase()` restricted to the ASCII letters. */
  function Lower(s: string): (r: string)
    ensures |r| == |s|
    ensures forall i :: 0 <= i < |s| ==> r[i] == LowerChar(s[i])
  {
    seq(|s|, i requires 0 <= i < |s| => LowerChar(s[i]))
  }

  /** `s.toUpperCase()` restricted to the ASCII letters. */
  function Upper(s: string): (r: string)
    ensures |r| == |s|
    ensures forall i :: 0 <= i < |s| ==> r[i] == UpperChar(s[i])
  {
    seq(|s|, i requires 0 <= i < |s| => UpperChar(s[i]))
  }

  /** Case-insensitive equality over ASCII: two strings agree once lower-cased. */
  predicate EqualsIgnoreCase(a: string, b: string) {
    Lower(a) == Lower(b)
  }

  /** Upper-casing leaves no lower-case ASCII letter. */
  lemma UpperHasNoLowerLetters(s: string)
    ensures forall i :: 0 <= i < |Upper(s)| ==> !('a' <= Upper(s)[i] <= 'z')
  {
  }

  /** No lower-case ASCII letter occurs in `s`. */
  predicate NoLowerCase(s: string) {
    forall j :: 0 <= j < |s| ==> !('a' <= s[j] <= 'z')
  }

  /** A string without lower-case letters equals `b` ignoring case exactly when it is `b` upper-cased. */
  lemma {:induction false} IgnoreCaseAgainstUpper(a: string, b: string)
    requires NoLowerCase(a)
    ensures EqualsIgnoreCase(a, b) <==> a == Upper(b)
  {
    if EqualsIgnoreCase(a, b) {
      assert |a| == |b|;
      forall i | 0 <= i < |a| ensures a[i] == Upper(b)[i] {
        assert LowerChar(a[i]) == LowerChar(b[i]);
      }
    }
    if a == Upper(b) {
      forall i | 0 <= i < |a| ensures Lower(a)[i] == Lower(b)[i] {
        assert a[i] == UpperChar(b[i]);
      }
    }
  }

  // ---------------------------------------------------------------------------
  // JavaScript `trim`

  /**
   * The characters `String.prototype.trim` removes: the ECMAScript WhiteSpace
   * set (tab, vertical tab, form feed, space, no-break space, byte order mark
   * and the Unicode space separators) and the LineTerminator set.
   */
  predicate IsJsSpace(c: char) {
    var n := c as int;
    (0x09 <= n <= 0x0D) || n == 0x20 || n == 0xA0 || n == 0x1680
    || (0x2000 <= n <= 0x200A) || n == 0x2028 || n == 0x2029
    || n == 0x202F || n == 0x205F || n == 0x3000 || n == 0xFEFF
  }

  /** Index of the first character that is not a space, at or after `i`. */
  function SkipStart(s: string, i: nat): (k: nat)
    requires i <= |s|
    ensures i <= k <= |s|
    ensures forall j :: i <= j < k ==> IsJsSpace(s[j])
    ensures k < |s| ==> !IsJsSpace(s[k])
    decreases |s| - i
  {
    if i == |s| || !IsJsSpace(s[i]) then i else SkipStart(s, i + 1)
  }

  /** Index just past the last character below `j` that is not a space, at least `lo`. */
  function SkipEnd(s: string, lo: nat, j: nat): (k: nat)
    requires lo <= j <= |s|
    ensures lo <= k <= j
    ensures forall m :: k <= m < j ==> IsJsSpace(s[m])
    ensures k > lo ==> !IsJsSpace(s[k - 1])
    decreases j
  {
    if j == lo || !IsJsSpace(s[j - 1]) then j else SkipEnd(s, lo, j - 1)
  }

  /**
   * `s.trim()`: the result is the slice of `s` between the leading and the
   * trailing run of spaces, and neither end of it is a space.
   */
  function Trim(s: string): (r: string)
    ensures exists i, j ::
              && 0 <= i <= j <= |s| && r == s[i..j]
              && (forall m :: 0 <= m < i ==> IsJsSpace(s[m]))
              && (forall m :: j <= m < |s| ==> IsJsSpace(s[m]))
    ensures r != [] ==> !IsJsSpace(r[0]) && !IsJsSpace(r[|r| - 1])
    ensures r == [] <==> forall m :: 0 <= m < |s| ==> IsJsSpace(s[m])
  {
    var i := SkipStart(s, 0);
    var j := SkipEnd(s, i, |s|);
    assert j > i ==> !IsJsSpace(s[i]);
    s[i..j]
  }

  // ---------------------------------------------------------------------------
  // Decimal rendering, as `${n}` renders an integer

  predicate IsDigit(c: char) {
    '0' <= c <= '9'
  }

  function DigitChar(d: nat): (c: char)
    requires d < 10
    ensures IsDigit(c) && c as int - '0' as int == d
  {
    ('0' as int + d) as char
  }

  /** The value of a string of decimal digits. */
  function DigitsValue(s: string): nat
    requires forall i :: 0 <= i < |s| ==> IsDigit(s[i])
  {
    if s == [] then 0
    else
      assert IsDigit(s[|s| - 1]);
      10 * DigitsValue(s[..|s| - 1]) + (s[|s| - 1] as int - '0' as int)
  }

  /** The shortest decimal rendering of `n`: digits only, no leading zero, value `n`. */
  function NatToString(n: nat): (r: string)
    ensures |r| > 0
    ensures forall i :: 0 <= i < |r| ==> IsDigit(r[i])
    ensures |r| > 1 ==> r[0] != '0'
    ensures DigitsValue(r) == n
  {
    if n < 10 then [DigitChar(n)]
    else
      var prefix := NatToString(n / 10);
      var r := prefix + [DigitChar(n % 10)];
      assert r[..|r| - 1] == prefix;
      r
  }

  /**
   * How JavaScript renders an integer below 10^21 in magnitude: an optional
   * minus sign and the decimal digits of its magnitude.
   */
  function IntToString(n: int): (r: string)
    ensures n >= 0 ==> r == NatToString(n)
    ensures n < 0 ==> r == "-" + NatToString(-n)
  {
    if n >= 0 then NatToString(n) else "-" + NatToString(-n)
  }

  /** Distinct numbers render differently, so a rendered number identifies it. */
  lemma NatToStringInjective(a: nat, b: nat)
    requires NatToString(a) == NatToString(b)
    ensures a == b
  {
  }

  /** Distinct integers render differently, signs included. */
  lemma {:induction false} IntToStringInjective(a: int, b: int)
    requires IntToString(a) == IntToString(b)
    ensures a == b
  {
    var sa := IntToString(a);
    var sb := IntToString(b);
    if a >= 0 && b >= 0 {
      NatToStringInjective(a, b);
    } else if a < 0 && b < 0 {
      assert sa[1..] == NatToString(-a);
      assert sb[1..] == NatToString(-b);
      NatToStringInjective(-a, -b);
    } else {
      // one rendering starts with a digit, the other with '-'
      assert false;
    }
  }
}
