/**
 * Character classes and small string operations shared by the model:
 * the whitespace and word classes of Python's `str` and `re` on text,
 * `str.strip`, `str.lower` as far as the model needs it, prefix and
 * suffix tests, `str.split(c)[0]` and the decimal rendering of a number.
 */
module Text {

  /** Python's `str.isspace()`, which is also what `\s` matches in a text pattern. */
  predicate IsSpace(c: char)
  {
    ('\t' <= c <= '\r') || ('\U{001C}' <= c <= ' ')
    || c == '\U{0085}' || c == '\U{00A0}' || c == '\U{1680}'
    || ('\U{2000}' <= c <= '\U{200A}')
    || c == '\U{2028}' || c == '\U{2029}' || c == '\U{202F}' || c == '\U{205F}' || c == '\U{3000}'
  }

  predicate IsAsciiLetter(c: char)
  {
    ('a' <= c <= 'z') || ('A' <= c <= 'Z')
  }

  /** `\d`, restricted to the ASCII digits. */
  predicate IsDigit(c: char)
  {
    '0' <= c <= '9'
  }

  /**
   * `\w`: letters, digits and the underscore. Outside ASCII the Unicode
   * alphanumeric table is not modelled; every non-ASCII character that is
   * not whitespace counts as a word character.
   */
  predicate IsWord(c: char)
  {
    IsAsciiLetter(c) || IsDigit(c) || c == '_' || (c >= '\U{0080}' && !IsSpace(c))
  }

  lemma WordIsNotSpace(c: char)
    requires IsWord(c)
    ensures !IsSpace(c)
  {
  }

  predicate StartsWith(s: string, prefix: string)
  {
    |prefix| <= |s| && s[..|prefix|] == prefix
  }

  predicate EndsWith(s: string, suffix: string)
  {
    |suffix| <= |s| && s[|s| - |suffix|..] == suffix
  }

  function LowerChar(c: char): char
  {
    if 'A' <= c <= 'Z' then (c as int + 32) as char else c
  }

  /** `str.lower()` on the ASCII letters; other characters are kept. */
  function Lower(s: string): (r: string)
    ensures |r| == |s|
  {
    seq(|s|, i requires 0 <= i < |s| => LowerChar(s[i]))
  }

  /** Drops the leading whitespace of `s`. */
  function TrimSpaceLeft(s: string): (r: string)
    ensures |r| <= |s| && r == s[|s| - |r|..]
    ensures forall i :: 0 <= i < |s| - |r| ==> IsSpace(s[i])
    ensures r != [] ==> !IsSpace(r[0])
  {
    if s != [] && IsSpace(s[0]) then TrimSpaceLeft(s[1..]) else s
  }

  /** Drops the trailing whitespace of `s`. */
  function TrimSpaceRight(s: string): (r: string)
    ensures |r| <= |s| && r == s[..|r|]
    ensures forall i :: |r| <= i < |s| ==> IsSpace(s[i])
    ensures r != [] ==> !IsSpace(r[|r| - 1])
  {
    if s != [] && IsSpace(s[|s| - 1]) then TrimSpaceRight(s[..|s| - 1]) else s
  }

  /** `s[a..b]` is what is left once whitespace alone is cut from both ends. */
  predicate CutsSpaceOnly(s: string, a: nat, b: nat)
  {
    a <= b <= |s| &&
    (forall i :: 0 <= i < a ==> IsSpace(s[i])) &&
    (forall i :: b <= i < |s| ==> IsSpace(s[i]))
  }

  /** `str.strip()` with no argument: whitespace removed at both ends. */
  function Strip(s: string): (r: string)
    ensures |r| <= |s|
    ensures r != [] ==> !IsSpace(r[0]) && !IsSpace(r[|r| - 1])
    ensures exists a: nat, b: nat :: CutsSpaceOnly(s, a, b) && r == s[a..b]
  {
    StripCut(s, TrimSpaceLeft(s), TrimSpaceRight(TrimSpaceLeft(s)));
    TrimSpaceRight(TrimSpaceLeft(s))
  }

  lemma StripCut(s: string, l: string, r: string)
    requires |l| <= |s| && l == s[|s| - |l|..]
    requires forall i :: 0 <= i < |s| - |l| ==> IsSpace(s[i])
    requires |r| <= |l| && r == l[..|r|]
    requires forall i :: |r| <= i < |l| ==> IsSpace(l[i])
    ensures CutsSpaceOnly(s, |s| - |l|, |s| - |l| + |r|)
    ensures r == s[|s| - |l|..|s| - |l| + |r|]
  {
    var a := |s| - |l|;
    forall i | a + |r| <= i < |s| ensures IsSpace(s[i]) { assert s[i] == l[i - a]; }
  }

  /** A string with no whitespace at either end is its own `strip()`. */
  lemma StripOfStripped(s: string)
    requires s != [] ==> !IsSpace(s[0]) && !IsSpace(s[|s| - 1])
    ensures Strip(s) == s
  {
  }

  /** Index of the first `c` in `s`, or `|s|`. */
  function IndexOf(s: string, c: char): (k: nat)
    ensures k <= |s|
    ensures k < |s| ==> s[k] == c
    ensures forall i :: 0 <= i < k ==> s[i] != c
  {
    if s == [] || s[0] == c then 0 else 1 + IndexOf(s[1..], c)
  }

  /** `s.split(c)[0]`: everything before the first `c`, or all of `s`. */
  function BeforeFirst(s: string, c: char): (r: string)
    ensures r <= s
    ensures c !in r
    ensures |r| < |s| ==> s[|r|] == c
  {
    s[..IndexOf(s, c)]
  }

  function DigitChar(d: nat): char
    requires d < 10
  {
    ('0' as int + d) as char
  }

  /** `str(n)` for a natural number: its decimal digits, no leading zero. */
  function NatToString(n: nat): (r: string)
    ensures |r| >= 1
    ensures forall i :: 0 <= i < |r| ==> IsDigit(r[i])
    ensures r[0] == '0' ==> n == 0
  {
    if n < 10 then [DigitChar(n)] else NatToString(n / 10) + [DigitChar(n % 10)]
  }

  function Pow10(m: nat): (r: nat)
    ensures r >= 1
  {
    if m == 0 then 1 else 10 * Pow10(m - 1)
  }

  /** A number of at least `10^m` needs more than `m` digits. */
  lemma {:induction false} NatToStringLength(n: nat, m: nat)
    requires n >= Pow10(m)
    ensures |NatToString(n)| > m
  {
    if m > 0 {
      NatToStringLength(n / 10, m - 1);
    }
  }

  /** Different numbers are rendered differently. */
  lemma {:induction false} NatToStringInjective(a: nat, b: nat)
    requires NatToString(a) == NatToString(b)
    ensures a == b
  {
    if a >= 10 && b >= 10 {
      var sa := NatToString(a / 10);
      var sb := NatToString(b / 10);
      assert sa == NatToString(a)[..|NatToString(a)| - 1];
      assert sb == NatToString(b)[..|NatToString(b)| - 1];
      NatToStringInjective(a / 10, b / 10);
    }
  }
}
