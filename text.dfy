/**
 * The Python `str` operations the two scrapers rely on, written out over
 * `seq<char>`: `endswith`, `in`, `lower`, `strip`, `replace(pat, '')` and
 * `str(n)` for a natural number.
 */
module Text {

  /** `s.endswith(suffix)` */
  predicate EndsWith(s: string, suffix: string) {
    |suffix| <= |s| && s[|s| - |suffix|..] == suffix
  }

  /** `pat in s` */
  predicate Contains(s: string, pat: string)
    decreases |s|
  {
    (|pat| <= |s| && s[..|pat|] == pat) || (|s| > 0 && Contains(s[1..], pat))
  }

  /** `str.lower` on one character; only the ASCII letters are mapped. */
  function LowerChar(c: char): char {
    if 'A' <= c <= 'Z' then (c as int - 'A' as int + 'a' as int) as char else c
  }

  /** `s.lower()` (ASCII case mapping) */
  function Lower(s: string): string {
    seq(|s|, i requires 0 <= i < |s| => LowerChar(s[i]))
  }

  /**
   * The characters for which Python's `str.isspace` holds, so the ones
   * `str.strip()` removes.
   */
  predicate IsSpace(c: char) {
    var n := c as int;
    (9 <= n <= 13) || (28 <= n <= 32) || n == 0x85 || n == 0xA0 || n == 0x1680
    || (0x2000 <= n <= 0x200A) || n == 0x2028 || n == 0x2029 || n == 0x202F
    || n == 0x205F || n == 0x3000
  }

  /** `s.lstrip()`: the longest suffix of `s` that does not start with whitespace. */
  function TrimLeft(s: string): (r: string)
    ensures |r| <= |s| && forall k :: 0 <= k < |r| ==> r[k] == s[|s| - |r| + k]
    ensures r == [] || !IsSpace(r[0])
    ensures forall k :: 0 <= k < |s| - |r| ==> IsSpace(s[k])
  {
    if |s| > 0 && IsSpace(s[0]) then TrimLeft(s[1..]) else s
  }

  /** `s.rstrip()`: the longest prefix of `s` that does not end with whitespace. */
  function TrimRight(s: string): (r: string)
    ensures |r| <= |s| && forall k :: 0 <= k < |r| ==> r[k] == s[k]
    ensures r == [] || !IsSpace(r[|r| - 1])
    ensures forall k :: |r| <= k < |s| ==> IsSpace(s[k])
  {
    if |s| > 0 && IsSpace(s[|s| - 1]) then TrimRight(s[..|s| - 1]) else s
  }

  /** `r` is `s[a..a + |r|]` and everything of `s` around it is whitespace. */
  predicate StrippedAt(s: string, a: int, r: string) {
    && 0 <= a <= |s| - |r| && r == s[a..a + |r|]
    && (forall k :: 0 <= k < a ==> IsSpace(s[k]))
    && (forall k :: a + |r| <= k < |s| ==> IsSpace(s[k]))
  }

  /**
   * `s.strip()`: the infix of `s` left once the whitespace at both ends is
   * removed.
   */
  function Strip(s: string): (r: string)
    ensures |r| <= |s|
    ensures r == [] || (!IsSpace(r[0]) && !IsSpace(r[|r| - 1]))
    ensures r == [] <==> forall k :: 0 <= k < |s| ==> IsSpace(s[k])
  {
    TrimRight(TrimLeft(s))
  }

  /** What `Strip` keeps is an infix of `s` with only whitespace around it. */
  lemma StripInfix(s: string)
    ensures exists a :: StrippedAt(s, a, Strip(s))
  {
    var left := TrimLeft(s);
    assert left == s[|s| - |left|..];
    assert Strip(s) == left[..|Strip(s)|];
    InfixAt(s, left, Strip(s));
  }

  /** A whitespace-free-ended prefix `r` of a suffix `left` of `s` sits in `s` as `StrippedAt` says. */
  lemma InfixAt(s: string, left: string, r: string)
    requires |left| <= |s| && left == s[|s| - |left|..]
    requires forall k :: 0 <= k < |s| - |left| ==> IsSpace(s[k])
    requires |r| <= |left| && r == left[..|r|]
    requires forall k :: |r| <= k < |left| ==> IsSpace(left[k])
    ensures StrippedAt(s, |s| - |left|, r)
  {
    var a := |s| - |left|;
    forall k | a + |r| <= k < |s|
      ensures IsSpace(s[k])
    {
      assert s[k] == left[k - a];
    }
  }

  /**
   * `s.replace(pat, '')`: every occurrence of `pat` found by a left-to-right
   * scan for non-overlapping matches is removed.
   */
  function RemoveAll(s: string, pat: string): (r: string)
    requires |pat| > 0
    ensures |r| <= |s|
    ensures !Contains(s, pat) ==> r == s
    decreases |s|
  {
    if |s| < |pat| then s
    else if s[..|pat|] == pat then RemoveAll(s[|pat|..], pat)
    else [s[0]] + RemoveAll(s[1..], pat)
  }

  function DigitChar(d: nat): char
    requires d < 10
  {
    ('0' as int + d) as char
  }

  /** `str(n)` for a natural number: its decimal digits, most significant first. */
  function NatToString(n: nat): (r: string)
    ensures |r| >= 1
    ensures n >= 10 <==> |r| >= 2
    decreases n
  {
    if n < 10 then [DigitChar(n)] else NatToString(n / 10) + [DigitChar(n % 10)]
  }

  /** Distinct numbers print differently. */
  lemma {:induction false} NatToStringInjective(a: nat, b: nat)
    requires NatToString(a) == NatToString(b)
    ensures a == b
    decreases a
  {
    if a >= 10 {
      var s := NatToString(a);
      assert b >= 10;
      assert NatToString(a / 10) == s[..|s| - 1] == NatToString(b / 10);
      NatToStringInjective(a / 10, b / 10);
      assert DigitChar(a % 10) == s[|s| - 1] == DigitChar(b % 10);
    }
  }
}
