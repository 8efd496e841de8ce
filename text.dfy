/**
 * Character classes and string helpers shared by the action: the JavaScript
 * white-space set used by `\s` and `String.prototype.trim`, ASCII upper
 * case, and decimal digit strings (`parseInt`, `Number.toString`,
 * `padStart`).
 */
module Text {

  /** ECMAScript WhiteSpace and LineTerminator code points: what `\s` matches and `trim()` removes. */
  const SpaceChars: set<char> := {'\U{9}', '\U{A}', '\U{B}', '\U{C}', '\U{D}', '\U{20}', '\U{A0}', '\U{1680}', '\U{2000}', '\U{2001}', '\U{2002}', '\U{2003}', '\U{2004}', '\U{2005}', '\U{2006}', '\U{2007}', '\U{2008}', '\U{2009}', '\U{200A}', '\U{2028}', '\U{2029}', '\U{202F}', '\U{205F}', '\U{3000}', '\U{FEFF}'}

  predicate IsSpace(c: char) {
    c in SpaceChars
  }

  predicate AllSpace(s: string) {
    forall i :: 0 <= i < |s| ==> IsSpace(s[i])
  }

  /** No white space at either end. */
  predicate IsTrimmed(s: string) {
    s == [] || (!IsSpace(s[0]) && !IsSpace(s[|s| - 1]))
  }

  /** The first index at or after `k` that is not white space, or the end of `s`. */
  function SkipSpace(s: string, k: nat): (r: nat)
    requires k <= |s|
    ensures k <= r <= |s|
    decreases |s| - k
  {
    if k < |s| && IsSpace(s[k]) then SkipSpace(s, k + 1) else k
  }

  /** `SkipSpace` passes over white space only, and stops at the first character that is not. */
  lemma {:induction false} SkipSpaceStops(s: string, k: nat)
    requires k <= |s|
    ensures SkipSpace(s, k) < |s| ==> !IsSpace(s[SkipSpace(s, k)])
    ensures forall j :: k <= j < SkipSpace(s, k) ==> IsSpace(s[j])
    decreases |s| - k
  {
    if k < |s| && IsSpace(s[k]) {
      SkipSpaceStops(s, k + 1);
    }
  }

  /** Conversely, an index reached over white space that is the end or no white space is where `SkipSpace` stops. */
  lemma {:induction false} SkipSpaceTo(s: string, k: nat, a: nat)
    requires k <= a <= |s|
    requires forall j :: k <= j < a ==> IsSpace(s[j])
    requires a < |s| ==> !IsSpace(s[a])
    ensures SkipSpace(s, k) == a
    decreases a - k
  {
    if k < a {
      assert IsSpace(s[k]);
      SkipSpaceTo(s, k + 1, a);
    }
  }

  /** Walking back from `b` towards `a`: where the white space that ends `s[a..b]` begins. */
  function SkipSpaceBack(s: string, a: nat, b: nat): (e: nat)
    requires a <= b <= |s|
    ensures a <= e <= b
    decreases b
  {
    if a < b && IsSpace(s[b - 1]) then SkipSpaceBack(s, a, b - 1) else b
  }

  lemma {:induction false} SkipSpaceBackStops(s: string, a: nat, b: nat)
    requires a <= b <= |s|
    ensures SkipSpaceBack(s, a, b) > a ==> !IsSpace(s[SkipSpaceBack(s, a, b) - 1])
    ensures forall j :: SkipSpaceBack(s, a, b) <= j < b ==> IsSpace(s[j])
    decreases b
  {
    if a < b && IsSpace(s[b - 1]) {
      SkipSpaceBackStops(s, a, b - 1);
    }
  }

  lemma {:induction false} SkipSpaceBackTo(s: string, a: nat, b: nat, e: nat)
    requires a <= e <= b <= |s|
    requires forall j :: e <= j < b ==> IsSpace(s[j])
    requires e > a ==> !IsSpace(s[e - 1])
    ensures SkipSpaceBack(s, a, b) == e
    decreases b - e
  {
    if e < b {
      assert IsSpace(s[b - 1]);
      SkipSpaceBackTo(s, a, b - 1, e);
    }
  }

  /** `String.prototype.trim`: the slice of `s` left once white space is removed from both ends. */
  function Trim(s: string): string
  {
    var a := SkipSpace(s, 0);
    s[a..SkipSpaceBack(s, a, |s|)]
  }

  /** What `trim` returns starts and ends outside white space. */
  lemma {:induction false} TrimIsTrimmed(s: string)
    ensures IsTrimmed(Trim(s))
  {
    var a := SkipSpace(s, 0);
    var e := SkipSpaceBack(s, a, |s|);
    SkipSpaceStops(s, 0);
    SkipSpaceBackStops(s, a, |s|);
    var t := s[a..e];
    if t != [] {
      assert t[0] == s[a] && t[|t| - 1] == s[e - 1];
    }
  }

  /**
   * Trim is characterised by its result alone: whenever `s` is white space,
   * then a trimmed slice `s[a..e]`, then white space, `Trim(s)` is that slice.
   */
  lemma {:induction false} TrimUnique(s: string, a: nat, e: nat)
    requires a <= e <= |s|
    requires forall j :: 0 <= j < a ==> IsSpace(s[j])
    requires forall j :: e <= j < |s| ==> IsSpace(s[j])
    requires IsTrimmed(s[a..e])
    ensures Trim(s) == s[a..e]
  {
    if a < e {
      assert s[a..e][0] == s[a] && s[a..e][e - a - 1] == s[e - 1];
      SkipSpaceTo(s, 0, a);
      SkipSpaceBackTo(s, a, |s|, e);
    } else {
      forall j | 0 <= j < |s| ensures IsSpace(s[j]) {
        assert j < a || e <= j;
      }
      SkipSpaceTo(s, 0, |s|);
      SkipSpaceBackTo(s, |s|, |s|, |s|);
    }
  }

  /** Trimming leaves untouched a string that starts and ends outside white space. */
  lemma TrimOfTrimmed(s: string)
    requires IsTrimmed(s)
    ensures Trim(s) == s
  {
    TrimUnique(s, 0, |s|);
    assert s[0..|s|] == s;
  }

  /** Trimming white space around a trimmed core yields the core. */
  lemma TrimAround(a: string, m: string, b: string)
    requires AllSpace(a) && AllSpace(b) && IsTrimmed(m)
    ensures Trim(a + m + b) == m
  {
    var s := a + m + b;
    assert s[|a|..|a| + |m|] == m;
    forall j | |a| + |m| <= j < |s| ensures IsSpace(s[j]) {
      assert s[j] == b[j - |a| - |m|];
    }
    TrimUnique(s, |a|, |a| + |m|);
  }

  // ---- case mapping -------------------------------------------------------

  /** `toUpperCase` of one character, for the ASCII letters. */
  function UpperChar(c: char): char {
    if 'a' <= c <= 'z' then (c as int - 32) as char else c
  }

  // ---- decimal digits -----------------------------------------------------

  /** `\d`: the ASCII digits only. */
  predicate IsDigit(c: char) {
    '0' <= c <= '9'
  }

  predicate AllDigits(s: string) {
    forall i :: 0 <= i < |s| ==> IsDigit(s[i])
  }

  function DigitValue(c: char): nat
    requires IsDigit(c)
  {
    c as int - '0' as int
  }

  function DigitChar(d: nat): (c: char)
    requires d < 10
    ensures IsDigit(c) && DigitValue(c) == d
  {
    ('0' as int + d) as char
  }

  function Pow10(k: nat): (p: nat)
    ensures p >= 1
  {
    if k == 0 then 1 else 10 * Pow10(k - 1)
  }

  lemma {:induction false} Pow10Monotone(j: nat, k: nat)
    requires j <= k
    ensures Pow10(j) <= Pow10(k)
  {
    if j < k {
      Pow10Monotone(j, k - 1);
    }
  }

  /** `parseInt(s, 10)` of a string of decimal digits, read most significant digit first. */
  function DecimalValue(s: string): (n: nat)
    requires AllDigits(s)
    ensures n < Pow10(|s|)
  {
    if s == [] then 0 else DecimalValue(s[..|s| - 1]) * 10 + DigitValue(s[|s| - 1])
  }

  /** Leading zeros do not change the value of a digit string. */
  lemma {:induction false} LeadingZeros(z: string, s: string)
    requires forall i :: 0 <= i < |z| ==> z[i] == '0'
    requires AllDigits(s)
    ensures AllDigits(z + s) && DecimalValue(z + s) == DecimalValue(s)
  {
    assert AllDigits(z + s) by {
      forall i | 0 <= i < |z + s| ensures IsDigit((z + s)[i]) {
        if i < |z| { assert (z + s)[i] == z[i]; } else { assert (z + s)[i] == s[i - |z|]; }
      }
    }
    if s == [] {
      assert z + s == z;
      AllZeros(z);
    } else {
      assert (z + s)[..|z + s| - 1] == z + s[..|s| - 1];
      LeadingZeros(z, s[..|s| - 1]);
    }
  }

  lemma {:induction false} AllZeros(z: string)
    requires forall i :: 0 <= i < |z| ==> z[i] == '0'
    ensures AllDigits(z) && DecimalValue(z) == 0
  {
    if z != [] {
      AllZeros(z[..|z| - 1]);
    }
  }

  /** `Number.prototype.toString()` of a non-negative integer: its decimal digits, no leading zero. */
  function NatToString(n: nat): (r: string)
    ensures |r| >= 1 && AllDigits(r) && DecimalValue(r) == n
    ensures r[0] == '0' ==> n == 0
    ensures n < Pow10(|r|) && (|r| > 1 ==> Pow10(|r| - 1) <= n)
  {
    if n < 10 then [DigitChar(n)]
    else
      var p := NatToString(n / 10);
      var r := p + [DigitChar(n % 10)];
      assert r[..|r| - 1] == p;
      r
  }

  /** A string of `k` copies of `c`. */
  function Repeat(c: char, k: nat): (r: string)
    ensures |r| == k && forall i :: 0 <= i < k ==> r[i] == c
  {
    if k == 0 then [] else [c] + Repeat(c, k - 1)
  }

  /** `padStart(width, c)`: `s` preceded by as many copies of `c` as bring it to `width`, never cut. */
  function PadStart(s: string, width: nat, c: char): (r: string)
    ensures |r| == if |s| >= width then |s| else width
    ensures r[|r| - |s|..] == s
    ensures forall i :: 0 <= i < |r| - |s| ==> r[i] == c
  {
    if |s| >= width then s else Repeat(c, width - |s|) + s
  }
}
