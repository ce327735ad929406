/**
 * Character classes and string operations of the JavaScript runtime that the
 * page's logic relies on: String.prototype.trim, the regular-expression
 * classes \s, \d, [a-z], [A-Z], the line terminators excluded by `.`, the
 * UTF-16 length reported by `.length`, and the decimal rendering of an
 * integer inside a template literal.
 */
module Text {

  /** JavaScript WhiteSpace or LineTerminator: the set stripped by trim() and matched by \s. */
  predicate IsWhitespace(c: char) {
    || c == '\t' || c == '\n' || c == '\U{000B}' || c == '\U{000C}' || c == '\r'
    || c == ' ' || c == '\U{00A0}' || c == '\U{1680}'
    || ('\U{2000}' <= c <= '\U{200A}')
    || c == '\U{2028}' || c == '\U{2029}' || c == '\U{202F}' || c == '\U{205F}'
    || c == '\U{3000}' || c == '\U{FEFF}'
  }

  /** The characters that the regular-expression `.` does not match. */
  predicate IsLineTerminator(c: char) {
    c == '\n' || c == '\r' || c == '\U{2028}' || c == '\U{2029}'
  }

  predicate IsAsciiLower(c: char) { 'a' <= c <= 'z' }
  predicate IsAsciiUpper(c: char) { 'A' <= c <= 'Z' }
  predicate IsAsciiLetter(c: char) { IsAsciiLower(c) || IsAsciiUpper(c) }
  /** The regular-expression class \d. */
  predicate IsAsciiDigit(c: char) { '0' <= c <= '9' }

  /** Every character of `s` is whitespace (true of the empty string). */
  predicate IsBlank(s: string) {
    forall i :: 0 <= i < |s| ==> IsWhitespace(s[i])
  }

  /** Drops leading whitespace. */
  function TrimStart(s: string): (r: string)
    ensures |r| <= |s| && r == s[|s| - |r|..]
    ensures IsBlank(s[..|s| - |r|])
    ensures r == [] || !IsWhitespace(r[0])
  {
    if |s| > 0 && IsWhitespace(s[0]) then
      var r := TrimStart(s[1..]);
      assert s[..|s| - |r|] == [s[0]] + s[1..][..|s| - 1 - |r|];
      r
    else
      s
  }

  /** Drops trailing whitespace. */
  function TrimEnd(s: string): (r: string)
    ensures |r| <= |s| && r == s[..|r|]
    ensures IsBlank(s[|r|..])
    ensures r == [] || !IsWhitespace(r[|r| - 1])
  {
    if |s| > 0 && IsWhitespace(s[|s| - 1]) then
      var r := TrimEnd(s[..|s| - 1]);
      assert s[|r|..] == s[..|s| - 1][|r|..] + [s[|s| - 1]];
      r
    else
      s
  }

  /** The contiguous slice of `s` with whitespace removed from both ends. */
  ghost predicate IsTrimOf(s: string, r: string) {
    exists lo, hi :: 0 <= lo <= hi <= |s| && r == s[lo..hi]
      && IsBlank(s[..lo]) && IsBlank(s[hi..])
      && (r == [] || (!IsWhitespace(r[0]) && !IsWhitespace(r[|r| - 1])))
  }

  /** String.prototype.trim. */
  function Trim(s: string): (r: string)
    ensures IsTrimOf(s, r)
  {
    var a := TrimStart(s);
    var r := TrimEnd(a);
    var lo := |s| - |a|;
    assert r == s[lo..lo + |r|];
    assert s[lo + |r|..] == a[|r|..];
    r
  }

  /** The trimmed value is empty exactly when the whole value is whitespace. */
  lemma TrimEmptyIffBlank(s: string)
    ensures Trim(s) == [] <==> IsBlank(s)
  {
    if IsBlank(s) {
      BlankTrimsToEmpty(s);
    }
    if Trim(s) == [] {
      EmptyTrimIsBlank(s);
    }
  }

  lemma {:induction false} BlankTrimsToEmpty(s: string)
    requires IsBlank(s)
    ensures TrimStart(s) == [] && Trim(s) == []
    decreases |s|
  {
    if |s| > 0 {
      assert IsWhitespace(s[0]);
      assert IsBlank(s[1..]) by {
        forall i | 0 <= i < |s| - 1 ensures IsWhitespace(s[1..][i]) {
          assert s[1..][i] == s[i + 1];
        }
      }
      BlankTrimsToEmpty(s[1..]);
    }
  }

  lemma EmptyTrimIsBlank(s: string)
    requires Trim(s) == []
    ensures IsBlank(s)
  {
    var a := TrimStart(s);
    assert TrimEnd(a) == [];
    assert a[0..] == a;
    assert |a| == 0;
    assert s[..|s|] == s;
  }

  lemma BlankPrefix(s: string, n: nat)
    requires n <= |s| && IsBlank(s[..n])
    ensures forall i :: 0 <= i < n ==> IsWhitespace(s[i])
  {
    forall i | 0 <= i < n ensures IsWhitespace(s[i]) {
      assert s[..n][i] == s[i];
    }
  }

  lemma BlankSuffix(s: string, n: nat)
    requires n <= |s| && IsBlank(s[n..])
    ensures forall i :: n <= i < |s| ==> IsWhitespace(s[i])
  {
    forall i | n <= i < |s| ensures IsWhitespace(s[i]) {
      assert s[n..][i - n] == s[i];
    }
  }

  /** Two whitespace-only prefixes that both end at a non-whitespace character coincide. */
  lemma FirstNonBlankUnique(s: string, a: nat, b: nat)
    requires a < |s| && b < |s|
    requires IsBlank(s[..a]) && IsBlank(s[..b])
    requires !IsWhitespace(s[a]) && !IsWhitespace(s[b])
    ensures a == b
  {
    BlankPrefix(s, a);
    BlankPrefix(s, b);
  }

  /** Two whitespace-only suffixes that both start after a non-whitespace character coincide. */
  lemma LastNonBlankUnique(s: string, a: nat, b: nat)
    requires a < |s| && b < |s|
    requires IsBlank(s[a + 1..]) && IsBlank(s[b + 1..])
    requires !IsWhitespace(s[a]) && !IsWhitespace(s[b])
    ensures a == b
  {
    BlankSuffix(s, a + 1);
    BlankSuffix(s, b + 1);
  }

  /** Any slice with whitespace-only margins and non-whitespace ends is the trimmed value. */
  lemma TrimUnique(s: string, lo: nat, hi: nat)
    requires lo <= hi <= |s|
    requires IsBlank(s[..lo]) && IsBlank(s[hi..])
    requires lo < hi ==> !IsWhitespace(s[lo]) && !IsWhitespace(s[hi - 1])
    ensures Trim(s) == s[lo..hi]
  {
    if lo == hi {
      BlankPrefix(s, lo);
      BlankSuffix(s, hi);
      TrimEmptyIffBlank(s);
    } else {
      TrimUniqueNonEmpty(s, lo, hi);
    }
  }

  lemma TrimUniqueNonEmpty(s: string, lo: nat, hi: nat)
    requires lo < hi <= |s|
    requires IsBlank(s[..lo]) && IsBlank(s[hi..])
    requires !IsWhitespace(s[lo]) && !IsWhitespace(s[hi - 1])
    ensures Trim(s) == s[lo..hi]
  {
    TrimFrom(s, lo);
    TrimEndSlice(s, lo, hi);
  }

  lemma TrimFrom(s: string, lo: nat)
    requires lo < |s| && IsBlank(s[..lo]) && !IsWhitespace(s[lo])
    ensures Trim(s) == TrimEnd(s[lo..])
  {
    TrimStartAt(s, lo);
  }

  lemma TrimEndSlice(s: string, lo: nat, hi: nat)
    requires lo < hi <= |s|
    requires IsBlank(s[hi..]) && !IsWhitespace(s[hi - 1])
    ensures TrimEnd(s[lo..]) == s[lo..hi]
  {
    var a := s[lo..];
    assert a[hi - lo..] == s[hi..] && a[hi - lo - 1] == s[hi - 1];
    TrimEndAt(a, hi - lo);
    assert a[..hi - lo] == s[lo..hi];
  }

  /** TrimStart stops at the first non-whitespace character. */
  lemma {:induction false} TrimStartAt(s: string, lo: nat)
    requires lo < |s| && IsBlank(s[..lo]) && !IsWhitespace(s[lo])
    ensures TrimStart(s) == s[lo..]
    decreases lo
  {
    if lo > 0 {
      assert s[..lo][0] == s[0];
      assert s[1..][..lo - 1] == s[..lo][1..];
      TrimStartAt(s[1..], lo - 1);
      assert s[1..][lo - 1..] == s[lo..];
    }
  }

  /** TrimEnd stops after the last non-whitespace character. */
  lemma {:induction false} TrimEndAt(s: string, hi: nat)
    requires 0 < hi <= |s| && IsBlank(s[hi..]) && !IsWhitespace(s[hi - 1])
    ensures TrimEnd(s) == s[..hi]
    decreases |s| - hi
  {
    if hi < |s| {
      assert s[hi..][|s| - 1 - hi] == s[|s| - 1];
      var p := s[..|s| - 1];
      assert p[hi..] == s[hi..][..|s| - 1 - hi];
      assert p[hi - 1] == s[hi - 1];
      TrimEndAt(p, hi);
      assert p[..hi] == s[..hi];
    }
  }

  /** Trimming keeps every non-whitespace character and adds none. */
  lemma TrimKeepsContent(s: string)
    ensures forall c :: c in Trim(s) ==> c in s
    ensures forall c :: c in s && !IsWhitespace(c) ==> c in Trim(s)
  {
    var a := TrimStart(s);
    var t := TrimEnd(a);
    var lo := |s| - |a|;
    assert a == s[lo..] && t == a[..|t|];
    BlankPrefix(s, lo);
    BlankSuffix(a, |t|);
    forall c | c in t ensures c in s {
      var j :| 0 <= j < |t| && t[j] == c;
      assert s[lo + j] == c;
    }
    forall c | c in s && !IsWhitespace(c) ensures c in t {
      var i :| 0 <= i < |s| && s[i] == c;
      assert lo <= i;
      assert a[i - lo] == c;
      assert i - lo < |t|;
      assert t[i - lo] == c;
    }
  }

  /** Trimming an already trimmed value changes nothing. */
  lemma TrimIdempotent(s: string)
    ensures Trim(Trim(s)) == Trim(s)
  {
    TrimEnds(s);
    TrimOfTrimmed(Trim(s));
  }

  /** The trimmed value starts and ends with non-whitespace characters. */
  lemma TrimEnds(s: string)
    ensures Trim(s) == [] || (!IsWhitespace(Trim(s)[0]) && !IsWhitespace(Trim(s)[|Trim(s)| - 1]))
  {
    var t := Trim(s);
    var lo, hi :| 0 <= lo <= hi <= |s| && t == s[lo..hi]
      && IsBlank(s[..lo]) && IsBlank(s[hi..])
      && (t == [] || (!IsWhitespace(t[0]) && !IsWhitespace(t[|t| - 1])));
  }

  /** A value with non-whitespace ends is its own trimmed value. */
  lemma TrimOfTrimmed(t: string)
    requires t == [] || (!IsWhitespace(t[0]) && !IsWhitespace(t[|t| - 1]))
    ensures Trim(t) == t
  {
    assert t == t[0..|t|] && t[..0] == [] && t[|t|..] == [];
    TrimUnique(t, 0, |t|);
  }

  /** Number of UTF-16 code units of one character. */
  function Units(c: char): nat {
    if c as int > 0xFFFF then 2 else 1
  }

  /** String.prototype.length: astral characters count as two code units. */
  function Utf16Length(s: string): (n: nat)
    ensures |s| <= n <= 2 * |s|
    ensures n == 0 <==> s == []
  {
    if s == [] then 0 else Units(s[0]) + Utf16Length(s[1..])
  }

  /** On Basic Multilingual Plane text, .length is the character count. */
  lemma {:induction false} Utf16LengthBmp(s: string)
    requires forall i :: 0 <= i < |s| ==> s[i] as int <= 0xFFFF
    ensures Utf16Length(s) == |s|
  {
    if s != [] {
      Utf16LengthBmp(s[1..]);
    }
  }

  predicate AllDigits(s: string) {
    forall i :: 0 <= i < |s| ==> IsAsciiDigit(s[i])
  }

  function DigitChar(d: nat): (c: char)
    requires d < 10
    ensures IsAsciiDigit(c) && c as int - '0' as int == d
  {
    (('0' as int) + d) as char
  }

  /** The number a string of decimal digits denotes, most significant digit first. */
  function DigitsValue(s: string): nat
    requires AllDigits(s)
  {
    if s == [] then 0
    else 10 * DigitsValue(s[..|s| - 1]) + (s[|s| - 1] as int - '0' as int)
  }

  /** Decimal rendering of a non-negative integer, as a template literal prints it. */
  function NatToDecimal(n: nat): (r: string)
    ensures |r| >= 1 && AllDigits(r)
    ensures r[0] == '0' ==> r == "0"
    ensures DigitsValue(r) == n
    decreases n
  {
    if n < 10 then
      [DigitChar(n)]
    else
      var p := NatToDecimal(n / 10);
      var r := p + [DigitChar(n % 10)];
      assert r[..|r| - 1] == p;
      r
  }

  /** Decimal rendering of an integer, with a leading '-' when negative. */
  function IntToDecimal(c: int): (r: string)
    ensures c < 0 <==> (|r| > 0 && r[0] == '-')
    ensures c < 0 ==> r == "-" + NatToDecimal(-c)
    ensures c >= 0 ==> r == NatToDecimal(c)
  {
    if c < 0 then "-" + NatToDecimal(-c) else NatToDecimal(c)
  }

  /** Different integers print differently. */
  lemma IntToDecimalInjective(a: int, b: int)
    requires IntToDecimal(a) == IntToDecimal(b)
    ensures a == b
  {
    if a < 0 {
      assert IntToDecimal(a)[1..] == NatToDecimal(-a);
      assert IntToDecimal(b)[1..] == NatToDecimal(-b);
    }
  }
}
