/**
 * The four regular expressions of the contact-form validator, written out as
 * predicates over characters, together with lemmas relating each to a
 * plainer description of the strings it accepts.
 *
 *   name      /^[a-zA-Z\s]+$/
 *   email     /^[^\s@]+@[^\s@]+\.[^\s@]+$/
 *   phone     /^\+?[\d\s\-\(\)]{10,}$/
 *   password  /(?=.*[a-z])(?=.*[A-Z])(?=.*\d)/      (unanchored)
 */
module Patterns {
  import opened Text

  // ---------------------------------------------------------------- name

  /** The class [a-zA-Z\s]. */
  predicate NameChar(c: char) { IsAsciiLetter(c) || IsWhitespace(c) }

  /** /^[a-zA-Z\s]+$/ : one or more ASCII letters or whitespace, nothing else. */
  predicate NameRegex(s: string) {
    |s| >= 1 && forall i :: 0 <= i < |s| ==> NameChar(s[i])
  }

  // ---------------------------------------------------------------- email

  /** The class [^\s@]. */
  predicate EmailChar(c: char) { !IsWhitespace(c) && c != '@' }

  predicate AllEmailChars(s: string) {
    forall i :: 0 <= i < |s| ==> EmailChar(s[i])
  }

  /**
   * The regular expression read as a decomposition: local part, '@', a
   * non-empty stretch, '.', a non-empty tail, each stretch free of
   * whitespace and '@'.
   */
  ghost predicate EmailRegex(s: string) {
    exists at, dot ::
      && 0 < at && at + 1 < dot && dot + 1 < |s|
      && s[at] == '@' && s[dot] == '.'
      && AllEmailChars(s[..at]) && AllEmailChars(s[at + 1..dot]) && AllEmailChars(s[dot + 1..])
  }

  /**
   * The accepted shape stated character by character: no whitespace, exactly
   * one '@', which is not the first character, and some '.' after the '@'
   * that is neither the first nor the last character of the domain part.
   */
  predicate EmailShape(s: string) {
    && (forall i | 0 <= i < |s| :: !IsWhitespace(s[i]))
    && exists at | 0 < at < |s| ::
         && s[at] == '@'
         && (forall k | 0 <= k < |s| && k != at :: s[k] != '@')
         && (exists dot | at + 1 < dot < |s| - 1 :: s[dot] == '.')
  }

  /** A slice is free of whitespace and '@' exactly when each of its characters in `s` is. */
  lemma AllEmailCharsSlice(s: string, lo: int, hi: int)
    requires 0 <= lo <= hi <= |s|
    ensures AllEmailChars(s[lo..hi]) <==> forall k :: lo <= k < hi ==> EmailChar(s[k])
  {
    forall k | lo <= k < hi ensures s[lo..hi][k - lo] == s[k] { }
  }

  lemma EmailShapeToRegex(s: string)
    requires EmailShape(s)
    ensures EmailRegex(s)
  {
    var at :| 0 < at < |s| && s[at] == '@'
      && (forall k | 0 <= k < |s| && k != at :: s[k] != '@')
      && (exists dot | at + 1 < dot < |s| - 1 :: s[dot] == '.');
    var dot :| at + 1 < dot < |s| - 1 && s[dot] == '.';
    AllEmailCharsSlice(s, 0, at);
    AllEmailCharsSlice(s, at + 1, dot);
    AllEmailCharsSlice(s, dot + 1, |s|);
    assert s[..at] == s[0..at] && s[dot + 1..] == s[dot + 1..|s|];
  }

  lemma EmailRegexToShape(s: string)
    requires EmailRegex(s)
    ensures EmailShape(s)
  {
    var at, dot :| 0 < at && at + 1 < dot && dot + 1 < |s|
      && s[at] == '@' && s[dot] == '.'
      && AllEmailChars(s[..at]) && AllEmailChars(s[at + 1..dot]) && AllEmailChars(s[dot + 1..]);
    assert s[..at] == s[0..at] && s[dot + 1..] == s[dot + 1..|s|];
    AllEmailCharsSlice(s, 0, at);
    AllEmailCharsSlice(s, at + 1, dot);
    AllEmailCharsSlice(s, dot + 1, |s|);
    assert forall k :: 0 <= k < |s| && k != at ==> EmailChar(s[k]);
  }

  /** The character-level shape accepts exactly the strings the regular expression accepts. */
  lemma EmailShapeIffRegex(s: string)
    ensures EmailShape(s) <==> EmailRegex(s)
  {
    if EmailShape(s) { EmailShapeToRegex(s); }
    if EmailRegex(s) { EmailRegexToShape(s); }
  }

  // ---------------------------------------------------------------- phone

  /** The class [\d\s\-\(\)]. */
  predicate PhoneChar(c: char) {
    IsAsciiDigit(c) || IsWhitespace(c) || c == '-' || c == '(' || c == ')'
  }

  predicate AllPhoneChars(s: string) {
    forall i :: 0 <= i < |s| ==> PhoneChar(s[i])
  }

  /**
   * /^\+?[\d\s\-\(\)]{10,}$/ : an optional '+' and then at least ten
   * characters of the class. The quantifier counts UTF-16 code units, but
   * every member of the class is a single unit, so it counts characters.
   */
  predicate PhoneRegex(s: string) {
    || (|s| >= 10 && AllPhoneChars(s))
    || (|s| >= 11 && s[0] == '+' && AllPhoneChars(s[1..]))
  }

  /** The pattern requires no digit at all, although its error message speaks of digits. */
  lemma PhoneRegexNeedsNoDigit()
    ensures PhoneRegex("(--------)")
    ensures PhoneRegex("+----------")
  {
    assert AllPhoneChars("(--------)");
    assert "+----------"[1..] == "----------";
    assert AllPhoneChars("----------");
  }

  /** A '+' is allowed only as the first character. */
  lemma PhonePlusOnlyFirst(s: string, i: int)
    requires PhoneRegex(s)
    requires 0 < i < |s|
    ensures s[i] != '+'
  {
    if s[0] == '+' {
      assert s[i] == s[1..][i - 1];
    }
  }

  // ---------------------------------------------------------------- password

  /** The three classes the password lookaheads search for. */
  datatype CharClass = Lower | Upper | Digit

  predicate InClass(c: char, k: CharClass) {
    match k
    case Lower => IsAsciiLower(c)
    case Upper => IsAsciiUpper(c)
    case Digit => IsAsciiDigit(c)
  }

  /** No line terminator in s[from..to]: the stretch `.*` can cover. */
  predicate LineFree(s: string, from: int, to: int)
    requires 0 <= from <= to <= |s|
  {
    forall k | from <= k < to :: !IsLineTerminator(s[k])
  }

  /** (?=.*[k]) at position p: a character of class k is reachable from p without crossing a line terminator. */
  predicate LookaheadAt(s: string, p: int, k: CharClass)
    requires 0 <= p <= |s|
  {
    exists i | p <= i < |s| :: InClass(s[i], k) && LineFree(s, p, i)
  }

  /**
   * The unanchored test of /(?=.*[a-z])(?=.*[A-Z])(?=.*\d)/: some start
   * position, 0 to |s| inclusive, at which all three lookaheads succeed.
   */
  predicate PasswordRegex(s: string) {
    exists p | 0 <= p <= |s| ::
      LookaheadAt(s, p, Lower) && LookaheadAt(s, p, Upper) && LookaheadAt(s, p, Digit)
  }

  predicate Contains(s: string, k: CharClass) {
    exists i | 0 <= i < |s| :: InClass(s[i], k)
  }

  /** A match always means a lowercase letter, an uppercase letter and a digit are present. */
  lemma PasswordRegexNeedsAllClasses(s: string)
    requires PasswordRegex(s)
    ensures Contains(s, Lower) && Contains(s, Upper) && Contains(s, Digit)
  {
    var p :| 0 <= p <= |s| && LookaheadAt(s, p, Lower) && LookaheadAt(s, p, Upper) && LookaheadAt(s, p, Digit);
  }

  /** On a single line the pattern is exactly "has a lowercase letter, an uppercase letter and a digit". */
  lemma PasswordRegexSingleLine(s: string)
    requires forall i :: 0 <= i < |s| ==> !IsLineTerminator(s[i])
    ensures PasswordRegex(s) <==> Contains(s, Lower) && Contains(s, Upper) && Contains(s, Digit)
  {
    if Contains(s, Lower) && Contains(s, Upper) && Contains(s, Digit) {
      var a :| 0 <= a < |s| && InClass(s[a], Lower);
      var b :| 0 <= b < |s| && InClass(s[b], Upper);
      var c :| 0 <= c < |s| && InClass(s[c], Digit);
      assert LineFree(s, 0, a) && LineFree(s, 0, b) && LineFree(s, 0, c);
      assert LookaheadAt(s, 0, Lower) && LookaheadAt(s, 0, Upper) && LookaheadAt(s, 0, Digit);
    } else if PasswordRegex(s) {
      PasswordRegexNeedsAllClasses(s);
    }
  }

  /** With a line break the three classes must share one line: this value has all three and is rejected. */
  lemma PasswordRegexSplitLines()
    ensures Contains("Abcdefg\n1", Lower) && Contains("Abcdefg\n1", Upper) && Contains("Abcdefg\n1", Digit)
    ensures !PasswordRegex("Abcdefg\n1")
  {
    var s := "Abcdefg\n1";
    assert InClass(s[1], Lower) && InClass(s[0], Upper) && InClass(s[8], Digit);
    forall p | 0 <= p <= |s| ensures !(LookaheadAt(s, p, Lower) && LookaheadAt(s, p, Digit)) {
      if p <= 7 {
        forall i | p <= i < |s| && InClass(s[i], Digit) ensures !LineFree(s, p, i) {
          assert i == 8;
          assert IsLineTerminator(s[7]);
        }
      } else {
        forall i | p <= i < |s| ensures !InClass(s[i], Lower) {
          assert i == 8;
        }
      }
    }
  }
}
