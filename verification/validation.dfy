/** The form validators of the utility library, `isValidEmail` and
    `isValidPassword`. Each regular expression is written out as the set of
    strings it matches, and a lemma states that set in plain terms. */
module Validation {
  import opened Text

  /** `[^\s@]`: neither white space nor an at sign. */
  predicate IsEmailChar(c: char) {
    !IsJsSpace(c) && c != '@'
  }

  predicate AllEmailChars(s: string) {
    forall k :: 0 <= k < |s| ==> IsEmailChar(s[k])
  }

  /** `s` splits as `[^\s@]+ @ [^\s@]+ \. [^\s@]+` with the at sign at `i`
      and the dot at `j`. */
  predicate EmailSplitAt(s: string, i: int, j: int) {
    && 0 < i && i + 1 < j && j + 1 < |s|
    && s[i] == '@' && s[j] == '.'
    && AllEmailChars(s[..i]) && AllEmailChars(s[i + 1..j]) && AllEmailChars(s[j + 1..])
  }

  /** `isValidEmail(email)`: `/^[^\s@]+@[^\s@]+\.[^\s@]+$/.test(email)`. */
  predicate IsValidEmail(s: string): (b: bool)
    ensures b ==> |s| >= 5 && IsEmailChar(s[0]) && IsEmailChar(s[|s| - 1])
  {
    exists i, j :: 0 <= i < |s| && 0 <= j < |s| && EmailSplitAt(s, i, j)
  }

  /** The address rule in plain terms: exactly one at sign, no white space,
      something before the at sign, and a dot in the domain with something
      on both sides of it. */
  predicate EmailRule(s: string) {
    var at := IndexOf(s, '@');
    && 0 < at < |s|
    && (forall k :: 0 <= k < |s| && k != at ==> s[k] != '@')
    && (forall k :: 0 <= k < |s| ==> !IsJsSpace(s[k]))
    && (exists k :: at + 1 < k < |s| - 1 && s[k] == '.')
  }

  /** The pattern accepts exactly the addresses the plain rule describes. */
  lemma IsValidEmailIffRule(s: string)
    ensures IsValidEmail(s) <==> EmailRule(s)
  {
    if IsValidEmail(s) {
      var i, j :| 0 <= i < |s| && 0 <= j < |s| && EmailSplitAt(s, i, j);
      assert 0 < i && i + 1 < j && j + 1 < |s|;
      assert forall k :: 0 <= k < i ==> s[..i][k] == s[k];
      assert forall k :: i + 1 <= k < j ==> s[i + 1..j][k - i - 1] == s[k];
      assert forall k :: j + 1 <= k < |s| ==> s[j + 1..][k - j - 1] == s[k];
      assert IndexOf(s, '@') == i;
    }
    if EmailRule(s) {
      var at := IndexOf(s, '@');
      var j :| at + 1 < j < |s| - 1 && s[j] == '.';
      assert EmailSplitAt(s, at, j);
    }
  }

  /** `[@$!%*?&]`. */
  predicate IsPasswordSpecial(c: char) {
    c == '@' || c == '$' || c == '!' || c == '%' || c == '*' || c == '?' || c == '&'
  }

  /** `[A-Za-z\d@$!%*?&]`. */
  predicate IsPasswordChar(c: char) {
    IsAsciiLower(c) || IsAsciiUpper(c) || IsDigit(c) || IsPasswordSpecial(c)
  }

  /** The characters `.` does not match. */
  predicate IsLineTerminator(c: char) {
    c == '\n' || c == '\r' || c == '\U{2028}' || c == '\U{2029}'
  }

  /** The lookahead `(?=.*[cls])` at the start of `s`: a character of the
      class that only non-line-terminators precede. */
  predicate LookaheadFinds(s: string, cls: char -> bool) {
    exists i :: 0 <= i < |s| && cls(s[i]) && forall j :: 0 <= j < i ==> !IsLineTerminator(s[j])
  }

  /** `isValidPassword(password)`:
      `/^(?=.*[a-z])(?=.*[A-Z])(?=.*\d)(?=.*[@$!%*?&])[A-Za-z\d@$!%*?&]{8,}$/.test(password)`. */
  predicate IsValidPassword(p: string): (b: bool)
    ensures b ==> |p| >= 8 && forall k :: 0 <= k < |p| ==> !IsJsSpace(p[k]) && !IsLineTerminator(p[k])
  {
    && LookaheadFinds(p, IsAsciiLower)
    && LookaheadFinds(p, IsAsciiUpper)
    && LookaheadFinds(p, IsDigit)
    && LookaheadFinds(p, IsPasswordSpecial)
    && |p| >= 8
    && forall k :: 0 <= k < |p| ==> IsPasswordChar(p[k])
  }

  /** Some character of `p` is in the class. */
  predicate Has(p: string, cls: char -> bool) {
    exists i :: 0 <= i < |p| && cls(p[i])
  }

  /** The password rule in plain terms: at least eight characters, all
      letters, digits or one of `@$!%*?&`, with at least one lower-case
      letter, one upper-case letter, one digit and one of the specials. */
  lemma IsValidPasswordIffRule(p: string)
    ensures IsValidPassword(p) <==>
      && |p| >= 8
      && (forall k :: 0 <= k < |p| ==> IsPasswordChar(p[k]))
      && Has(p, IsAsciiLower) && Has(p, IsAsciiUpper) && Has(p, IsDigit) && Has(p, IsPasswordSpecial)
  {
    if (forall k :: 0 <= k < |p| ==> IsPasswordChar(p[k])) {
      assert forall k :: 0 <= k < |p| ==> !IsLineTerminator(p[k]);
    }
  }
}
