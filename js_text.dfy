/**
 * The part of JavaScript's string handling that the message routes rely on:
 * `String.prototype.trim`, which strips the ECMAScript WhiteSpace and
 * LineTerminator code points from both ends of a string.
 */
module JsText {

  /** ECMAScript WhiteSpace (TAB, VT, FF, SP, NBSP, ZWNBSP and the other
      Unicode "Zs" spaces) together with LineTerminator (LF, CR, LS, PS). */
  predicate IsWhitespace(c: char) {
    c == '\t' || c == '\n' || c == '\U{000B}' || c == '\U{000C}' || c == '\r' ||
    c == ' ' || c == '\U{00A0}' || c == '\U{1680}' ||
    ('\U{2000}' <= c <= '\U{200A}') ||
    c == '\U{2028}' || c == '\U{2029}' || c == '\U{202F}' || c == '\U{205F}' ||
    c == '\U{3000}' || c == '\U{FEFF}'
  }

  /** Every character of `s` is whitespace (this includes the empty string). */
  predicate IsBlank(s: string) {
    forall k :: 0 <= k < |s| ==> IsWhitespace(s[k])
  }

  /** `s` neither starts nor ends with whitespace. */
  predicate IsTrimmed(s: string) {
    s == [] || (!IsWhitespace(s[0]) && !IsWhitespace(s[|s| - 1]))
  }

  /** The length of the longest whitespace prefix of `s`. */
  function LeadingBlanks(s: string): (n: nat)
    ensures n <= |s|
    ensures forall k :: 0 <= k < n ==> IsWhitespace(s[k])
    ensures n < |s| ==> !IsWhitespace(s[n])
  {
    if s != [] && IsWhitespace(s[0]) then
      var n := 1 + LeadingBlanks(s[1..]);
      assert forall k :: 1 <= k < n ==> s[k] == s[1..][k - 1];
      n
    else 0
  }

  /** The length of the longest whitespace suffix of `s`. */
  function TrailingBlanks(s: string): (n: nat)
    ensures n <= |s|
    ensures forall k :: |s| - n <= k < |s| ==> IsWhitespace(s[k])
    ensures n < |s| ==> !IsWhitespace(s[|s| - n - 1])
  {
    if s != [] && IsWhitespace(s[|s| - 1]) then
      var rest := s[..|s| - 1];
      var n := 1 + TrailingBlanks(rest);
      assert forall k :: |s| - n <= k < |s| - 1 ==> s[k] == rest[k];
      n
    else 0
  }

  /** `String.prototype.trim`: `s` with its whitespace prefix and whitespace
      suffix removed. The result has no whitespace at either end, and it is
      empty exactly when `s` is blank. */
  function Trim(s: string): (r: string)
    ensures IsTrimmed(r)
    ensures r == [] <==> IsBlank(s)
  {
    var i := LeadingBlanks(s);
    var j := |s| - TrailingBlanks(s);
    if i < j then s[i..j] else []
  }

  /** Trim keeps exactly the characters that lie between the whitespace
      prefix and the whitespace suffix: `Trim(s) == s[i..i + |Trim(s)|]` where
      `s[..i]` and `s[i + |Trim(s)|..]` are all whitespace. */
  lemma TrimIsInnerSlice(s: string)
    ensures var i := LeadingBlanks(s);
      && i + |Trim(s)| <= |s| && Trim(s) == s[i..i + |Trim(s)|]
      && (forall k :: 0 <= k < i ==> IsWhitespace(s[k]))
      && (forall k :: i + |Trim(s)| <= k < |s| ==> IsWhitespace(s[k]))
  {
    var i := LeadingBlanks(s);
    var j := |s| - TrailingBlanks(s);
    if j <= i {
      assert i == |s| && Trim(s) == [];
    }
  }

  /** Trimming an already trimmed string changes nothing. */
  lemma TrimmedIsFixed(s: string)
    requires IsTrimmed(s)
    ensures Trim(s) == s
  {
  }
}
