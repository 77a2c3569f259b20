/** JavaScript's `String.prototype.trim`, which decides whether an intention may start a session. */
module Text {

  /** The characters `trim` removes: the ECMAScript WhiteSpace set (TAB, VT, FF, ZWNBSP and every
      space separator of Unicode category Zs) together with the LineTerminator set (LF, CR, LS, PS). */
  predicate IsWhitespace(c: char) {
    || c == '\t' || c == '\U{B}' || c == '\U{C}' || c == ' ' || c == '\U{A0}' || c == '\U{FEFF}'
    || c == '\U{1680}' || ('\U{2000}' <= c <= '\U{200A}') || c == '\U{202F}' || c == '\U{205F}'
    || c == '\U{3000}'
    || c == '\n' || c == '\r' || c == '\U{2028}' || c == '\U{2029}'
  }

  /** Every character of `s` is whitespace (the empty string included). */
  predicate IsBlank(s: string) {
    forall i :: 0 <= i < |s| ==> IsWhitespace(s[i])
  }

  /** The index of the first character of `s` at or after `i` that is not whitespace (`|s|` if none). */
  function SkipBlanks(s: string, i: nat): (k: nat)
    requires i <= |s|
    ensures i <= k <= |s|
    ensures forall j :: i <= j < k ==> IsWhitespace(s[j])
    ensures k == |s| || !IsWhitespace(s[k])
    decreases |s| - i
  {
    if i == |s| || !IsWhitespace(s[i]) then i else SkipBlanks(s, i + 1)
  }

  /** The end of `s[lo..hi]` once its trailing whitespace is dropped. */
  function SkipBlanksBack(s: string, lo: nat, hi: nat): (k: nat)
    requires lo <= hi <= |s|
    ensures lo <= k <= hi
    ensures forall j :: k <= j < hi ==> IsWhitespace(s[j])
    ensures k == lo || !IsWhitespace(s[k - 1])
    decreases hi
  {
    if hi == lo || !IsWhitespace(s[hi - 1]) then hi else SkipBlanksBack(s, lo, hi - 1)
  }

  /** `s.trim()`: what is left of `s` once whitespace is stripped from both ends. It is empty exactly
      when `s` is blank, it neither starts nor ends with whitespace, and it is the infix of `s` that
      starts at the first non-whitespace character, everything after it being whitespace. */
  function Trim(s: string): (r: string)
    ensures r == [] <==> IsBlank(s)
    ensures r == [] || (!IsWhitespace(r[0]) && !IsWhitespace(r[|r| - 1]))
    ensures var k := SkipBlanks(s, 0);
      && k + |r| <= |s| && r == s[k..k + |r|]
      && (forall j :: k + |r| <= j < |s| ==> IsWhitespace(s[j]))
  {
    var a := SkipBlanks(s, 0);
    var b := SkipBlanksBack(s, a, |s|);
    assert b == a ==> IsBlank(s);
    assert b > a ==> s[a] == s[a..b][0] && !IsBlank(s);
    s[a..b]
  }
}
