/** String trimming as JavaScript's `String.prototype.trim` performs it, and the
    form validation built on it. */
module Text {

  /** The WhiteSpace and LineTerminator code points of ECMA-262 (sections 12.2
      and 12.3), which `trim` strips from both ends. */
  predicate IsWhitespace(c: char) {
    || c == '\t' || c == '\n' || c == '\U{000B}' || c == '\U{000C}' || c == '\r'
    || c == ' ' || c == '\U{00A0}' || c == '\U{1680}'
    || ('\U{2000}' <= c <= '\U{200A}')
    || c == '\U{2028}' || c == '\U{2029}' || c == '\U{202F}' || c == '\U{205F}'
    || c == '\U{3000}' || c == '\U{FEFF}'
  }

  /** Every character of `s` from position `lo` up to `hi` is whitespace. */
  predicate BlankRange(s: string, lo: int, hi: int)
    requires 0 <= lo <= hi <= |s|
  {
    forall i :: lo <= i < hi ==> IsWhitespace(s[i])
  }

  /** Every character of `s` is whitespace (true of the empty string). */
  predicate Blank(s: string) {
    BlankRange(s, 0, |s|)
  }

  /** The first position from `lo` on, below `hi`, that holds a
      non-whitespace character, or `hi` when there is none. */
  function SkipForward(s: string, lo: int, hi: int): (k: int)
    requires 0 <= lo <= hi <= |s|
    ensures lo <= k <= hi && BlankRange(s, lo, k)
    ensures k < hi ==> !IsWhitespace(s[k])
    decreases hi - lo
  {
    if lo < hi && IsWhitespace(s[lo]) then SkipForward(s, lo + 1, hi) else lo
  }

  /** The position just after the last non-whitespace character below `hi`,
      at or after `lo`, or `lo` when there is none. */
  function SkipBackward(s: string, lo: int, hi: int): (k: int)
    requires 0 <= lo <= hi <= |s|
    ensures lo <= k <= hi && BlankRange(s, k, hi)
    ensures lo < k ==> !IsWhitespace(s[k - 1])
    decreases hi - lo
  {
    if lo < hi && IsWhitespace(s[hi - 1]) then SkipBackward(s, lo, hi - 1) else hi
  }

  /** `s.trim()`: `s` with a blank prefix and a blank suffix cut off, empty
      exactly for a blank string, otherwise starting and ending with a
      non-whitespace character. */
  function Trim(s: string): (r: string)
    ensures r == [] <==> Blank(s)
    ensures r != [] ==> !IsWhitespace(r[0]) && !IsWhitespace(r[|r| - 1])
    ensures exists a :: 0 <= a && a + |r| <= |s| && r == s[a..a + |r|]
                        && BlankRange(s, 0, a) && BlankRange(s, a + |r|, |s|)
  {
    var a := SkipForward(s, 0, |s|);
    var b := SkipBackward(s, a, |s|);
    s[a..b]
  }

  /** `validateFormData`: every value is non-empty once trimmed. A
      whitespace-only value is refused and the empty list is accepted. */
  function ValidateFormData(values: seq<string>): (ok: bool)
    ensures ok <==> forall i :: 0 <= i < |values| ==> !Blank(values[i])
  {
    forall i :: 0 <= i < |values| ==> Trim(values[i]) != ""
  }
}
