/** The JavaScript string operations `getCommitDetails` relies on
    (src/index.ts:52-53, 66, 68), stated over Unicode scalar values. */
module JsText {
  import opened Strings

  /** ECMAScript WhiteSpace and LineTerminator code points: what
      `String.prototype.trim` removes. */
  predicate IsJsWhitespace(c: char) {
    c == '\t' || c == '\n' || c == '\U{B}' || c == '\U{C}' || c == '\r' || c == ' '
    || c == '\U{A0}' || c == '\U{1680}' || ('\U{2000}' <= c <= '\U{200A}')
    || c == '\U{2028}' || c == '\U{2029}' || c == '\U{202F}' || c == '\U{205F}'
    || c == '\U{3000}' || c == '\U{FEFF}'
  }

  /** The code points a regular-expression `.` does not match (no `s` flag). */
  predicate IsLineTerminator(c: char) {
    c == '\n' || c == '\r' || c == '\U{2028}' || c == '\U{2029}'
  }

  /** Separators of `split(/\n|\r\n|\r/)`: every piece ends at a `\n` or a `\r`. */
  predicate IsLineBreak(c: char) { c == '\n' || c == '\r' }

  predicate AllWhitespace(s: string) {
    forall i :: 0 <= i < |s| ==> IsJsWhitespace(s[i])
  }

  /** `message.split(/\n|\r\n|\r/)[0]`: the text before the first line break. */
  function FirstLine(message: string): (r: string)
    ensures r <= message
    ensures forall i :: 0 <= i < |r| ==> !IsLineBreak(r[i])
    ensures |r| < |message| ==> IsLineBreak(message[|r|])
  {
    TakeUntil(message, IsLineBreak)
  }

  /** Number of whitespace code points at the end of `s`. */
  function TrailingSpace(s: string): (n: nat)
    ensures n <= |s|
    ensures forall i :: |s| - n <= i < |s| ==> IsJsWhitespace(s[i])
    ensures n < |s| ==> !IsJsWhitespace(s[|s| - n - 1])
  {
    if s == [] || !IsJsWhitespace(s[|s| - 1]) then 0 else 1 + TrailingSpace(s[..|s| - 1])
  }

  /** Number of whitespace code points at the start of `s`. */
  function LeadingSpace(s: string): (n: nat)
    ensures n <= |s|
    ensures AllWhitespace(s[..n])
    ensures n < |s| ==> !IsJsWhitespace(s[n])
  {
    Span(s, IsJsWhitespace)
  }

  /** `String.prototype.trim`: `s` is the result with whitespace on both sides. */
  function Trim(s: string): (r: string)
    ensures r == [] || (!IsJsWhitespace(r[0]) && !IsJsWhitespace(r[|r| - 1]))
    ensures LeadingSpace(s) + |r| <= |s|
    ensures r == s[LeadingSpace(s)..LeadingSpace(s) + |r|]
    ensures AllWhitespace(s[LeadingSpace(s) + |r|..])
  {
    var lead := LeadingSpace(s);
    if lead == |s| then []
    else
      var rest := s[lead..];
      var trail := TrailingSpace(rest);
      assert s[lead + |rest| - trail..] == rest[|rest| - trail..];
      rest[..|rest| - trail]
  }

  /** A trimmed string that has only whitespace added in front of it trims
      back to itself. */
  lemma TrimPadded(pad: string, r: string)
    requires AllWhitespace(pad)
    requires r == [] || (!IsJsWhitespace(r[0]) && !IsJsWhitespace(r[|r| - 1]))
    ensures Trim(pad + r) == r
  {
    SpanOfRun(pad, r, IsJsWhitespace);
    assert (pad + r)[|pad|..] == r;
  }

  /** `k` clamped to `0..len`, as `String.prototype.substring` treats its bounds. */
  function ClampIndex(k: int, len: nat): (r: nat)
    ensures r <= len
    ensures 0 <= k <= len ==> r == k
  {
    if k < 0 then 0 else if k > len then len else k
  }

  /** `String.prototype.substring(start, end)`: both bounds clamped, and
      swapped when `start` is past `end`. */
  function Substring(s: string, start: int, end: int): string {
    var a := ClampIndex(start, |s|);
    var b := ClampIndex(end, |s|);
    if a <= b then s[a..b] else s[b..a]
  }

  /** `substring` does not care which of its bounds comes first. */
  lemma SubstringSwap(s: string, start: int, end: int)
    ensures Substring(s, start, end) == Substring(s, end, start)
  {
  }

  /** From index 0, `substring` keeps a prefix: all of the string once the
      end reaches its length, none of it for an end at or below 0. */
  lemma SubstringFromStart(s: string, end: int)
    ensures Substring(s, 0, end) == s[..ClampIndex(end, |s|)]
    ensures end >= |s| ==> Substring(s, 0, end) == s
    ensures end <= 0 ==> Substring(s, 0, end) == ""
  {
  }
}
