/** The optional value both matchers return instead of failing. */
module Wrappers {
  datatype Option<+T> = None | Some(value: T)
}

/** Character-level string helpers shared by both versions of the classifier. */
module Strings {

  predicate IsAsciiUpper(c: char) { 'A' <= c <= 'Z' }

  predicate IsAsciiLetter(c: char) { 'A' <= c <= 'Z' || 'a' <= c <= 'z' }

  /** ASCII lower-casing of one character. */
  function LowerChar(c: char): (r: char)
    ensures IsAsciiUpper(c) ==> r as int == c as int + 32
    ensures !IsAsciiUpper(c) ==> r == c
  {
    if IsAsciiUpper(c) then (c as int + 32) as char else c
  }

  /** ASCII lower-casing of a string, character by character. */
  function Lower(s: string): (r: string)
    ensures |r| == |s|
    ensures forall i :: 0 <= i < |s| ==> r[i] == LowerChar(s[i])
  {
    if s == [] then [] else [LowerChar(s[0])] + Lower(s[1..])
  }

  lemma LowerOfLowerCase(s: string)
    requires forall i :: 0 <= i < |s| ==> !IsAsciiUpper(s[i])
    ensures Lower(s) == s
  {
  }

  lemma LowerConcat(a: string, b: string)
    ensures Lower(a + b) == Lower(a) + Lower(b)
  {
  }

  /** A capitalised word lower-cases to its first letter lowered, followed by the rest. */
  lemma LowerCapitalized(c: char, rest: string)
    requires forall i :: 0 <= i < |rest| ==> !IsAsciiUpper(rest[i])
    ensures Lower([c] + rest) == [LowerChar(c)] + rest
  {
    LowerConcat([c], rest);
    LowerOfLowerCase(rest);
  }

  /** Number of leading characters of `s` that satisfy `p`: the length of the
      longest prefix a greedy character-class repetition would consume. */
  function Span(s: string, p: char -> bool): (n: nat)
    ensures n <= |s|
    ensures forall i :: 0 <= i < n ==> p(s[i])
    ensures n < |s| ==> !p(s[n])
  {
    if s == [] || !p(s[0]) then 0 else 1 + Span(s[1..], p)
  }

  /** A greedy repetition stops exactly after a run of `p`-characters that is
      followed by a non-`p` character or by the end of the string. */
  lemma {:induction false} SpanOfRun(u: string, v: string, p: char -> bool)
    requires forall i :: 0 <= i < |u| ==> p(u[i])
    requires v == [] || !p(v[0])
    ensures Span(u + v, p) == |u|
  {
    if u != [] {
      assert (u + v)[1..] == u[1..] + v;
      SpanOfRun(u[1..], v, p);
    }
  }

  /** The prefix of `s` up to (not including) the first character that
      satisfies `stop`. */
  function TakeUntil(s: string, stop: char -> bool): (r: string)
    ensures r <= s
    ensures forall i :: 0 <= i < |r| ==> !stop(r[i])
    ensures |r| < |s| ==> stop(s[|r|])
  {
    if s == [] || stop(s[0]) then [] else [s[0]] + TakeUntil(s[1..], stop)
  }

  /** Whatever follows the first stop character does not change the prefix. */
  lemma {:induction false} TakeUntilAppend(u: string, c: char, v: string, stop: char -> bool)
    requires stop(c)
    ensures TakeUntil(u + [c] + v, stop) == TakeUntil(u, stop)
  {
    if u != [] && !stop(u[0]) {
      assert (u + [c] + v)[1..] == u[1..] + [c] + v;
      TakeUntilAppend(u[1..], c, v, stop);
    }
  }

  /** A string free of stop characters is its own prefix. */
  lemma {:induction false} TakeUntilNoStop(u: string, stop: char -> bool)
    requires forall i :: 0 <= i < |u| ==> !stop(u[i])
    ensures TakeUntil(u, stop) == u
  {
    if u != [] {
      TakeUntilNoStop(u[1..], stop);
    }
  }

  /** Index of the first `c` in `s`, or `|s|` when there is none (`indexOf`). */
  function FirstIndexOf(s: string, c: char): (k: nat)
    ensures k <= |s|
    ensures forall i :: 0 <= i < k ==> s[i] != c
    ensures k < |s| ==> s[k] == c
  {
    if s == [] || s[0] == c then 0 else 1 + FirstIndexOf(s[1..], c)
  }

  /** Removes the first occurrence of `c` only, as JavaScript's
      `String.prototype.replace` does when its pattern is a plain string. */
  function RemoveFirst(s: string, c: char): (r: string)
    ensures c !in s ==> r == s
    ensures forall k :: 0 <= k < |s| && s[k] == c && c !in s[..k] ==> r == s[..k] + s[k + 1..]
  {
    var k := FirstIndexOf(s, c);
    if k == |s| then
      assert forall i :: 0 <= i < |s| ==> s[i] != c;
      s
    else
      assert forall j :: 0 <= j < |s| && s[j] == c && c !in s[..j] ==> j == k by {
        forall j | 0 <= j < |s| && s[j] == c && c !in s[..j] ensures j == k {
          assert forall i :: 0 <= i < j ==> s[i] != c by {
            forall i | 0 <= i < j ensures s[i] != c { assert s[..j][i] == s[i]; }
          }
        }
      }
      s[..k] + s[k + 1..]
  }

  /** A string is its first `k` characters followed by the rest. */
  lemma SplitAt(s: string, k: nat)
    requires k <= |s|
    ensures s == s[..k] + s[k..]
  {
  }

  /** A string is what precedes position `k`, the character there, and the rest. */
  lemma SplitAround(s: string, k: nat)
    requires k < |s|
    ensures s == s[..k] + ([s[k]] + s[k + 1..])
  {
  }

  /** Concatenation regrouped to the right. */
  lemma Regroup<T>(a: seq<T>, b: seq<T>, c: seq<T>)
    ensures a + b + c == a + (b + c)
  {
  }

  /** A line that opens with a bracket is the bracket and the rest. */
  lemma OpenBracket(line: string)
    requires |line| > 0 && line[0] == '['
    ensures line == "[" + line[1..]
  {
  }

  /** No line feed anywhere: the text fits on one Markdown line. */
  predicate OneLine(s: string) {
    forall i :: 0 <= i < |s| ==> s[i] != '\n'
  }

  predicate EndsWith(s: string, suffix: string) {
    |suffix| <= |s| && s[|s| - |suffix|..] == suffix
  }
}
