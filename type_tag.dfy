/** `TYPE_REGEX` of src/index.ts:34, `/^\[([a-zA-Z0-9\/ ]+):?([a-zA-Z0-9\/ ]*)\](.*)/`,
    as an explicit matcher that returns its three capture groups or nothing. */
module TypeTag {
  import opened Wrappers
  import opened Strings
  import opened JsText

  /** The character class `[a-zA-Z0-9\/ ]` of both tag groups. */
  predicate IsTagChar(c: char) {
    IsAsciiLetter(c) || ('0' <= c <= '9') || c == '/' || c == ' '
  }

  predicate AllTagChars(s: string) {
    forall i :: 0 <= i < |s| ==> IsTagChar(s[i])
  }

  predicate NoLineTerminator(s: string) {
    forall i :: 0 <= i < |s| ==> !IsLineTerminator(s[i])
  }

  /** The capture groups `match[1]`, `match[2]` and `match[3]`. */
  datatype TagMatch = TagMatch(kind: string, subtype: string, rest: string)

  /** The strings the regular expression matches, with the groups it captures:
      the type run is the longest one (so without a colon there is no subtype),
      and `.*` runs up to the first line terminator or the end. */
  ghost predicate TagGrammar(line: string, kind: string, colon: bool, subtype: string, rest: string, more: string) {
    && |kind| > 0 && AllTagChars(kind) && AllTagChars(subtype)
    && (!colon ==> subtype == "")
    && NoLineTerminator(rest)
    && (more == [] || IsLineTerminator(more[0]))
    && line == "[" + (kind + ((if colon then ":" else "") + (subtype + ("]" + (rest + more)))))
  }

  function MatchTag(line: string): (r: Option<TagMatch>)
    ensures r.Some? ==> AllTagChars(r.value.kind) && |r.value.kind| > 0 && AllTagChars(r.value.subtype)
    ensures r.Some? ==> NoLineTerminator(r.value.rest)
  {
    if line == [] || line[0] != '[' then None else MatchType(line[1..])
  }

  /** `([a-zA-Z0-9\/ ]+)`, greedy, after the opening bracket. */
  function MatchType(s: string): (r: Option<TagMatch>)
    ensures r.Some? ==> AllTagChars(r.value.kind) && |r.value.kind| > 0 && AllTagChars(r.value.subtype)
    ensures r.Some? ==> NoLineTerminator(r.value.rest)
  {
    var n := Span(s, IsTagChar);
    if n == 0 then None else MatchSubtype(s[..n], s[n..])
  }

  /** `:?([a-zA-Z0-9\/ ]*)` after the type run. */
  function MatchSubtype(kind: string, after: string): (r: Option<TagMatch>)
    ensures r.Some? ==> r.value.kind == kind && AllTagChars(r.value.subtype)
    ensures r.Some? ==> NoLineTerminator(r.value.rest)
  {
    var afterColon := if after != [] && after[0] == ':' then after[1..] else after;
    var k := Span(afterColon, IsTagChar);
    MatchClose(kind, afterColon[..k], afterColon[k..])
  }

  /** `\](.*)` after the subtype run. */
  function MatchClose(kind: string, subtype: string, close: string): (r: Option<TagMatch>)
    ensures r.Some? ==> r.value.kind == kind && r.value.subtype == subtype
    ensures r.Some? ==> NoLineTerminator(r.value.rest)
  {
    if close != [] && close[0] == ']' then Some(TagMatch(kind, subtype, TakeUntil(close[1..], IsLineTerminator)))
    else None
  }

  /** `.*` stops at the first line terminator. */
  lemma RestUpToTerminator(rest: string, more: string)
    requires NoLineTerminator(rest)
    requires more == [] || IsLineTerminator(more[0])
    ensures TakeUntil(rest + more, IsLineTerminator) == rest
  {
    if more == [] {
      assert rest + more == rest;
    } else {
      assert rest + more == rest + [more[0]] + more[1..];
      TakeUntilAppend(rest, more[0], more[1..], IsLineTerminator);
    }
    TakeUntilNoStop(rest, IsLineTerminator);
  }

  /** Every match the matcher reports is a parse of the line by the grammar. */
  lemma MatchTagSound(line: string)
    requires MatchTag(line).Some?
    ensures exists colon: bool, more: string :: TagGrammar(line, MatchTag(line).value.kind, colon, MatchTag(line).value.subtype, MatchTag(line).value.rest, more)
  {
    var m := MatchTag(line).value;
    assert MatchTag(line) == MatchType(line[1..]);
    var colon, more := MatchTypeParts(line[1..]);
    OpenBracket(line);
    assert TagGrammar(line, m.kind, colon, m.subtype, m.rest, more);
  }

  /** How MatchType splits what follows the opening bracket. */
  lemma MatchTypeParts(s: string) returns (colon: bool, more: string)
    requires MatchType(s).Some?
    ensures var m := MatchType(s).value;
      && (!colon ==> m.subtype == "")
      && (more == [] || IsLineTerminator(more[0]))
      && s == m.kind + ((if colon then ":" else "") + (m.subtype + ("]" + (m.rest + more))))
  {
    var n := Span(s, IsTagChar);
    assert MatchType(s) == MatchSubtype(s[..n], s[n..]);
    colon, more := MatchSubtypeParts(s[..n], s[n..]);
    var m := MatchSubtype(s[..n], s[n..]).value;
    SplitAt(s, n);
  }

  /** How MatchSubtype splits what follows the type run. */
  lemma MatchSubtypeParts(kind: string, after: string) returns (colon: bool, more: string)
    requires MatchSubtype(kind, after).Some?
    requires after == [] || !IsTagChar(after[0])
    ensures var m := MatchSubtype(kind, after).value;
      && (!colon ==> m.subtype == "")
      && (more == [] || IsLineTerminator(more[0]))
      && after == (if colon then ":" else "") + (m.subtype + ("]" + (m.rest + more)))
  {
    colon := after != [] && after[0] == ':';
    var afterColon := if colon then after[1..] else after;
    assert after == (if colon then ":" else "") + afterColon;
    var k := Span(afterColon, IsTagChar);
    var subtype, close := afterColon[..k], afterColon[k..];
    SplitAt(afterColon, k);
    assert MatchSubtype(kind, after) == MatchClose(kind, subtype, close);
    var m := MatchClose(kind, subtype, close).value;
    more := MatchCloseParts(kind, subtype, close);
  }

  /** How MatchClose splits what follows the subtype run. */
  lemma MatchCloseParts(kind: string, subtype: string, close: string) returns (more: string)
    requires MatchClose(kind, subtype, close).Some?
    ensures var m := MatchClose(kind, subtype, close).value;
      && (more == [] || IsLineTerminator(more[0]))
      && close == "]" + (m.rest + more)
  {
    var rest := TakeUntil(close[1..], IsLineTerminator);
    more := close[1 + |rest|..];
    assert close[1..] == rest + more;
  }

  /** Every parse by the grammar is the one the matcher reports: the match is
      deterministic because the class excludes `:` and `]`. */
  lemma MatchTagComplete(line: string, kind: string, colon: bool, subtype: string, rest: string, more: string)
    requires TagGrammar(line, kind, colon, subtype, rest, more)
    ensures MatchTag(line) == Some(TagMatch(kind, subtype, rest))
  {
    var after := (if colon then ":" else "") + (subtype + ("]" + (rest + more)));
    assert line[1..] == kind + after;
    MatchTypeComplete(kind, after, colon, subtype, rest, more);
  }

  lemma MatchTypeComplete(kind: string, after: string, colon: bool, subtype: string, rest: string, more: string)
    requires |kind| > 0 && AllTagChars(kind) && AllTagChars(subtype) && (!colon ==> subtype == "")
    requires NoLineTerminator(rest) && (more == [] || IsLineTerminator(more[0]))
    requires after == (if colon then ":" else "") + (subtype + ("]" + (rest + more)))
    ensures MatchType(kind + after) == Some(TagMatch(kind, subtype, rest))
  {
    SpanOfRun(kind, after, IsTagChar);
    assert (kind + after)[..|kind|] == kind && (kind + after)[|kind|..] == after;
    MatchSubtypeComplete(kind, after, colon, subtype, rest, more);
  }

  lemma MatchSubtypeComplete(kind: string, after: string, colon: bool, subtype: string, rest: string, more: string)
    requires AllTagChars(subtype) && (!colon ==> subtype == "")
    requires NoLineTerminator(rest) && (more == [] || IsLineTerminator(more[0]))
    requires after == (if colon then ":" else "") + (subtype + ("]" + (rest + more)))
    ensures MatchSubtype(kind, after) == Some(TagMatch(kind, subtype, rest))
  {
    var close := "]" + (rest + more);
    var afterColon := subtype + close;
    assert (if after != [] && after[0] == ':' then after[1..] else after) == afterColon;
    SpanOfRun(subtype, close, IsTagChar);
    assert afterColon[..|subtype|] == subtype && afterColon[|subtype|..] == close;
    assert close[1..] == rest + more;
    RestUpToTerminator(rest, more);
  }
}
