/** `getCommitDetails` of src/index.ts:48-108: from a commit message to the
    line shown in the release notes and the key of the section it goes in. */
module CommitDetails {
  import opened Wrappers
  import opened Strings
  import opened JsText
  import opened TypeTag

  /** The branches of the `if`/`else if` chain at src/index.ts:73-92. */
  datatype Alias = UiAlias | TestingAlias | DevDependencyAlias | UnknownTypeAlias | TestingSwap | NoAlias

  const UiTypes: seq<string> := ["ui", "ui/ux"]
  const TestingSubtypes: seq<string> := ["testing", "test", "tests", "vagrant"]
  const DevDependencyTypes: seq<string> := ["devdependency", "dependencydev"]

  /** Which branch of the chain fires for a type, a subtype and the known keys. */
  function SelectAlias(kind: string, subtype: string, keys: seq<string>): Alias {
    if Lower(kind) in UiTypes then UiAlias
    else if Lower(subtype) in TestingSubtypes then TestingAlias
    else if Lower(kind) in DevDependencyTypes then DevDependencyAlias
    else if Lower(kind) !in keys then UnknownTypeAlias
    else if subtype == "testing" then TestingSwap
    else NoAlias
  }

  /** The local variables `commitType`, `commitSubtype`, `message` and
      `commitCategory` once the `try`/`catch` is done. */
  datatype Classified = Classified(kind: string, subtype: string, text: string, category: Option<string>)

  /** src/index.ts:67-72: an `IU` suffix becomes `UI` (keeping as many leading
      code points as the TYPE has, less two), and `submissions` becomes `Submission`. */
  function FixSubtype(kind: string, subtype: string): string {
    if EndsWith(subtype, "IU") then Substring(subtype, 0, |kind| - 2) + "UI"
    else if Lower(subtype) == "submissions" then "Submission"
    else subtype
  }

  /** The `IU` fix cuts the subtype at the length of the type less two, not
      of the subtype: it turns a final `IU` into `UI` only when the type is as
      long as the subtype (or both are at most two characters long). */
  lemma IuFixBySubtypeLength(kind: string, subtype: string)
    requires EndsWith(subtype, "IU")
    ensures FixSubtype(kind, subtype) == subtype[..|subtype| - 2] + "UI" <==> |kind| == |subtype| || (|subtype| == 2 && |kind| <= 2)
  {
    var e := ClampIndex(|kind| - 2, |subtype|);
    var r := FixSubtype(kind, subtype);
    assert r == subtype[..e] + "UI";
    if r == subtype[..|subtype| - 2] + "UI" {
      assert |r| == e + 2 == |subtype|;
    }
  }

  /** A type at least two characters longer than the subtype keeps the whole
      subtype, `IU` included, and appends `UI`: `[Feature:NavIU]` shows
      `NavIUUI`. */
  lemma IuFixKeepsSuffix(kind: string, subtype: string)
    requires EndsWith(subtype, "IU") && |kind| - 2 >= |subtype|
    ensures FixSubtype(kind, subtype) == subtype + "UI"
  {
    assert subtype[..|subtype|] == subtype;
  }

  /** A type shorter than the subtype cuts into the subtype before its `IU`:
      what is kept in front of `UI` is a proper prefix of what preceded `IU`. */
  lemma IuFixCutsShort(kind: string, subtype: string)
    requires EndsWith(subtype, "IU") && |kind| < |subtype| && 2 < |subtype|
    ensures var r := FixSubtype(kind, subtype);
      && |r| < |subtype| && EndsWith(r, "UI")
      && r[..|r| - 2] < subtype[..|subtype| - 2]
  {
    var e := ClampIndex(|kind| - 2, |subtype|);
    var r := FixSubtype(kind, subtype);
    assert r == subtype[..e] + "UI";
    assert e < |subtype| - 2;
    assert r[..|r| - 2] == subtype[..e];
    assert r[|r| - 2..] == "UI";
    assert subtype[..e] == subtype[..|subtype| - 2][..e];
  }

  /** A type exactly one character longer than the subtype keeps all of it
      but the final `U`, so `IU` ends up as `IUI`: `[Featur:NavIU]` shows
      `NavIUI`. */
  lemma IuFixOneLonger(kind: string, subtype: string)
    requires EndsWith(subtype, "IU") && |kind| == |subtype| + 1
    ensures FixSubtype(kind, subtype) == subtype[..|subtype| - 1] + "UI"
    ensures FixSubtype(kind, subtype) != subtype + "UI"
  {
    var r := FixSubtype(kind, subtype);
    assert |r| == |subtype| + 1;
  }

  /** A subtype spelled `submissions` in any case becomes `Submission`; it
      cannot end in `IU`, so the first fix never takes it. */
  lemma SubmissionsRule(kind: string, subtype: string)
    requires Lower(subtype) == "submissions"
    ensures FixSubtype(kind, subtype) == "Submission"
  {
    assert Lower(subtype)[|subtype| - 1] == LowerChar(subtype[|subtype| - 1]) == 's';
    assert !EndsWith(subtype, "IU");
  }

  /** Any other subtype passes through unchanged. */
  lemma OtherSubtypeKept(kind: string, subtype: string)
    requires !EndsWith(subtype, "IU") && Lower(subtype) != "submissions"
    ensures FixSubtype(kind, subtype) == subtype
  {
  }

  /** `[Feature:NavIU]`: the subtype keeps its `IU` and gains a `UI`. */
  lemma NavIuKeepsSuffix()
    ensures FixSubtype("Feature", "NavIU") == "NavIUUI"
  {
    IuFixKeepsSuffix("Feature", "NavIU");
  }

  /** src/index.ts:73-92 applied to a type, a subtype and the trimmed remainder. */
  function ApplyAlias(kind: string, subtype: string, text: string, keys: seq<string>): (c: Classified)
    ensures c.text == text
    ensures c.category.Some? <==> SelectAlias(kind, subtype, keys) == DevDependencyAlias
    ensures c.category.Some? ==> c.category == Some("dependency") && c.kind == "DevDependency"
  {
    match SelectAlias(kind, subtype, keys)
    case UiAlias => Classified("Feature", if subtype == "" then "UI/UX" else subtype, text, None)
    case TestingAlias => Classified(kind, "Testing", text, None)
    case DevDependencyAlias => Classified("DevDependency", subtype, text, Some("dependency"))
    case UnknownTypeAlias => Classified(if subtype == "" then "Bugfix" else subtype, subtype, text, None)
    case TestingSwap => Classified("Testing", kind, text, None)
    case NoAlias => Classified(kind, subtype, text, None)
  }

  /** `match[1].replace(' ', '')` (src/index.ts:64). */
  function TagType(m: TagMatch): string {
    RemoveFirst(m.kind, ' ')
  }

  /** `match[2].replace(' ', '')` followed by the suffix fixes (src/index.ts:65, 67-72). */
  function TagSubtype(m: TagMatch): string {
    FixSubtype(TagType(m), RemoveFirst(m.subtype, ' '))
  }

  lemma RemoveSpaceKeepsTagChars(s: string)
    requires AllTagChars(s)
    ensures AllTagChars(RemoveFirst(s, ' '))
  {
    var k := FirstIndexOf(s, ' ');
    assert k < |s| ==> AllTagChars(s[..k]) && AllTagChars(s[k + 1..]);
  }

  lemma FixSubtypeKeepsTagChars(kind: string, subtype: string)
    requires AllTagChars(subtype)
    ensures AllTagChars(FixSubtype(kind, subtype))
  {
    var e := ClampIndex(|kind| - 2, |subtype|);
    assert AllTagChars(subtype[..e]);
    assert AllTagChars("UI") && AllTagChars("Submission");
  }

  lemma AliasKeepsTagChars(kind: string, subtype: string, text: string, keys: seq<string>)
    requires AllTagChars(kind) && AllTagChars(subtype)
    ensures AllTagChars(ApplyAlias(kind, subtype, text, keys).kind)
    ensures AllTagChars(ApplyAlias(kind, subtype, text, keys).subtype)
  {
    assert AllTagChars("Feature") && AllTagChars("UI/UX") && AllTagChars("Testing");
    assert AllTagChars("DevDependency") && AllTagChars("Bugfix");
  }

  lemma TrimKeepsNoTerminator(s: string)
    requires NoLineTerminator(s)
    ensures NoLineTerminator(Trim(s))
  {
    var r := Trim(s);
    var i := LeadingSpace(s);
    forall j | 0 <= j < |r| ensures !IsLineTerminator(r[j]) {
      assert r[j] == s[i + j];
    }
  }

  /** The work inside `try` (src/index.ts:58-96) on the trimmed first line;
      a line the tag grammar rejects keeps type `Bugfix` and its text. */
  function ClassifyLine(line: string, keys: seq<string>): (c: Classified)
    ensures AllTagChars(c.kind) && AllTagChars(c.subtype)
    ensures c.category.Some? ==> c.category == Some("dependency") && c.kind == "DevDependency"
    ensures MatchTag(line).None? ==> c == Classified("Bugfix", "", line, None)
    ensures MatchTag(line).Some? ==> NoLineTerminator(c.text)
    ensures MatchTag(line).Some? ==> c.text == [] || (!IsJsWhitespace(c.text[0]) && !IsJsWhitespace(c.text[|c.text| - 1]))
  {
    match MatchTag(line)
    case None =>
      assert AllTagChars("Bugfix");
      Classified("Bugfix", "", line, None)
    case Some(m) =>
      MatchedClassified(line, m, keys);
      ApplyAlias(TagType(m), TagSubtype(m), Trim(m.rest), keys)
  }

  /** What ClassifyLine promises about a line the tag grammar accepts. */
  lemma MatchedClassified(line: string, m: TagMatch, keys: seq<string>)
    requires MatchTag(line) == Some(m)
    ensures var c := ApplyAlias(TagType(m), TagSubtype(m), Trim(m.rest), keys);
      && AllTagChars(c.kind) && AllTagChars(c.subtype) && NoLineTerminator(c.text)
      && (c.text == [] || (!IsJsWhitespace(c.text[0]) && !IsJsWhitespace(c.text[|c.text| - 1])))
  {
    RemoveSpaceKeepsTagChars(m.kind);
    RemoveSpaceKeepsTagChars(m.subtype);
    FixSubtypeKeepsTagChars(TagType(m), RemoveFirst(m.subtype, ' '));
    AliasKeepsTagChars(TagType(m), TagSubtype(m), Trim(m.rest), keys);
    TrimKeepsNoTerminator(m.rest);
  }

  /** src/index.ts:98-102: `[Type]` or `[Type:Subtype]`, a space, the text. */
  function DisplayOf(c: Classified): string {
    "[" + c.kind + (if c.subtype != "" then ":" + c.subtype else "") + "] " + c.text
  }

  /** After `[` and the type comes `:` exactly when the subtype is non-empty. */
  lemma DisplaySubtypeMarker(c: Classified)
    ensures |DisplayOf(c)| > 1 + |c.kind| && DisplayOf(c)[..1 + |c.kind|] == "[" + c.kind
    ensures DisplayOf(c)[1 + |c.kind|] == ':' <==> c.subtype != ""
  {
    DisplayNested(c);
    var d := DisplayOf(c);
    var after := (if c.subtype != "" then ":" else "") + (c.subtype + ("]" + (" " + c.text)));
    assert d == "[" + (c.kind + after);
    assert d[1 + |c.kind|..] == after;
  }

  /** src/index.ts:106: the forced category, or else the lower-cased type. */
  function CategoryOf(c: Classified): string {
    if c.category.Some? then c.category.value else Lower(c.kind)
  }

  /** The object `getCommitDetails` returns: `message` and `commitType`. */
  datatype Details = Details(display: string, category: string)

  /** The line of a commit message the classifier reads (src/index.ts:52-53). */
  function HeaderLine(message: string): string {
    Trim(FirstLine(message))
  }

  /** The display line is one line of text, and the category is spelled
      with lower-case letters, digits, `/` and spaces only. */
  function GetCommitDetails(message: string, keys: seq<string>): (r: Details)
    ensures OneLine(r.display)
    ensures forall i :: 0 <= i < |r.category| ==> IsTagChar(r.category[i]) && !IsAsciiUpper(r.category[i])
  {
    var c := ClassifyLine(HeaderLine(message), keys);
    TrimKeepsOneLine(FirstLine(message));
    DisplayOfOneLine(c);
    CategoryOfChars(c);
    Details(DisplayOf(c), CategoryOf(c))
  }

  /** A first line that does not match the tag grammar is filed as a bugfix
      and shown whole, after `[Bugfix] `. */
  lemma UntaggedIsBugfix(message: string, keys: seq<string>)
    requires MatchTag(HeaderLine(message)).None?
    ensures GetCommitDetails(message, keys) == Details("[Bugfix] " + HeaderLine(message), "bugfix")
  {
    var c := ClassifyLine(HeaderLine(message), keys);
    assert c == Classified("Bugfix", "", HeaderLine(message), None);
    BugfixDetails(HeaderLine(message));
  }

  /** The display and the category of a line left as a bugfix. */
  lemma BugfixDetails(text: string)
    ensures DisplayOf(Classified("Bugfix", "", text, None)) == "[Bugfix] " + text
    ensures CategoryOf(Classified("Bugfix", "", text, None)) == "bugfix"
  {
    assert "[" + "Bugfix" + "] " == "[Bugfix] ";
    LowerBugfix();
  }

  /** Nothing after the first line break is ever looked at. */
  lemma OnlyFirstLine(message: string, lineBreak: string, more: string, keys: seq<string>)
    requires lineBreak in ["\n", "\r\n", "\r"]
    ensures GetCommitDetails(message + lineBreak + more, keys) == GetCommitDetails(message, keys)
  {
    assert message + lineBreak + more == message + [lineBreak[0]] + (lineBreak[1..] + more);
    TakeUntilAppend(message, lineBreak[0], lineBreak[1..] + more, IsLineBreak);
  }

  lemma DisplayNested(c: Classified)
    ensures DisplayOf(c) == "[" + (c.kind + ((if c.subtype != "" then ":" else "") + (c.subtype + ("]" + (" " + c.text)))))
  {
  }

  lemma SpaceThenText(text: string)
    requires NoLineTerminator(text)
    ensures NoLineTerminator(" " + text)
  {
    assert forall i :: 1 <= i < |" " + text| ==> (" " + text)[i] == text[i - 1];
  }

  /** Matching a display line again gives back its type and subtype. */
  lemma DisplayMatches(c: Classified)
    requires c.kind != "" && AllTagChars(c.kind) && AllTagChars(c.subtype)
    ensures MatchTag(DisplayOf(c)) == Some(TagMatch(c.kind, c.subtype, TakeUntil(" " + c.text, IsLineTerminator)))
  {
    var tail := " " + c.text;
    var rest := TakeUntil(tail, IsLineTerminator);
    var more := tail[|rest|..];
    assert tail == rest + more;
    DisplayNested(c);
    MatchTagComplete(DisplayOf(c), c.kind, c.subtype != "", c.subtype, rest, more);
  }

  /** The display line is itself a well-formed tag: matching it again yields
      the final type and subtype. */
  lemma DisplayReparses(message: string, keys: seq<string>)
    requires ClassifyLine(HeaderLine(message), keys).kind != ""
    ensures var c := ClassifyLine(HeaderLine(message), keys);
      var r := MatchTag(GetCommitDetails(message, keys).display);
      r.Some? && r.value.kind == c.kind && r.value.subtype == c.subtype
  {
    var c := ClassifyLine(HeaderLine(message), keys);
    assert GetCommitDetails(message, keys).display == DisplayOf(c);
    DisplayMatches(c);
  }

  /** For a tagged line, the remainder captured from the display line trims
      back to exactly the text shown. */
  lemma DisplayTextReparses(message: string, keys: seq<string>)
    requires MatchTag(HeaderLine(message)).Some?
    requires ClassifyLine(HeaderLine(message), keys).kind != ""
    ensures var c := ClassifyLine(HeaderLine(message), keys);
      var r := MatchTag(GetCommitDetails(message, keys).display);
      r.Some? && r.value.rest == " " + c.text && Trim(r.value.rest) == c.text
  {
    var c := ClassifyLine(HeaderLine(message), keys);
    assert GetCommitDetails(message, keys).display == DisplayOf(c);
    DisplayTextMatches(c);
  }

  lemma DisplayTextMatches(c: Classified)
    requires c.kind != "" && AllTagChars(c.kind) && AllTagChars(c.subtype)
    requires NoLineTerminator(c.text)
    requires c.text == [] || (!IsJsWhitespace(c.text[0]) && !IsJsWhitespace(c.text[|c.text| - 1]))
    ensures MatchTag(DisplayOf(c)) == Some(TagMatch(c.kind, c.subtype, " " + c.text))
    ensures Trim(" " + c.text) == c.text
  {
    DisplayMatches(c);
    SpaceThenText(c.text);
    TakeUntilNoStop(" " + c.text, IsLineTerminator);
    TrimPadded(" ", c.text);
  }

  /** Removing the first space empties a string only when it is one space. */
  lemma RemoveSpaceEmpty(s: string)
    requires s != []
    ensures RemoveFirst(s, ' ') == "" <==> s == " "
  {
    if ' ' in s {
      var k := FirstIndexOf(s, ' ');
      assert ' ' !in s[..k];
      assert |RemoveFirst(s, ' ')| == |s| - 1;
    }
  }

  /** The display type is empty, as the reparsing lemmas exclude, only for the
      type group ` ` (one space) with a testing subtype (`[ :test] x` shows
      `[:Testing] x`), or when the empty name is itself a key. */
  lemma EmptyDisplayType(line: string, keys: seq<string>)
    ensures ClassifyLine(line, keys).kind == "" <==>
      && MatchTag(line).Some?
      && MatchTag(line).value.kind == " "
      && (Lower(TagSubtype(MatchTag(line).value)) in TestingSubtypes || "" in keys)
  {
    if MatchTag(line).Some? {
      var m := MatchTag(line).value;
      RemoveSpaceEmpty(m.kind);
      AliasEmptyKind(TagType(m), TagSubtype(m), Trim(m.rest), keys);
    }
  }

  /** The chain leaves the type empty only when it was empty and either the
      testing branch or no branch at all fired. */
  lemma AliasEmptyKind(kind: string, subtype: string, text: string, keys: seq<string>)
    ensures ApplyAlias(kind, subtype, text, keys).kind == "" <==> kind == "" && (Lower(subtype) in TestingSubtypes || "" in keys)
  {
    TestingSwapUnreachable(kind, subtype, keys);
    if kind == "" {
      assert Lower(kind) == "";
    }
  }

  /** The lower-cased forms of the types the rules write. */
  lemma LowerOfRuleTypes()
    ensures Lower("Feature") == "feature" && Lower("Bugfix") == "bugfix"
  {
    LowerFeature();
    LowerBugfix();
  }

  lemma LowerFeature()
    ensures Lower("Feature") == "feature"
  {
    assert "Feature" == ['F'] + "eature" && "feature" == ['f'] + "eature";
    LowerCapitalized('F', "eature");
  }

  lemma LowerBugfix()
    ensures Lower("Bugfix") == "bugfix"
  {
    assert "Bugfix" == ['B'] + "ugfix" && "bugfix" == ['b'] + "ugfix";
    LowerCapitalized('B', "ugfix");
  }

  /** The branch that swaps type and `testing` subtype (src/index.ts:89-92)
      never fires: an exact `testing` already lower-cases into the earlier
      testing branch. */
  lemma TestingSwapUnreachable(kind: string, subtype: string, keys: seq<string>)
    ensures SelectAlias(kind, subtype, keys) != TestingSwap
  {
    if subtype == "testing" {
      LowerOfLowerCase(subtype);
    }
  }

  /** Type `ui` or `ui/ux` in any case becomes `Feature`, the subtype `UI/UX`
      only if it was empty, and no later rule applies (not even to a testing
      subtype). */
  lemma UiRule(line: string, keys: seq<string>)
    requires MatchTag(line).Some?
    requires Lower(TagType(MatchTag(line).value)) in UiTypes
    ensures var m := MatchTag(line).value;
      var subtype := TagSubtype(m);
      var c := ClassifyLine(line, keys);
      && c == Classified("Feature", if subtype == "" then "UI/UX" else subtype, Trim(m.rest), None)
      && CategoryOf(c) == "feature"
  {
    LowerOfRuleTypes();
  }

  /** A testing subtype (`testing`, `test`, `tests`, `vagrant` in any case)
      on a non-UI type is renamed `Testing`; type and category stay those of
      the type. */
  lemma TestingRule(line: string, keys: seq<string>)
    requires MatchTag(line).Some?
    requires Lower(TagType(MatchTag(line).value)) !in UiTypes
    requires Lower(TagSubtype(MatchTag(line).value)) in TestingSubtypes
    ensures var m := MatchTag(line).value;
      var c := ClassifyLine(line, keys);
      && c == Classified(TagType(m), "Testing", Trim(m.rest), None)
      && CategoryOf(c) == Lower(TagType(m))
  {
  }

  /** The category of a message whose subtype is a testing alias, under a
      non-UI type, is the lowered type, whatever that type is. */
  lemma TestingCategory(message: string, keys: seq<string>)
    requires MatchTag(HeaderLine(message)).Some?
    requires Lower(TagType(MatchTag(HeaderLine(message)).value)) !in UiTypes
    requires Lower(TagSubtype(MatchTag(HeaderLine(message)).value)) in TestingSubtypes
    ensures GetCommitDetails(message, keys).category == Lower(TagType(MatchTag(HeaderLine(message)).value))
  {
    TestingRule(HeaderLine(message), keys);
  }

  /** `devdependency`/`dependencydev` in any case is shown as `DevDependency`
      and filed under `dependency`, unless a testing subtype took precedence. */
  lemma DevDependencyRule(line: string, keys: seq<string>)
    requires MatchTag(line).Some?
    requires Lower(TagType(MatchTag(line).value)) in DevDependencyTypes
    requires Lower(TagSubtype(MatchTag(line).value)) !in TestingSubtypes
    ensures var m := MatchTag(line).value;
      var c := ClassifyLine(line, keys);
      && c == Classified("DevDependency", TagSubtype(m), Trim(m.rest), Some("dependency"))
      && CategoryOf(c) == "dependency"
  {
    var m := MatchTag(line).value;
    assert ClassifyLine(line, keys) == ApplyAlias(TagType(m), TagSubtype(m), Trim(m.rest), keys);
    DevDependencyAliasOf(TagType(m), TagSubtype(m), Trim(m.rest), keys);
  }

  lemma DevDependencyAliasOf(kind: string, subtype: string, text: string, keys: seq<string>)
    requires Lower(kind) in DevDependencyTypes && Lower(subtype) !in TestingSubtypes
    ensures ApplyAlias(kind, subtype, text, keys) == Classified("DevDependency", subtype, text, Some("dependency"))
  {
    assert |Lower(kind)| == 13;
  }

  /** The category is the lower-cased display type, except exactly when the
      dev-dependency rule forced `dependency`. */
  lemma CategoryIsLoweredType(line: string, keys: seq<string>)
    ensures var c := ClassifyLine(line, keys);
      CategoryOf(c) != Lower(c.kind)
      <==> MatchTag(line).Some? && SelectAlias(TagType(MatchTag(line).value), TagSubtype(MatchTag(line).value), keys) == DevDependencyAlias
  {
    var c := ClassifyLine(line, keys);
    if c.category.Some? {
      assert Lower(c.kind) != "dependency" by {
        assert |Lower("DevDependency")| != |"dependency"|;
      }
    }
  }

  /** A type outside the key list is replaced by the subtype, or by `Bugfix`
      when there is none; the result is not checked against the keys again. */
  lemma UnknownTypeRule(line: string, keys: seq<string>)
    requires MatchTag(line).Some?
    requires var kind := Lower(TagType(MatchTag(line).value));
      kind !in UiTypes && kind !in DevDependencyTypes && kind !in keys
    requires Lower(TagSubtype(MatchTag(line).value)) !in TestingSubtypes
    ensures var m := MatchTag(line).value;
      var subtype := TagSubtype(m);
      var c := ClassifyLine(line, keys);
      && c == Classified(if subtype == "" then "Bugfix" else subtype, subtype, Trim(m.rest), None)
      && CategoryOf(c) == Lower(c.kind)
  {
  }

  /** A known type with an ordinary subtype passes through unchanged and is
      filed under its own key. */
  lemma KnownTypeKept(line: string, keys: seq<string>)
    requires MatchTag(line).Some?
    requires var kind := Lower(TagType(MatchTag(line).value));
      kind !in UiTypes && kind !in DevDependencyTypes && kind in keys
    requires Lower(TagSubtype(MatchTag(line).value)) !in TestingSubtypes
    ensures var m := MatchTag(line).value;
      var c := ClassifyLine(line, keys);
      && c == Classified(TagType(m), TagSubtype(m), Trim(m.rest), None)
      && CategoryOf(c) in keys
  {
    var m := MatchTag(line).value;
    TestingSwapUnreachable(TagType(m), TagSubtype(m), keys);
  }

  lemma OneLineConcat(a: string, b: string)
    requires OneLine(a) && OneLine(b)
    ensures OneLine(a + b)
  {
    assert forall i :: |a| <= i < |a + b| ==> (a + b)[i] == b[i - |a|];
  }

  lemma TrimKeepsOneLine(s: string)
    requires OneLine(s)
    ensures OneLine(Trim(s))
  {
    var r := Trim(s);
    var i := LeadingSpace(s);
    forall j | 0 <= j < |r| ensures r[j] != '\n' {
      assert r[j] == s[i + j];
    }
  }

  /** The display line is a single line: it can be a bullet of its own. */
  lemma DisplayOfOneLine(c: Classified)
    requires AllTagChars(c.kind) && AllTagChars(c.subtype) && OneLine(c.text)
    ensures OneLine(DisplayOf(c))
  {
    DisplayNested(c);
    var sep := if c.subtype != "" then ":" else "";
    OneLineConcat(" ", c.text);
    OneLineConcat("]", " " + c.text);
    OneLineConcat(c.subtype, "]" + (" " + c.text));
    OneLineConcat(sep, c.subtype + ("]" + (" " + c.text)));
    OneLineConcat(c.kind, sep + (c.subtype + ("]" + (" " + c.text))));
    OneLineConcat("[", c.kind + (sep + (c.subtype + ("]" + (" " + c.text)))));
  }

  lemma CategoryOfChars(c: Classified)
    requires AllTagChars(c.kind)
    requires c.category.Some? ==> c.category == Some("dependency")
    ensures forall i :: 0 <= i < |CategoryOf(c)| ==> IsTagChar(CategoryOf(c)[i]) && !IsAsciiUpper(CategoryOf(c)[i])
  {
    if c.category.None? {
      assert forall i :: 0 <= i < |Lower(c.kind)| ==> Lower(c.kind)[i] == LowerChar(c.kind[i]);
    }
  }
}
