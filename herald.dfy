/** The older script herald.py: the same nine categories with a `VPAT`
    title, a simpler tag expression, a classification that always lands on
    a key, and lists printed in the order the commits came in. */
module Herald {
  import opened Wrappers
  import opened Strings
  import opened Aggregation
  import opened NotesText

  /** The keys of `release_commits` (herald.py:39-76), in declaration order. */
  const Keys: seq<string> := ["security", "breaking", "feature", "vpat", "bugfix", "refactor", "dependency", "testing", "documentation"]

  /** The titles of `release_commits`, one per key. */
  const Titles: seq<string> := ["SECURITY", "BREAKING", "FEATURE / ENHANCEMENT", "VPAT", "BUGFIX", "REFACTOR", "SUPPORTING REPOSITORIES & VENDOR PACKAGES", "TESTING / BUILD", "DOCUMENTATION"]

  lemma KeysDistinct()
    ensures Distinct(Keys) && |Titles| == |Keys| && "bugfix" in Keys
  {
  }

  /** The line boundaries of Python's `str.splitlines`. */
  predicate IsLineBoundary(c: char) {
    c == '\n' || c == '\r' || c == '\U{B}' || c == '\U{C}' || c == '\U{1C}' || c == '\U{1D}' || c == '\U{1E}'
    || c == '\U{85}' || c == '\U{2028}' || c == '\U{2029}'
  }

  /** `message.splitlines()[0]` (herald.py:81). An empty message splits into
      no lines at all, and the index raises `IndexError`. */
  function FirstLine(message: string): (r: Option<string>)
    ensures r.None? <==> message == []
    ensures r.Some? ==> r.value <= message && forall i :: 0 <= i < |r.value| ==> !IsLineBoundary(r.value[i])
    ensures r.Some? && |r.value| < |message| ==> IsLineBoundary(message[|r.value|])
  {
    if message == [] then None else Some(TakeUntil(message, IsLineBoundary))
  }

  /** A message's first line does not depend on what follows the first boundary. */
  lemma OnlyFirstLine(line: string, boundary: char, more: string)
    requires forall i :: 0 <= i < |line| ==> !IsLineBoundary(line[i])
    requires IsLineBoundary(boundary)
    ensures FirstLine(line + [boundary] + more) == Some(line)
  {
    TakeUntilAppend(line, boundary, more, IsLineBoundary);
    TakeUntilNoStop(line, IsLineBoundary);
  }

  /** The first line of every message, as far as the messages are not empty. */
  function Lines(messages: seq<string>): (lines: seq<string>)
    ensures |lines| == |messages|
    ensures forall i :: 0 <= i < |messages| && messages[i] != [] ==> FirstLine(messages[i]) == Some(lines[i])
  {
    seq(|messages|, i requires 0 <= i < |messages| => TakeUntil(messages[i], IsLineBoundary))
  }

  /** The position of the first empty message, or `|messages|`. */
  function FirstEmpty(messages: seq<string>): (n: nat)
    ensures n <= |messages|
    ensures forall k :: 0 <= k < n ==> messages[k] != []
    ensures n < |messages| ==> messages[n] == []
  {
    if messages == [] || messages[0] == [] then 0 else 1 + FirstEmpty(messages[1..])
  }

  /** A loop that stops at the first empty message stops at `i`. */
  lemma FirstEmptyAt(messages: seq<string>, i: nat)
    requires i <= |messages| && forall k :: 0 <= k < i ==> messages[k] != []
    requires i < |messages| ==> messages[i] == []
    ensures FirstEmpty(messages) == i
  {
  }

  predicate IsColon(c: char) { c == ':' }

  predicate AllLetters(s: string) {
    forall i :: 0 <= i < |s| ==> IsAsciiLetter(s[i])
  }

  predicate AllColons(s: string) {
    forall i :: 0 <= i < |s| ==> IsColon(s[i])
  }

  /** The capture groups `group(1)` and `group(2)` of `type_regex`. */
  datatype TypeMatch = TypeMatch(kind: string, subtype: string)

  /** The lines `^\[([a-zA-Z]+):*([a-zA-Z]*)\].*` (herald.py:78) matches, with
      the groups `re.match` captures. The type run is the longest one, so
      without a colon there is no subtype; every line the expression matches
      has such a parse, and `.*` accepts whatever follows the bracket. */
  ghost predicate TagGrammar(line: string, kind: string, colons: string, subtype: string, rest: string) {
    && |kind| > 0 && AllLetters(kind) && AllColons(colons) && AllLetters(subtype)
    && (colons == [] ==> subtype == [])
    && line == "[" + (kind + (colons + (subtype + ("]" + rest))))
  }

  /** `re.match(type_regex, message)` (herald.py:83): the two groups, or
      nothing where Python returns `None`. */
  function MatchTag(line: string): (r: Option<TypeMatch>)
    ensures r.Some? ==> |r.value.kind| > 0 && AllLetters(r.value.kind) && AllLetters(r.value.subtype)
  {
    if line == [] || line[0] != '[' then None
    else
      var s := line[1..];
      var n := Span(s, IsAsciiLetter);
      if n == 0 then None else MatchAfterType(s[..n], s[n..])
  }

  /** `:*([a-zA-Z]*)\]` after the type run. */
  function MatchAfterType(kind: string, after: string): (r: Option<TypeMatch>)
    ensures r.Some? ==> r.value.kind == kind && AllLetters(r.value.subtype)
  {
    var c := Span(after, IsColon);
    var close := after[c..];
    var k := Span(close, IsAsciiLetter);
    if k < |close| && close[k] == ']' then Some(TypeMatch(kind, close[..k])) else None
  }

  /** Every match is a parse of the line by the grammar. */
  lemma MatchTagSound(line: string)
    requires MatchTag(line).Some?
    ensures exists colons: string, rest: string :: TagGrammar(line, MatchTag(line).value.kind, colons, MatchTag(line).value.subtype, rest)
  {
    var s := line[1..];
    var n := Span(s, IsAsciiLetter);
    var colons, rest := MatchAfterTypeParts(s[..n], s[n..]);
    var m := MatchTag(line).value;
    SplitAt(s, n);
    OpenBracket(line);
    assert TagGrammar(line, m.kind, colons, m.subtype, rest);
  }

  /** How MatchAfterType splits what follows the type run. */
  lemma MatchAfterTypeParts(kind: string, after: string) returns (colons: string, rest: string)
    requires MatchAfterType(kind, after).Some?
    requires after == [] || !IsAsciiLetter(after[0])
    ensures var m := MatchAfterType(kind, after).value;
      && AllColons(colons) && (colons == [] ==> m.subtype == [])
      && after == colons + (m.subtype + ("]" + rest))
  {
    var c := Span(after, IsColon);
    colons := after[..c];
    rest := CloseParts(after[c..]);
    SplitAt(after, c);
  }

  /** How the subtype run and the closing bracket split what follows the colons. */
  lemma CloseParts(close: string) returns (rest: string)
    requires var k := Span(close, IsAsciiLetter); k < |close| && close[k] == ']'
    ensures var k := Span(close, IsAsciiLetter); close == close[..k] + ("]" + rest)
  {
    var k := Span(close, IsAsciiLetter);
    rest := close[k + 1..];
    SplitAround(close, k);
  }

  /** Every parse by the grammar is the match `re.match` reports. */
  lemma MatchTagComplete(line: string, kind: string, colons: string, subtype: string, rest: string)
    requires TagGrammar(line, kind, colons, subtype, rest)
    ensures MatchTag(line) == Some(TypeMatch(kind, subtype))
  {
    var after := colons + (subtype + ("]" + rest));
    assert line[1..] == kind + after;
    SpanOfRun(kind, after, IsAsciiLetter);
    assert (kind + after)[..|kind|] == kind && (kind + after)[|kind|..] == after;
    MatchAfterTypeComplete(kind, colons, subtype, rest);
  }

  lemma MatchAfterTypeComplete(kind: string, colons: string, subtype: string, rest: string)
    requires AllColons(colons) && AllLetters(subtype)
    ensures MatchAfterType(kind, colons + (subtype + ("]" + rest))) == Some(TypeMatch(kind, subtype))
  {
    var close := subtype + ("]" + rest);
    var after := colons + close;
    SpanOfRun(colons, close, IsColon);
    assert after[|colons|..] == close;
    SpanOfRun(subtype, "]" + rest, IsAsciiLetter);
    assert close[..|subtype|] == subtype;
  }

  /** herald.py:84-93: the key a first line is filed under. */
  function Category(line: string, keys: seq<string>): (k: string)
    ensures "bugfix" in keys ==> k in keys
  {
    match MatchTag(line)
    case None => "bugfix"  // `AttributeError` on `None.group`, caught at herald.py:90-91
    case Some(m) => OrBugfix(TagCategory(m, keys), keys)
  }

  /** herald.py:92-93: a name that is not a key falls back to `bugfix`. */
  function OrBugfix(kind: string, keys: seq<string>): string {
    if kind in keys then kind else "bugfix"
  }

  /** herald.py:84-89: the lower-cased type, or for an unknown type the subtype. */
  function TagCategory(m: TypeMatch, keys: seq<string>): string {
    var kind, subtype := Lower(m.kind), Lower(m.subtype);
    if kind !in keys then (if subtype == "" then "bugfix" else subtype)
    else if subtype == "testing" then "testing"
    else kind
  }

  /** The entry of a first line: its category and the line itself, verbatim
      (herald.py:95). */
  function EntryOf(keys: seq<string>): string -> Entry {
    line => Entry(Category(line, keys), line)
  }

  /** A line the expression does not match is a bugfix. */
  lemma UntaggedIsBugfix(line: string, keys: seq<string>)
    ensures (forall kind, colons, subtype, rest :: !TagGrammar(line, kind, colons, subtype, rest)) ==> Category(line, keys) == "bugfix"
  {
    if MatchTag(line).Some? {
      MatchTagSound(line);
    }
  }

  /** The key of a parsed line, in terms of the groups of the parse. */
  lemma ParsedCategory(line: string, kind: string, colons: string, subtype: string, rest: string, keys: seq<string>)
    requires TagGrammar(line, kind, colons, subtype, rest)
    ensures Category(line, keys) == OrBugfix(TagCategory(TypeMatch(kind, subtype), keys), keys)
  {
    MatchTagComplete(line, kind, colons, subtype, rest);
  }

  /** A known type with the subtype `testing`, in any case, is filed under `testing`. */
  lemma TestingRule(line: string, kind: string, colons: string, subtype: string, rest: string, keys: seq<string>)
    requires TagGrammar(line, kind, colons, subtype, rest)
    requires Lower(kind) in keys && Lower(subtype) == "testing" && "testing" in keys
    ensures Category(line, keys) == "testing"
  {
    ParsedCategory(line, kind, colons, subtype, rest, keys);
  }

  /** A known type with any other subtype is filed under the lower-cased type. */
  lemma KnownTypeRule(line: string, kind: string, colons: string, subtype: string, rest: string, keys: seq<string>)
    requires TagGrammar(line, kind, colons, subtype, rest)
    requires Lower(kind) in keys && Lower(subtype) != "testing"
    ensures Category(line, keys) == Lower(kind)
  {
    ParsedCategory(line, kind, colons, subtype, rest, keys);
  }

  /** An unknown type without a subtype is a bugfix. */
  lemma UnknownTypeNoSubtype(line: string, kind: string, colons: string, rest: string, keys: seq<string>)
    requires TagGrammar(line, kind, colons, "", rest)
    requires Lower(kind) !in keys
    ensures Category(line, keys) == "bugfix"
  {
    ParsedCategory(line, kind, colons, "", rest, keys);
  }

  /** An unknown type with a subtype is filed under the lower-cased subtype
      when that is a key, and is a bugfix otherwise. */
  lemma UnknownTypeBySubtype(line: string, kind: string, colons: string, subtype: string, rest: string, keys: seq<string>)
    requires TagGrammar(line, kind, colons, subtype, rest)
    requires Lower(kind) !in keys && subtype != ""
    ensures Category(line, keys) == if Lower(subtype) in keys then Lower(subtype) else "bugfix"
  {
    ParsedCategory(line, kind, colons, subtype, rest, keys);
  }

  /** Two tags that differ only in the case of their letters file their
      lines under the same key. */
  lemma CaseInsensitive(a: string, b: string, ka: string, ca: string, sa: string, ra: string,
                        kb: string, cb: string, sb: string, rb: string, keys: seq<string>)
    requires TagGrammar(a, ka, ca, sa, ra) && TagGrammar(b, kb, cb, sb, rb)
    requires Lower(ka) == Lower(kb) && Lower(sa) == Lower(sb)
    ensures Category(a, keys) == Category(b, keys)
  {
    ParsedCategory(a, ka, ca, sa, ra, keys);
    ParsedCategory(b, kb, cb, sb, rb, keys);
    SameLowerSameCategory(TypeMatch(ka, sa), TypeMatch(kb, sb), keys);
  }

  /** The category of a tag depends on its groups only through their lower case. */
  lemma SameLowerSameCategory(a: TypeMatch, b: TypeMatch, keys: seq<string>)
    requires Lower(a.kind) == Lower(b.kind) && Lower(a.subtype) == Lower(b.subtype)
    ensures TagCategory(a, keys) == TagCategory(b, keys)
  {
  }

  /** What a run of herald.py ends with: the printed notes, or the
      `IndexError` the first empty message raises. */
  datatype Release = Released(notes: string) | EmptyMessage(index: nat)

  /** The outcome of a run over a table with these keys and titles, each
      first line classified by `classify`. */
  function Outcome(keys: seq<string>, titles: seq<string>, classify: string -> Entry, messages: seq<string>, tagName: string, url: string): Release
    requires |titles| == |keys|
  {
    var n := FirstEmpty(messages);
    if n < |messages| then EmptyMessage(n)
    else Released(Notes(tagName, url, titles, Buckets(Entries(Lines(messages), classify), keys)))
  }

  /** The outcome of herald.py:39-109 for the commits of the comparison. */
  function ReleaseOf(messages: seq<string>, tagName: string, url: string): Release {
    Outcome(Keys, Titles, EntryOf(Keys), messages, tagName, url)
  }

  /** The `release_commits` dictionary: the list of commits of each key, at
      the key's position. */
  class ReleaseCommits {
    const keys: seq<string>
    const titles: seq<string>
    var commits: seq<seq<string>>

    /** One title and one list per key, and no key twice. */
    predicate Valid()
      reads this
    {
      |titles| == |keys| && |commits| == |keys| && Distinct(keys)
    }

    constructor (keys: seq<string>, titles: seq<string>)
      requires |titles| == |keys| && Distinct(keys)
      ensures Valid() && this.keys == keys && this.titles == titles
      ensures forall j :: 0 <= j < |keys| ==> commits[j] == []
    {
      this.keys := keys;
      this.titles := titles;
      commits := seq(|keys|, _ => []);
    }

    /** herald.py:79-95: append every first line to the list of its
        category, stopping at the first empty message. */
    method Collect(messages: seq<string>, classify: string -> Entry) returns (failed: Option<nat>)
      requires Valid()
      requires AllFiled(Entries(Lines(messages), classify), keys)
      modifies this
      ensures Valid()
      ensures var es := Entries(Lines(messages), classify); var n := FirstEmpty(messages);
        && commits == Filed(old(commits), es[..n], keys)
        && failed == if n < |messages| then Some(n) else None
    {
      ghost var es := Entries(Lines(messages), classify);
      var i := 0;
      while i < |messages|
        invariant 0 <= i <= FirstEmpty(messages) && Valid()
        invariant AllFiled(es[..i], keys)
        invariant commits == Filed(old(commits), es[..i], keys)
      {
        var line := FirstLine(messages[i]);
        CollectStep(messages, classify, i);
        if line.None? {
          failed := Some(i);
          return;
        }
        var e := classify(line.value);
        FiledSnoc(old(commits), es, keys, i);
        Push(e.category, e.text);
        i := i + 1;
      }
      failed := None;
    }

    /** `release_commits[commit_type]['commits'].append(...)` (herald.py:95). */
    method Push(category: string, text: string)
      requires Valid() && category in keys
      modifies this
      ensures Valid()
      ensures var j := KeyIndex(keys, category); commits == old(commits)[j := old(commits)[j] + [text]]
    {
      var j := KeyIndex(keys, category);
      commits := commits[j := commits[j] + [text]];
    }

    /** herald.py:97-109: the link to the previous release, then every title
        in table order with `*None*` or its list, in the order it was filled. */
    method Render(tagName: string, url: string) returns (notes: string)
      requires Valid()
      ensures notes == Notes(tagName, url, titles, commits)
    {
      notes := "";
      var previousLink := "[" + tagName + "](" + url + ")";
      notes := notes + ("*Previous Release Notes:* " + previousLink + "\n");
      notes := notes + "\n";
      assert notes == Header(tagName, url);
      var j := 0;
      while j < |keys|
        invariant 0 <= j <= |keys|
        invariant notes == Header(tagName, url) + Sections(titles[..j], commits[..j])
      {
        ghost var before := notes;
        notes := notes + (titles[j] + "\n\n");
        if |commits[j]| == 0 {
          notes := notes + "*None*\n";
        } else {
          notes := AppendBullets(notes, commits[j]);
        }
        notes := notes + "\n";
        SectionAppended(before, titles[j], commits[j], notes);
        SectionStep(titles, commits, j);
        Regroup(Header(tagName, url), Sections(titles[..j], commits[..j]), Section(titles[j], commits[j]));
        j := j + 1;
      }
      assert titles[..j] == titles && commits[..j] == commits;
    }
  }

  /** Message `i`, reached before the first empty one, either is that empty
      message or yields entry `i` and lets the loop go on. */
  lemma CollectStep(messages: seq<string>, classify: string -> Entry, i: nat)
    requires i < |messages| && i <= FirstEmpty(messages)
    ensures FirstLine(messages[i]).None? <==> i == FirstEmpty(messages)
    ensures FirstLine(messages[i]).Some? ==>
      && i + 1 <= FirstEmpty(messages)
      && classify(FirstLine(messages[i]).value) == Entries(Lines(messages), classify)[i]
  {
  }

  /** Filing every entry into empty lists gives the buckets. */
  lemma CollectedBuckets(es: seq<Entry>, keys: seq<string>, start: seq<seq<string>>)
    requires Distinct(keys) && AllFiled(es, keys) && |start| == |keys|
    requires forall j :: 0 <= j < |keys| ==> start[j] == []
    ensures Filed(start, es, keys) == Buckets(es, keys)
  {
    FiledBuckets(start, es, keys);
    forall j | 0 <= j < |keys| ensures Filed(start, es, keys)[j] == Buckets(es, keys)[j] {
      assert start[j] + Bucket(es, keys[j]) == Bucket(es, keys[j]);
    }
  }

  /** Every category the classifier gives is a key when `bugfix` is one. */
  lemma CategoriesFiled(messages: seq<string>, keys: seq<string>)
    requires "bugfix" in keys
    ensures AllFiled(Entries(Lines(messages), EntryOf(keys)), keys)
  {
  }

  /** herald.py:39-109 without the requests: classify, file and print. */
  method Run(messages: seq<string>, tagName: string, url: string) returns (r: Release)
    ensures r == ReleaseOf(messages, tagName, url)
  {
    KeysDistinct();
    var table := new ReleaseCommits(Keys, Titles);
    ghost var start := table.commits;
    CategoriesFiled(messages, Keys);
    var failed := table.Collect(messages, EntryOf(Keys));
    if failed.Some? {
      return EmptyMessage(failed.value);
    }
    ghost var es := Entries(Lines(messages), EntryOf(Keys));
    assert es[..|es|] == es;
    CollectedBuckets(es, Keys, start);
    var notes := table.Render(tagName, url);
    r := Released(notes);
  }

  /** The run fails exactly when a message is empty, and then at the first
      such message. */
  lemma FailsAtFirstEmpty(keys: seq<string>, titles: seq<string>, classify: string -> Entry, messages: seq<string>, tagName: string, url: string)
    requires |titles| == |keys|
    ensures Outcome(keys, titles, classify, messages, tagName, url).EmptyMessage? <==> exists i :: 0 <= i < |messages| && messages[i] == []
    ensures var r := Outcome(keys, titles, classify, messages, tagName, url);
      r.EmptyMessage? ==> r.index < |messages| && messages[r.index] == [] && forall k :: 0 <= k < r.index ==> messages[k] != []
  {
    var n := FirstEmpty(messages);
    if n == |messages| {
      assert forall i :: 0 <= i < |messages| ==> messages[i] != [];
    }
  }

  /** The buckets hold the texts of the entries only. */
  lemma BucketsOneLine(es: seq<Entry>, keys: seq<string>)
    requires forall i :: 0 <= i < |es| ==> OneLine(es[i].text)
    ensures AllOneLine(Buckets(es, keys))
  {
    var lists := Buckets(es, keys);
    forall j, k | 0 <= j < |lists| && 0 <= k < |lists[j]| ensures OneLine(lists[j][k]) {
      var x := lists[j][k];
      assert x in Bucket(es, keys[j]);
      var i :| 0 <= i < |es| && es[i] == Entry(keys[j], x);
    }
  }

  /** A released text lists every commit once, under its own category, in
      the order the commits came in: it reads back as the buckets, each
      commit's line is in the list of its category, and the lists hold as
      many lines as there are commits. */
  lemma ReleaseListsEveryCommit(keys: seq<string>, titles: seq<string>, classify: string -> Entry, messages: seq<string>, tagName: string, url: string)
    requires |titles| == |keys| && Distinct(keys)
    requires AllFiled(Entries(Lines(messages), classify), keys)
    requires forall i :: 0 <= i < |messages| ==> OneLine(classify(Lines(messages)[i]).text)
    requires Outcome(keys, titles, classify, messages, tagName, url).Released?
    ensures var es := Entries(Lines(messages), classify); var lists := Buckets(es, keys);
      && ParseNotes(tagName, url, titles, Outcome(keys, titles, classify, messages, tagName, url).notes) == Some(lists)
      && (forall i :: 0 <= i < |es| ==> es[i].text in lists[KeyIndex(keys, es[i].category)])
      && TotalLength(lists) == |messages|
  {
    var es := Entries(Lines(messages), classify);
    var lists := Buckets(es, keys);
    BucketsOneLine(es, keys);
    ParseNotesOfNotes(tagName, url, titles, lists);
    forall i | 0 <= i < |es| ensures es[i].text in lists[KeyIndex(keys, es[i].category)] {
      InBucket(es, i);
    }
    BucketsPartition(es, keys);
  }

  /** Every first line is one line of text. */
  lemma LinesOneLine(messages: seq<string>, keys: seq<string>)
    ensures forall i :: 0 <= i < |messages| ==> OneLine(EntryOf(keys)(Lines(messages)[i]).text)
  {
    forall i | 0 <= i < |messages| ensures OneLine(Lines(messages)[i]) {
      var line := Lines(messages)[i];
      assert forall k :: 0 <= k < |line| ==> !IsLineBoundary(line[k]);
    }
  }

  /** With the classifier of herald.py, released notes list the first line
      of every message, verbatim, under its category. */
  lemma ListsEveryFirstLine(keys: seq<string>, titles: seq<string>, messages: seq<string>, tagName: string, url: string)
    requires |titles| == |keys| && Distinct(keys) && "bugfix" in keys
    requires Outcome(keys, titles, EntryOf(keys), messages, tagName, url).Released?
    ensures forall i :: 0 <= i < |messages| ==> FirstLine(messages[i]).Some?
    ensures var lists := Buckets(Entries(Lines(messages), EntryOf(keys)), keys);
      && ParseNotes(tagName, url, titles, Outcome(keys, titles, EntryOf(keys), messages, tagName, url).notes) == Some(lists)
      && (forall i :: 0 <= i < |messages| ==>
            FirstLine(messages[i]).value in lists[KeyIndex(keys, Category(FirstLine(messages[i]).value, keys))])
      && TotalLength(lists) == |messages|
  {
    FailsAtFirstEmpty(keys, titles, EntryOf(keys), messages, tagName, url);
    CategoriesFiled(messages, keys);
    LinesOneLine(messages, keys);
    ReleaseListsEveryCommit(keys, titles, EntryOf(keys), messages, tagName, url);
  }

  /** Unlike src/index.ts, herald.py prints each list in the order the
      commits came in: two untagged commits with different first lines give
      other notes in the other order. */
  lemma OrderMatters(keys: seq<string>, titles: seq<string>, x: string, y: string, tagName: string, url: string)
    requires |titles| == |keys| && Distinct(keys) && "bugfix" in keys
    requires x != [] && y != [] && x[0] != '[' && y[0] != '['
    requires FirstLine(x) != FirstLine(y)
    ensures Outcome(keys, titles, EntryOf(keys), [x, y], tagName, url) != Outcome(keys, titles, EntryOf(keys), [y, x], tagName, url)
  {
    var lx, ly := FirstLine(x).value, FirstLine(y).value;
    FirstEmptyAt([x, y], 2);
    FirstEmptyAt([y, x], 2);
    var xy, yx := Buckets(Entries(Lines([x, y]), EntryOf(keys)), keys), Buckets(Entries(Lines([y, x]), EntryOf(keys)), keys);
    UntaggedPair(x, y, keys);
    UntaggedPair(y, x, keys);
    var j := KeyIndex(keys, "bugfix");
    assert xy[j] == [lx, ly] && yx[j] == [ly, lx];
    assert xy != yx;
    NotesReadBack(keys, titles, [x, y], tagName, url);
    NotesReadBack(keys, titles, [y, x], tagName, url);
  }

  /** Released notes read back as the buckets of the classified first lines. */
  lemma NotesReadBack(keys: seq<string>, titles: seq<string>, messages: seq<string>, tagName: string, url: string)
    requires |titles| == |keys| && FirstEmpty(messages) == |messages|
    ensures var r := Outcome(keys, titles, EntryOf(keys), messages, tagName, url);
      r.Released? && ParseNotes(tagName, url, titles, r.notes) == Some(Buckets(Entries(Lines(messages), EntryOf(keys)), keys))
  {
    var es := Entries(Lines(messages), EntryOf(keys));
    LinesOneLine(messages, keys);
    assert forall i :: 0 <= i < |es| ==> OneLine(es[i].text);
    BucketsOneLine(es, keys);
    ParseNotesOfNotes(tagName, url, titles, Buckets(es, keys));
  }

  /** Two untagged messages are two bugfixes, whose bucket lists their first
      lines in order. */
  lemma UntaggedPair(x: string, y: string, keys: seq<string>)
    requires x != [] && y != [] && x[0] != '[' && y[0] != '['
    ensures var es := Entries(Lines([x, y]), EntryOf(keys));
      Bucket(es, "bugfix") == [FirstLine(x).value, FirstLine(y).value]
  {
    var lx, ly := FirstLine(x).value, FirstLine(y).value;
    var lines := Lines([x, y]);
    assert lines == [lx, ly];
    UntaggedLine(x, keys);
    UntaggedLine(y, keys);
    EntriesPair(lx, ly, EntryOf(keys));
    BucketPair(Entry("bugfix", lx), Entry("bugfix", ly));
  }

  /** The first line of a message that does not open with a bracket is a bugfix. */
  lemma UntaggedLine(x: string, keys: seq<string>)
    requires x != [] && x[0] != '['
    ensures EntryOf(keys)(FirstLine(x).value) == Entry("bugfix", FirstLine(x).value)
  {
    var l := FirstLine(x).value;
    assert l == [] || l[0] == x[0];
    assert MatchTag(l) == None;
  }

  lemma EntriesPair(a: string, b: string, entryOf: string -> Entry)
    ensures Entries([a, b], entryOf) == [entryOf(a), entryOf(b)]
  {
    assert [a, b][..1] == [a];
  }

  lemma BucketPair(a: Entry, b: Entry)
    requires a.category == b.category
    ensures Bucket([a, b], a.category) == [a.text, b.text]
  {
    assert [a, b][..1] == [a];
  }
}
