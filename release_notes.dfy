/** The release-notes run of src/index.ts:111-177: every commit message of the
    comparison is classified and pushed onto the list of its category in the
    `releaseCommits` table, then each list is sorted and printed under its
    title. */
module ReleaseNotes {
  import opened Wrappers
  import opened Strings
  import opened TypeTag
  import opened CommitDetails
  import opened Aggregation
  import opened StringOrder
  import opened NotesText

  /** The keys of `releaseCommits` (src/index.ts:111-148), in declaration order. */
  const Keys: seq<string> := ["security", "breaking", "feature", "vpat", "bugfix", "refactor", "dependency", "testing", "documentation"]

  /** The titles of `releaseCommits`, one per key. */
  const Titles: seq<string> := ["SECURITY", "BREAKING", "FEATURE / ENHANCEMENT", "UI / UX", "BUGFIX", "REFACTOR", "SUPPORTING REPOSITORIES & VENDOR PACKAGES", "TESTING / BUILD", "DOCUMENTATION"]

  /** Properties every object literal inherits from `Object.prototype`: looking
      one of them up in `releaseCommits` yields a truthy value. */
  const InheritedProperties: seq<string> := ["constructor", "hasOwnProperty", "isPrototypeOf", "propertyIsEnumerable", "toLocaleString", "toString", "valueOf", "__proto__", "__defineGetter__", "__defineSetter__", "__lookupGetter__", "__lookupSetter__"]

  lemma KeysDistinct()
    ensures Distinct(Keys) && |Titles| == |Keys|
  {
  }

  /** `getCommitDetails(commit.commit.message, releaseCommitsKeys)` (src/index.ts:154). */
  function Classify(keys: seq<string>, message: string): Entry {
    var d := GetCommitDetails(message, keys);
    Entry(d.category, d.display)
  }

  /** The classifier the loop applies to every message. */
  function EntryOf(keys: seq<string>): string -> Entry {
    message => Classify(keys, message)
  }

  /** What the loop throws when a category has no list of its own. */
  datatype Thrown =
    | InvalidCommitType(category: string, message: string)  // src/index.ts:155-156
    | PushOnUndefined(category: string)                     // an inherited property passes line 155; `.commits.push` fails at 158

  /** What filing `message`, whose entry is `e`, throws when `e.category` is not a key. */
  function ThrownBy(e: Entry, message: string): Thrown {
    if e.category in InheritedProperties then PushOnUndefined(e.category) else InvalidCommitType(e.category, message)
  }

  /** The table's lists once every entry is filed and each list sorted. */
  function SortedLists(es: seq<Entry>, keys: seq<string>): (lists: seq<seq<string>>)
    ensures |lists| == |keys|
    ensures forall j :: 0 <= j < |keys| ==> lists[j] == Sort(Bucket(es, keys[j]))
  {
    seq(|keys|, j requires 0 <= j < |keys| => Sort(Bucket(es, keys[j])))
  }

  /** What a run ends with: the printed notes, or the error the promise rejects with. */
  datatype Release = Released(notes: string) | Failed(error: Thrown)

  /** The outcome of a run over a table with these keys and titles, each
      message classified by `classify`. */
  function Outcome(keys: seq<string>, titles: seq<string>, classify: string -> Entry, messages: seq<string>, tagName: string, url: string): Release
    requires |titles| == |keys|
  {
    var es := Entries(messages, classify);
    var n := FiledCount(es, keys);
    if n < |es| then Failed(ThrownBy(es[n], messages[n]))
    else Released(Notes(tagName, url, titles, SortedLists(es, keys)))
  }

  /** The outcome of the run of src/index.ts:150-181 for the commits of the comparison. */
  function ReleaseOf(messages: seq<string>, tagName: string, url: string): Release {
    Outcome(Keys, Titles, EntryOf(Keys), messages, tagName, url)
  }

  /** The `releaseCommits` table: the list of commits of each key, at the key's position. */
  class ReleaseCommits {
    const keys: seq<string>
    const titles: seq<string>
    var commits: seq<seq<string>>

    /** One title and one list per key, and no key twice. */
    predicate Valid()
      reads this
    {
      |titles| == |keys| && |commits| == |keys| && Distinct(keys)
    }

    constructor (keys: seq<string>, titles: seq<string>)
      requires |titles| == |keys| && Distinct(keys)
      ensures Valid() && this.keys == keys && this.titles == titles
      ensures forall j :: 0 <= j < |keys| ==> commits[j] == []
    {
      this.keys := keys;
      this.titles := titles;
      commits := seq(|keys|, _ => []);
    }

    /** src/index.ts:153-159: push every display line onto the list of its
        category, stopping at the first category without a list. */
    method Collect(messages: seq<string>, classify: string -> Entry) returns (thrown: Option<Thrown>)
      requires Valid()
      modifies this
      ensures Valid()
      ensures var es := Entries(messages, classify); var n := FiledCount(es, keys);
        && commits == Filed(old(commits), es[..n], keys)
        && thrown == if n < |es| then Some(ThrownBy(es[n], messages[n])) else None
    {
      ghost var es := Entries(messages, classify);
      var i := 0;
      while i < |messages|
        invariant 0 <= i <= |messages|
        invariant Valid()
        invariant AllFiled(es[..i], keys)
        invariant commits == Filed(old(commits), es[..i], keys)
      {
        var d := classify(messages[i]);
        if d.category !in keys {
          thrown := Some(ThrownBy(d, messages[i]));
          FiledCountAt(es, keys, i);
          return;
        }
        FiledSnoc(old(commits), es, keys, i);
        Push(d.category, d.text);
        i := i + 1;
      }
      AllFiledCount(es, keys);
      thrown := None;
    }

    /** `releaseCommits[commitType].commits.push(message)` (src/index.ts:158)
        for a key of the table. */
    method Push(category: string, text: string)
      requires Valid() && category in keys
      modifies this
      ensures Valid()
      ensures var j := KeyIndex(keys, category); commits == old(commits)[j := old(commits)[j] + [text]]
    {
      var j := KeyIndex(keys, category);
      commits := commits[j := commits[j] + [text]];
    }

    /** src/index.ts:161-177: the link to the previous release, then every
        title in table order with `*None*` or its list, sorted in place. */
    method Render(tagName: string, url: string) returns (notes: string)
      requires Valid()
      modifies this
      ensures Valid()
      ensures forall j :: 0 <= j < |keys| ==> commits[j] == Sort(old(commits)[j])
      ensures notes == Notes(tagName, url, titles, commits)
    {
      notes := "";
      var previousLink := "[" + tagName + "](" + url + ")";
      notes := notes + ("*Previous Release Notes:* " + previousLink + "\n");
      notes := notes + "\n";
      assert notes == Header(tagName, url);
      var j := 0;
      while j < |keys|
        invariant 0 <= j <= |keys| && Valid()
        invariant forall k :: 0 <= k < j ==> commits[k] == Sort(old(commits)[k])
        invariant forall k :: j <= k < |keys| ==> commits[k] == old(commits)[k]
        invariant notes == Header(tagName, url) + Sections(titles[..j], commits[..j])
      {
        ghost var done := commits[..j];
        notes := AppendSection(notes, j);
        assert commits[..j] == done;
        SectionStep(titles, commits, j);
        Regroup(Header(tagName, url), Sections(titles[..j], commits[..j]), Section(titles[j], commits[j]));
        j := j + 1;
      }
      assert titles[..j] == titles && commits[..j] == commits;
    }

    /** One pass of the loop at src/index.ts:166-177: the title of row `j`,
        then `*None*` or the list of row `j`, sorted in place, as bullets. */
    method AppendSection(notes: string, j: nat) returns (result: string)
      requires Valid() && j < |keys|
      modifies this
      ensures Valid()
      ensures commits == old(commits)[j := Sort(old(commits)[j])]
      ensures result == notes + Section(titles[j], commits[j])
    {
      result := notes + (titles[j] + "\n\n");
      if |commits[j]| == 0 {
        result := result + "*None*\n";
      } else {
        commits := commits[j := Sort(commits[j])];
        result := AppendBullets(result, commits[j]);
      }
      result := result + "\n";
      SectionAppended(notes, titles[j], commits[j], result);
    }
  }

  /** Filing every entry into empty lists and sorting each list gives the
      sorted buckets. */
  lemma CollectedSorted(es: seq<Entry>, keys: seq<string>, start: seq<seq<string>>, filed: seq<seq<string>>, sorted: seq<seq<string>>)
    requires Distinct(keys) && FiledCount(es, keys) == |es|
    requires |start| == |sorted| == |keys|
    requires forall j :: 0 <= j < |keys| ==> start[j] == []
    requires filed == Filed(start, es[..|es|], keys)
    requires forall j :: 0 <= j < |keys| ==> sorted[j] == Sort(filed[j])
    ensures sorted == SortedLists(es, keys)
  {
    assert es[..|es|] == es;
    FiledBuckets(start, es, keys);
    var lists := SortedLists(es, keys);
    forall j | 0 <= j < |keys| ensures sorted[j] == lists[j] {
      var b := Bucket(es, keys[j]);
      assert start[j] + b == b;
      assert filed[j] == b;
    }
  }

  /** src/index.ts:150-181 without the requests: classify, file, sort and print. */
  method Run(messages: seq<string>, tagName: string, url: string) returns (r: Release)
    ensures r == ReleaseOf(messages, tagName, url)
  {
    KeysDistinct();
    var table := new ReleaseCommits(Keys, Titles);
    ghost var start := table.commits;
    var thrown := table.Collect(messages, EntryOf(Keys));
    if thrown.Some? {
      return Failed(thrown.value);
    }
    ghost var filed := table.commits;
    var notes := table.Render(tagName, url);
    CollectedSorted(Entries(messages, EntryOf(Keys)), Keys, start, filed, table.commits);
    r := Released(notes);
  }

  /** The run fails exactly when a commit's category is not a key, and then
      with the error of the first such commit. */
  lemma FailsAtFirstUnknown(keys: seq<string>, titles: seq<string>, classify: string -> Entry, messages: seq<string>, tagName: string, url: string)
    requires |titles| == |keys|
    ensures var es := Entries(messages, classify);
      Outcome(keys, titles, classify, messages, tagName, url).Failed? <==> !AllFiled(es, keys)
    ensures var es := Entries(messages, classify); var r := Outcome(keys, titles, classify, messages, tagName, url);
      r.Failed? ==> exists i :: 0 <= i < |es| && AllFiled(es[..i], keys) && es[i].category !in keys && r.error == ThrownBy(es[i], messages[i])
  {
    var es := Entries(messages, classify);
    FiledCountAll(es, keys);
  }

  /** The sorted lists do not depend on the order of the entries. */
  lemma SortedListsPermutation(a: seq<Entry>, b: seq<Entry>, keys: seq<string>)
    requires multiset(a) == multiset(b)
    ensures SortedLists(a, keys) == SortedLists(b, keys)
  {
    forall j | 0 <= j < |keys| ensures SortedLists(a, keys)[j] == SortedLists(b, keys)[j] {
      BucketPermutation(a, b, keys[j]);
      SortIgnoresOrder(Bucket(a, keys[j]), Bucket(b, keys[j]));
    }
  }

  /** Only which commits the comparison holds matters, not their order: the
      lists are sorted before they are printed. */
  lemma ReleaseIgnoresOrder(keys: seq<string>, titles: seq<string>, classify: string -> Entry, a: seq<string>, b: seq<string>, tagName: string, url: string)
    requires |titles| == |keys| && multiset(a) == multiset(b)
    ensures Outcome(keys, titles, classify, a, tagName, url).Released? <==> Outcome(keys, titles, classify, b, tagName, url).Released?
    ensures Outcome(keys, titles, classify, a, tagName, url).Released? ==> Outcome(keys, titles, classify, a, tagName, url) == Outcome(keys, titles, classify, b, tagName, url)
  {
    var ea, eb := Entries(a, classify), Entries(b, classify);
    EntriesPermutation(a, b, classify);
    FiledCountAll(ea, keys);
    FiledCountAll(eb, keys);
    AllFiledPermutation(ea, eb, keys);
    SortedListsPermutation(ea, eb, keys);
  }

  /** A failed run reports the first commit without a key, so its error does
      depend on the order: two such commits with different errors, swapped,
      make the run fail differently. */
  lemma FailureDependsOnOrder(keys: seq<string>, titles: seq<string>, classify: string -> Entry, a: string, b: string, tagName: string, url: string)
    requires |titles| == |keys|
    requires classify(a).category !in keys && classify(b).category !in keys
    requires ThrownBy(classify(a), a) != ThrownBy(classify(b), b)
    ensures Outcome(keys, titles, classify, [a, b], tagName, url) == Failed(ThrownBy(classify(a), a))
    ensures Outcome(keys, titles, classify, [b, a], tagName, url) == Failed(ThrownBy(classify(b), b))
    ensures Outcome(keys, titles, classify, [a, b], tagName, url) != Outcome(keys, titles, classify, [b, a], tagName, url)
  {
    var ab, ba := Entries([a, b], classify), Entries([b, a], classify);
    assert ab[0] == classify(a) && ba[0] == classify(b);
    FiledCountAt(ab, keys, 0);
    FiledCountAt(ba, keys, 0);
  }

  /** A dev-dependency commit whose subtype is a testing alias takes the
      testing branch, which comes first in the chain, so its category is the
      lowered type, `devdependency` or `dependencydev`. That is no key: a run
      over that commit alone throws. */
  lemma DevDependencyTestingThrows(message: string, tagName: string, url: string)
    requires MatchTag(HeaderLine(message)).Some?
    requires Lower(TagType(MatchTag(HeaderLine(message)).value)) in DevDependencyTypes
    requires Lower(TagSubtype(MatchTag(HeaderLine(message)).value)) in TestingSubtypes
    ensures Classify(Keys, message).category in DevDependencyTypes
    ensures ReleaseOf([message], tagName, url) == Failed(InvalidCommitType(Classify(Keys, message).category, message))
  {
    DevDependencyNoKey(Lower(TagType(MatchTag(HeaderLine(message)).value)));
    TestingCategory(message, Keys);
    KeysDistinct();
    LoneUnknownFails(Keys, Titles, EntryOf(Keys), message, tagName, url);
  }

  /** A run over one commit without a key fails with that commit's error. */
  lemma LoneUnknownFails(keys: seq<string>, titles: seq<string>, classify: string -> Entry, a: string, tagName: string, url: string)
    requires |titles| == |keys| && classify(a).category !in keys
    ensures Outcome(keys, titles, classify, [a], tagName, url) == Failed(ThrownBy(classify(a), a))
  {
    var es := Entries([a], classify);
    assert es[0] == classify(a);
    FiledCountAt(es, keys, 0);
  }

  lemma DevDependencyNoKey(t: string)
    requires t in DevDependencyTypes
    ensures t !in UiTypes && t !in Keys && t !in InheritedProperties
  {
  }

  /** The sorted lists hold the texts of the entries only. */
  lemma SortedListsOneLine(es: seq<Entry>, keys: seq<string>)
    requires forall i :: 0 <= i < |es| ==> OneLine(es[i].text)
    ensures AllOneLine(SortedLists(es, keys))
  {
    var lists := SortedLists(es, keys);
    forall j, k | 0 <= j < |lists| && 0 <= k < |lists[j]| ensures OneLine(lists[j][k]) {
      var x := lists[j][k];
      assert x in multiset(lists[j]);
      assert x in Bucket(es, keys[j]);
      var i :| 0 <= i < |es| && es[i] == Entry(keys[j], x);
    }
  }

  /** Filed entries appear in the sorted lists once each, under their own
      category. */
  lemma SortedListsHoldEntries(es: seq<Entry>, keys: seq<string>)
    requires Distinct(keys) && AllFiled(es, keys)
    ensures var lists := SortedLists(es, keys);
      && (forall i :: 0 <= i < |es| ==> es[i].text in lists[KeyIndex(keys, es[i].category)])
      && TotalLength(lists) == |es|
  {
    var lists := SortedLists(es, keys);
    forall i | 0 <= i < |es| ensures es[i].text in lists[KeyIndex(keys, es[i].category)] {
      InBucket(es, i);
      assert es[i].text in multiset(Bucket(es, es[i].category));
    }
    assert forall j :: 0 <= j < |keys| ==> |lists[j]| == |multiset(lists[j])| == |Buckets(es, keys)[j]|;
    TotalLengthOfLengths(lists, Buckets(es, keys));
    BucketsPartition(es, keys);
  }

  /** A released text lists every commit once, under its own category: it
      reads back as the sorted lists, each commit's line is in the list of
      its category, and the lists hold as many lines as there are commits. */
  lemma ReleaseListsEveryCommit(keys: seq<string>, titles: seq<string>, classify: string -> Entry, messages: seq<string>, tagName: string, url: string)
    requires |titles| == |keys| && Distinct(keys)
    requires forall i :: 0 <= i < |messages| ==> OneLine(classify(messages[i]).text)
    requires Outcome(keys, titles, classify, messages, tagName, url).Released?
    ensures var es := Entries(messages, classify); var lists := SortedLists(es, keys);
      && ParseNotes(tagName, url, titles, Outcome(keys, titles, classify, messages, tagName, url).notes) == Some(lists)
      && AllFiled(es, keys)
      && (forall i :: 0 <= i < |es| ==> es[i].text in lists[KeyIndex(keys, es[i].category)])
      && TotalLength(lists) == |messages|
  {
    var es := Entries(messages, classify);
    var lists := SortedLists(es, keys);
    FiledCountAll(es, keys);
    SortedListsOneLine(es, keys);
    ParseNotesOfNotes(tagName, url, titles, lists);
    SortedListsHoldEntries(es, keys);
  }

  /** With `getCommitDetails` as the classifier, the one-line condition
      always holds: released notes read back as the sorted lists, one line
      per commit. */
  lemma DetailsReleaseListsEveryCommit(keys: seq<string>, titles: seq<string>, messages: seq<string>, tagName: string, url: string)
    requires |titles| == |keys| && Distinct(keys)
    requires Outcome(keys, titles, EntryOf(keys), messages, tagName, url).Released?
    ensures var es := Entries(messages, EntryOf(keys)); var lists := SortedLists(es, keys);
      && ParseNotes(tagName, url, titles, Outcome(keys, titles, EntryOf(keys), messages, tagName, url).notes) == Some(lists)
      && AllFiled(es, keys)
      && (forall i :: 0 <= i < |es| ==> es[i].text in lists[KeyIndex(keys, es[i].category)])
      && TotalLength(lists) == |messages|
  {
    ClassifiedOneLine(messages, keys);
    ReleaseListsEveryCommit(keys, titles, EntryOf(keys), messages, tagName, url);
  }

  /** Every display line `getCommitDetails` returns is one line of text. */
  lemma ClassifiedOneLine(messages: seq<string>, keys: seq<string>)
    ensures forall i :: 0 <= i < |messages| ==> OneLine(EntryOf(keys)(messages[i]).text)
  {
    forall i | 0 <= i < |messages| ensures OneLine(EntryOf(keys)(messages[i]).text) {
      var d := GetCommitDetails(messages[i], keys);
    }
  }

  /** With the real table, the only inherited property a category can name
      is `constructor`: every other one has an upper-case letter or `_`. */
  lemma InheritedOnlyConstructor(message: string)
    ensures var category := Classify(Keys, message).category;
      category in InheritedProperties ==> category == "constructor"
  {
    var category := Classify(Keys, message).category;
    var d := GetCommitDetails(message, Keys);
    if category in InheritedProperties {
      InheritedSpelling(category);
    }
  }

  lemma InheritedSpelling(p: string)
    requires p in InheritedProperties
    ensures p == "constructor" || exists i :: 0 <= i < |p| && (IsAsciiUpper(p[i]) || !IsTagChar(p[i]))
  {
    if p == "hasOwnProperty" { assert IsAsciiUpper(p[3]); }
    else if p == "isPrototypeOf" { assert IsAsciiUpper(p[2]); }
    else if p == "propertyIsEnumerable" { assert IsAsciiUpper(p[8]); }
    else if p == "toLocaleString" { assert IsAsciiUpper(p[2]); }
    else if p == "toString" { assert IsAsciiUpper(p[2]); }
    else if p == "valueOf" { assert IsAsciiUpper(p[5]); }
    else if p != "constructor" { assert !IsTagChar(p[0]); }
  }
}
