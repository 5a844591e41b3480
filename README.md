# Release-note classifier of Submitty/herald, in Dafny

Herald builds the release notes of a GitHub release from the commits
between two tags. The TypeScript version works on the repository named by
the remote in `.git/config`; the Python version always asks for
`Submitty/Submitty`. It reads the bracketed tag that opens each commit's first
line (`[Feature:Forum] Add search`). From the tag it picks one of nine
category keys: `security`, `breaking`, `feature`, `vpat`, `bugfix`,
`refactor`, `dependency`, `testing`, `documentation`. It files the commit
in that key's list. Then it prints each category's title, followed by that
category's list or `*None*`.

The project models both versions of the classifier:

- **`src/index.ts`**, the current TypeScript tool. It is modelled by these
  modules:
  - `TypeTag`: the regular expression `TYPE_REGEX`, re-expressed as an
    explicit matcher.
  - `CommitDetails`: `getCommitDetails`, a pure function from a message
    and the key list to a display line and a category.
  - `ReleaseNotes`: the `releaseCommits` table. It is a class whose
    methods push display lines into the lists in place, sort each list
    and accumulate the printed text.
  - `StringOrder`: the order `Array.prototype.sort` uses.
  - `JsText`: the JavaScript string operations the classifier relies on.
- **`herald.py`**, the older Python script, modelled by module `Herald`:
  - its letters-only tag expression;
  - its lower-casing classification that always ends on a key;
  - its loop that appends the verbatim first line;
  - its rendering, which does not sort.

Shared modules:

- `Aggregation`: classified entries, and how they are filed into the
  table's lists.
- `NotesText`: the Markdown text both versions print, and a reader that
  parses it back into lists.
- `Strings`: character helpers.

Each run is modelled twice:

- **As a specification function**, `ReleaseNotes.ReleaseOf` or
  `Herald.ReleaseOf`. It gives either the printed notes or the failure.
- **As an imperative `Run` method.** It allocates the table, runs the
  collecting loop and the rendering loop, and is proved equal to that
  function.

The lemmas then establish the properties below:

- Every commit is listed exactly once, under its own category.
- The notes read back as those lists.
- For the TypeScript run, whether it succeeds, and the notes when it does,
  do not depend on the order of the commits. The error of a failed run
  does: it names the first commit without a key.
- The Python notes do depend on the order.
- There is one lemma per branch of the classification rules.
- The matchers agree with the grammars of the regular expressions, in
  both directions.

Behaviour of the code worth noting:

- The TypeScript `vpat` title is `UI / UX`; in `herald.py` it is `VPAT`.
- The UI rule sets an empty subtype to `UI/UX`.
- `submissions` becomes `Submission` (src/index.ts:70-72).
- A TypeScript category need not be a key. The loop then throws
  (src/index.ts:155-156); the model returns this as a `Failed` outcome.
- The TypeScript key lookup `releaseCommits[commitType]` also sees the
  properties every object inherits. Only `constructor` can come out of
  the classifier (`ReleaseNotes.InheritedOnlyConstructor`), for example
  from an unknown type with subtype `constructor`. That lookup passes the
  guard at line 155, and the `push` at line 158 then fails on
  `undefined`. This is `Thrown.PushOnUndefined`.
- The `IU` suffix fix keeps as many leading characters of the subtype as
  the type has, less two (src/index.ts:68), not the subtype. A final `IU`
  becomes `UI` only when type and subtype are equally long (or the
  subtype is just `IU` and the type at most two long). With a type at
  least two longer the `IU` stays and `UI` is appended (`[Feature:NavIU]`
  shows `NavIUUI`). With a type exactly one longer the final `U` is dropped
  before `UI` is appended (`[Featur:NavIU]` shows `NavIUI`). With a shorter
  one, characters before the `IU` are lost.
  It is modelled as written, in `CommitDetails.FixSubtype`.
- The display type is empty only for the type group ` ` (one space) with a
  testing subtype: `[ :test] x` shows `[:Testing] x` with category `""`,
  which is not a key, so the run throws.
- The testing-alias branch comes before the dev-dependency branch, so
  `[DevDependency:test] x` shows `[DevDependency:Testing] x` and is filed
  under `devdependency`, which is not a key: the run throws
  (`ReleaseNotes.DevDependencyTestingThrows`).
- The testing swap at src/index.ts:89-92 can never run
  (`CommitDetails.TestingSwapUnreachable`).
- In `herald.py`, an empty commit message has no first line.
  `splitlines()[0]` raises at line 81, outside the `try`, and the run
  stops. This is `Herald.Release.EmptyMessage`.

## Model

| member | source | states |
|---|---|---|
| Strings.Lower | herald.py:84-85 | lower-casing keeps the length and maps each character to its ASCII lower case |
| Strings.RemoveFirst | src/index.ts:64-65 | `replace(' ', '')` removes only the first space, and leaves a string without one unchanged |
| Strings.Span | herald.py:78 | a greedy character-class repetition consumes the longest prefix of matching characters |
| JsText.FirstLine | src/index.ts:52 | the first piece of the split on line breaks is the prefix before the first `\n` or `\r` |
| JsText.Trim | src/index.ts:53 | `trim()` gives the middle slice of the string; only whitespace is cut from either end, and neither end of the result is whitespace |
| JsText.Substring | src/index.ts:68 | no contract of its own; `SubstringFromStart` states the form line 68 uses and `SubstringSwap` the bound swap |
| JsText.SubstringFromStart | src/index.ts:68 | `substring(0, end)` is the prefix up to `end` clamped to the length: the whole string once `end` reaches the length, empty for `end` at or below 0 |
| JsText.SubstringSwap | src/index.ts:68 | `substring` gives the same text whichever of its two bounds comes first |
| TypeTag.MatchTag | src/index.ts:34 | a reported match has a non-empty type, and both groups are in `[a-zA-Z0-9/ ]`; the remainder holds no line terminator |
| TypeTag.MatchTagSound | src/index.ts:34 | every match the matcher reports is a parse of the line by the grammar of `TYPE_REGEX` |
| TypeTag.MatchTagComplete | src/index.ts:34 | every parse by that grammar is the one the matcher reports, so the match is unique |
| CommitDetails.FixSubtype | src/index.ts:67-72 | no contract of its own; `IuFixBySubtypeLength`, `IuFixKeepsSuffix`, `IuFixOneLonger` and `IuFixCutsShort` state the `IU` case, `SubmissionsRule` the `submissions` case and `OtherSubtypeKept` the rest |
| CommitDetails.IuFixBySubtypeLength | src/index.ts:67-68 | a final `IU` is replaced by `UI` exactly when the type is as long as the subtype, or the subtype is just `IU` and the type at most two long, because the cut uses the type's length |
| CommitDetails.IuFixKeepsSuffix | src/index.ts:67-68 | a type at least two longer than the subtype keeps the whole subtype, `IU` included, and appends `UI` |
| CommitDetails.IuFixOneLonger | src/index.ts:67-68 | a type exactly one longer than the subtype drops the subtype's final `U` and appends `UI`, so the result is not the subtype followed by `UI` |
| CommitDetails.IuFixCutsShort | src/index.ts:67-68 | a type shorter than a subtype of three or more characters keeps only a proper prefix of what preceded `IU`, then `UI` |
| CommitDetails.SubmissionsRule | src/index.ts:70-72 | a subtype spelled `submissions` in any case becomes `Submission`, whatever the type |
| CommitDetails.OtherSubtypeKept | src/index.ts:67-72 | a subtype without a final `IU` that is not `submissions` in any case is left unchanged |
| CommitDetails.NavIuKeepsSuffix | src/index.ts:67-68 | subtype `NavIU` under type `Feature` becomes `NavIUUI` |
| CommitDetails.TagType | src/index.ts:64 | no contract of its own; `Strings.RemoveFirst` states that only the first space goes, and `RemoveSpaceKeepsTagChars` that the result stays in the tag alphabet |
| CommitDetails.TagSubtype | src/index.ts:65-72 | no contract of its own; the `FixSubtype` lemmas state the suffix fixes, and `FixSubtypeKeepsTagChars` that the result stays in the tag alphabet |
| CommitDetails.HeaderLine | src/index.ts:52-53 | no contract of its own; `JsText.FirstLine` and `JsText.Trim` state its parts, `OnlyFirstLine` that later lines never matter, and `UntaggedIsBugfix` how an untagged header is shown |
| CommitDetails.ApplyAlias | src/index.ts:73-92 | the text is kept; the category is forced exactly in the dependency branch, to `dependency` with type `DevDependency` |
| CommitDetails.ClassifyLine | src/index.ts:58-96 | a line the expression rejects keeps type `Bugfix`, an empty subtype and its own text; for a tagged line, the text is trimmed and holds no line terminator |
| CommitDetails.UntaggedIsBugfix | src/index.ts:52-62 | an untagged first line gives display `[Bugfix] ` plus the trimmed line, and category `bugfix` |
| CommitDetails.OnlyFirstLine | src/index.ts:52-53 | whatever follows the first `\n`, `\r\n` or `\r` never changes the result |
| CommitDetails.DisplaySubtypeMarker | src/index.ts:98-102 | the display opens with `[` and the type, and the next character is `:` exactly when the subtype is non-empty |
| CommitDetails.DisplayMatches | src/index.ts:98-102 | matching a display line again gives back its type and subtype |
| CommitDetails.DisplayReparses | src/index.ts:98-102 | the display of a classified message is itself a tag with the final type and subtype |
| CommitDetails.EmptyDisplayType | src/index.ts:64-92 | the display type is empty exactly when the type group is one space and the subtype is a testing alias, or the empty name is a key; this is the case the reparsing lemmas exclude |
| CommitDetails.AliasEmptyKind | src/index.ts:73-92 | the chain leaves the type empty exactly when it was empty and the testing branch fired, or the empty name is a key |
| CommitDetails.DisplayTextReparses | src/index.ts:98-102 | for a tagged line, the remainder captured from the display trims back to the text |
| CommitDetails.UiRule | src/index.ts:73-78 | type `ui` or `ui/ux` in any case becomes `Feature` with category `feature`; the subtype becomes `UI/UX` only when it was empty |
| CommitDetails.TestingCategory | src/index.ts:79-81 | under a non-UI type, a testing-alias subtype leaves the category at the lowered type, whatever that type is |
| CommitDetails.TestingRule | src/index.ts:79-81 | for a non-UI type, a `testing`, `test`, `tests` or `vagrant` subtype becomes `Testing`; type and category are unchanged |
| CommitDetails.DevDependencyRule | src/index.ts:82-85 | unless the subtype is a testing alias, `devdependency` or `dependencydev` in any case is shown as `DevDependency` and filed under `dependency` |
| CommitDetails.CategoryIsLoweredType | src/index.ts:106 | the category is the lower-cased display type unless the dependency branch of lines 82-85 fired, and the category is forced exactly when it fired |
| CommitDetails.UnknownTypeRule | src/index.ts:86-88 | unless the subtype is a testing alias, a non-UI, non-dev-dependency type outside the keys is replaced by the subtype, or by `Bugfix` when the subtype is empty; the category is the lower-cased result, which need not be a key |
| CommitDetails.KnownTypeKept | src/index.ts:86-92 | a known type with an ordinary subtype passes through unchanged, and its category is a key |
| CommitDetails.TestingSwapUnreachable | src/index.ts:89-92 | no input selects the branch that swaps type and `testing` subtype |
| CommitDetails.GetCommitDetails | src/index.ts:48-108 | the display line never holds a line feed, and the category is made of lower-case letters, digits, `/` and spaces only; what the display and category are is stated by the rule lemmas of this module, from `UntaggedIsBugfix` to `CategoryIsLoweredType` |
| CommitDetails.DisplayOfOneLine | src/index.ts:98-102 | a display built from tag-character groups and a one-line text is itself one line |
| CommitDetails.CategoryOfChars | src/index.ts:106 | a category taken from a tag-character type, or forced to `dependency`, has no upper-case letter and only tag characters |
| CommitDetails.SelectAlias | src/index.ts:73-92 | no contract of its own (it names the branch of the chain that fires); the branches are stated by `UiRule`, `TestingRule`, `DevDependencyRule`, `UnknownTypeRule`, `KnownTypeKept` and `TestingSwapUnreachable` |
| CommitDetails.DisplayOf | src/index.ts:98-102 | no contract of its own; `DisplaySubtypeMarker`, `DisplayMatches`, `DisplayReparses` and `DisplayOfOneLine` state what the display holds |
| CommitDetails.CategoryOf | src/index.ts:106 | no contract of its own; `CategoryIsLoweredType` and `CategoryOfChars` state what the category is |
| StringOrder.LessEqTotal | src/index.ts:172 | any two strings are ordered one way or the other |
| StringOrder.LessEqTransitive | src/index.ts:172 | the string order is transitive |
| StringOrder.LessEqAntisymmetric | src/index.ts:172 | strings ordered both ways are equal |
| StringOrder.Sort | src/index.ts:172 | `sort()` returns a sorted permutation of the list |
| StringOrder.SortedUnique | src/index.ts:172 | two sorted permutations of the same strings are equal, so every correct sort returns what `Sort` returns |
| StringOrder.SortIgnoresOrder | src/index.ts:172 | sorting forgets the order the strings came in |
| Aggregation.Entries | src/index.ts:153-154 | entry `i` is the classification of message `i` |
| Aggregation.Bucket | src/index.ts:158 | a category's list holds only the texts of entries of that category |
| Aggregation.KeyIndex | src/index.ts:155 | a key's list is at the key's position in the table, and only there when keys are distinct |
| Aggregation.FiledCount | src/index.ts:153-157 | the loop files a prefix of entries that all have keys, and stops at the first entry without one |
| Aggregation.FiledCountAll | src/index.ts:153-159 | the loop reaches the end exactly when every entry has a key |
| Aggregation.BucketSnoc | src/index.ts:158 | one more entry adds its text to the list of its own category only |
| Aggregation.Filed | src/index.ts:153-159 | one list per key; `FiledSnoc` and `FiledBucket` state what each list holds after filing |
| Aggregation.FiledSnoc | src/index.ts:158 | filing one more entry is one push onto its own category's list |
| Aggregation.FiledBucket | src/index.ts:153-159 | after filing, the list of key `k` is its start followed by the texts of key `k`, in input order |
| Aggregation.BucketsPartition | src/index.ts:153-159 | with distinct keys and every category a key, the lists together hold exactly as many texts as there are entries |
| Aggregation.BucketPermutation | src/index.ts:153-159 | reordering the entries only reorders each list |
| Aggregation.EntriesPermutation | src/index.ts:153-154 | reordering the messages only reorders their entries |
| Aggregation.AllFiledPermutation | src/index.ts:155 | whether every entry has a key does not depend on the order |
| Aggregation.InBucket | src/index.ts:158 | every entry's text is in the list of its own category |
| NotesText.Header | src/index.ts:163-165 | no contract of its own (the same two lines as herald.py:99-101); `ParseNotesOfNotes` and `NotesInjective` state what a reader recovers after it |
| NotesText.Bullets | src/index.ts:172-174 | no contract of its own (the loop of herald.py:106-107 too); `BulletsSnoc` states one more bullet appends one line, and `ParseBulletsOfBullets` that the bullets read back as their entries |
| NotesText.Section | src/index.ts:167-176 | no contract of its own (herald.py:102-108 too); `ParseSectionOfSection` states that a section reads back as its list, `*None*` included |
| NotesText.Sections | src/index.ts:166-177 | no contract of its own; `SectionsSnoc` and `ParseSectionsOfSections` state it |
| NotesText.Notes | src/index.ts:161-177 | no contract of its own (herald.py:97-109 too); `ParseNotesOfNotes` and `NotesInjective` state it |
| NotesText.BulletsSnoc | src/index.ts:172-174 | one more entry appends exactly its `* entry` line |
| NotesText.ParseBulletsOfBullets | src/index.ts:172-174 | bullets of one-line entries, followed by text that starts a new line, read back as those entries and leave that text |
| NotesText.ParseSectionOfSection | src/index.ts:167-176 | a section of one-line entries reads back as its list, leaving what follows |
| NotesText.AppendBullets | src/index.ts:172-174 | the loop appends one `* entry` line per entry, in list order |
| NotesText.SectionsSnoc | src/index.ts:166-177 | one more row of the table appends exactly its section |
| NotesText.ParseSectionsOfSections | src/index.ts:166-177 | the sections read back as the lists they print |
| NotesText.ParseNotesOfNotes | src/index.ts:161-177 | lists of one-line entries, one list per title, read back from the notes they print, given the header and the titles |
| NotesText.NotesInjective | src/index.ts:161-177 | different lists of one-line entries give different notes (both runs produce such lists: `ReleaseNotes.ClassifiedOneLine`, `Herald.LinesOneLine`) |
| ReleaseNotes.KeysDistinct | src/index.ts:111-148 | the table has nine distinct keys and one title per key |
| ReleaseNotes.SortedLists | src/index.ts:172 | list `j` is the sorted list of the texts filed under key `j` |
| ReleaseNotes.ReleaseCommits.constructor | src/index.ts:111-148 | the table starts with an empty list for every key |
| ReleaseNotes.ReleaseCommits.Collect | src/index.ts:153-159 | the lists become the start lists with the entries before the first unknown category filed in order; the result is the error of that entry, or none |
| ReleaseNotes.ReleaseCommits.Push | src/index.ts:158 | only the list of the pushed category changes, and it gains the text at its end |
| ReleaseNotes.ReleaseCommits.Render | src/index.ts:161-177 | every list is sorted in place, and the text is the header followed by each title in table order, with `*None*` or the sorted bullets |
| ReleaseNotes.ReleaseCommits.AppendSection | src/index.ts:167-176 | one pass sorts row `j` and appends its section; no other row changes |
| ReleaseNotes.Outcome | src/index.ts:150-177 | no contract of its own (the run over any table and classifier); `Run`, `FailsAtFirstUnknown`, `ReleaseIgnoresOrder`, `FailureDependsOnOrder` and `ReleaseListsEveryCommit` state its behaviour |
| ReleaseNotes.ReleaseOf | src/index.ts:150-177 | no contract of its own (`Outcome` with the real table and `getCommitDetails`); `Run` ties the class to it, and `DetailsReleaseListsEveryCommit` states what it releases for any table of distinct keys, the real one included (`KeysDistinct`) |
| ReleaseNotes.Classify | src/index.ts:154 | no contract of its own (the entry made from `getCommitDetails`); `GetCommitDetails`' contract and the rule lemmas state it |
| ReleaseNotes.ThrownBy | src/index.ts:155-158 | no contract of its own: an inherited property name passes the guard and fails at the `push`, any other missing key throws at line 156; `InheritedOnlyConstructor` limits the first to `constructor` |
| ReleaseNotes.CollectedSorted | src/index.ts:153-177 | filing every entry into empty lists and sorting each gives the sorted lists of the specification |
| ReleaseNotes.Run | src/index.ts:150-177 | allocating, collecting and rendering gives exactly `ReleaseOf` of the messages |
| ReleaseNotes.FailsAtFirstUnknown | src/index.ts:155-156 | the run fails exactly when some category is not a key, and then with the error of the first such commit |
| ReleaseNotes.SortedListsPermutation | src/index.ts:172 | the sorted lists do not depend on the order of the entries |
| ReleaseNotes.ReleaseIgnoresOrder | src/index.ts:150-177 | reordering the commits changes neither whether the run succeeds nor, when it does, the notes |
| ReleaseNotes.FailureDependsOnOrder | src/index.ts:153-156 | two commits without keys and with different errors, swapped, make the run fail with the first one's error, so the failures differ |
| ReleaseNotes.LoneUnknownFails | src/index.ts:153-156 | a run over one commit without a key fails with that commit's error |
| ReleaseNotes.DevDependencyTestingThrows | src/index.ts:79-85 | a dev-dependency type with a testing-alias subtype is filed under its lowered type, not `dependency`; a run over that commit alone throws the invalid-type error |
| ReleaseNotes.SortedListsOneLine | src/index.ts:172-174 | the sorted lists hold only one-line texts when the entries do |
| ReleaseNotes.SortedListsHoldEntries | src/index.ts:153-159 | every entry's text is in its category's sorted list, and the lists together hold one text per entry |
| ReleaseNotes.ReleaseListsEveryCommit | src/index.ts:153-177 | released notes read back as the sorted lists, which hold each commit's text under its own category, and no more texts than commits |
| ReleaseNotes.DetailsReleaseListsEveryCommit | src/index.ts:153-177 | with `getCommitDetails` as the classifier, and with no one-line condition left to the caller: released notes read back as the sorted lists, every category is a key, each commit's display is in its category's list, and the lists hold one text per commit |
| ReleaseNotes.ClassifiedOneLine | src/index.ts:98-102 | every display line is a single line |
| ReleaseNotes.InheritedOnlyConstructor | src/index.ts:155-158 | with the real table, the only inherited property a category can name is `constructor` |
| ReleaseNotes.InheritedSpelling | src/index.ts:155 | every inherited property except `constructor` has a character no category can have |
| Herald.KeysDistinct | herald.py:39-76 | the table has nine distinct keys, one title per key, and `bugfix` among them |
| Herald.FirstLine | herald.py:81 | there is no first line exactly when the message is empty; otherwise it is the prefix before the first `splitlines` boundary |
| Herald.OnlyFirstLine | herald.py:81 | whatever follows the first boundary does not change the first line |
| Herald.Lines | herald.py:79-81 | one line per commit; for a non-empty message it is that message's first line |
| Herald.FirstEmpty | herald.py:79-81 | the loop gets past every message before the first empty one, and stops at that one |
| Herald.MatchTag | herald.py:83 | a reported match has a non-empty all-letter type and an all-letter subtype |
| Herald.MatchTagSound | herald.py:78 | every match is a parse of the line by the grammar of `type_regex` |
| Herald.MatchTagComplete | herald.py:78 | every parse by that grammar is the match `re.match` reports |
| Herald.Category | herald.py:84-93 | the key a first line is filed under is always one of the table's keys |
| Herald.TagCategory | herald.py:84-89 | no contract of its own; `ParsedCategory`, `TestingRule`, `KnownTypeRule`, `UnknownTypeNoSubtype`, `UnknownTypeBySubtype` and `SameLowerSameCategory` state its cases |
| Herald.OrBugfix | herald.py:92-93 | no contract of its own; `Category` and `UnknownTypeBySubtype` state that the fallback always lands on a key |
| Herald.UntaggedIsBugfix | herald.py:83-91 | a line the expression does not match is filed under `bugfix` |
| Herald.ParsedCategory | herald.py:83-93 | the key of a parsed line is determined by the lower-cased groups, with the final fallback to `bugfix` |
| Herald.TestingRule | herald.py:88-89 | a known type with subtype `testing` in any case is filed under `testing` |
| Herald.KnownTypeRule | herald.py:84-89 | a known type with any other subtype is filed under the lower-cased type |
| Herald.UnknownTypeNoSubtype | herald.py:86-87 | an unknown type without a subtype is filed under `bugfix` |
| Herald.UnknownTypeBySubtype | herald.py:86-93 | an unknown type with a subtype goes to the lower-cased subtype if that is a key, otherwise to `bugfix` |
| Herald.CaseInsensitive | herald.py:84-85 | tags whose groups differ only in letter case are filed under the same key |
| Herald.SameLowerSameCategory | herald.py:84-89 | the key depends on the groups only through their lower case |
| Herald.ReleaseCommits.constructor | herald.py:39-76 | the table starts with an empty list for every key |
| Herald.ReleaseCommits.Collect | herald.py:79-95 | the lists become the start lists with the first lines of the messages before the first empty one filed in order; that index is the result, or none |
| Herald.ReleaseCommits.Push | herald.py:95 | only the list of the category changes, and it gains the line at its end |
| Herald.ReleaseCommits.Render | herald.py:97-109 | the text is the header followed by each title in table order, with `*None*` or the list in the order it was filled |
| Herald.Outcome | herald.py:79-109 | no contract of its own (the run over any table and classifier); `Run`, `FailsAtFirstEmpty`, `ReleaseListsEveryCommit`, `OrderMatters` and `NotesReadBack` state its behaviour |
| Herald.ReleaseOf | herald.py:79-109 | no contract of its own (`Outcome` with the real table); `Run` ties the class to it, and `ListsEveryFirstLine` states what it releases for any table of distinct keys holding `bugfix`, the real one included (`KeysDistinct`) |
| Herald.CollectedBuckets | herald.py:79-95 | filing every entry into empty lists gives each key the first lines of its own commits, in input order |
| Herald.CategoriesFiled | herald.py:92-95 | every line the classifier files has a key, so the append never misses |
| Herald.Run | herald.py:39-109 | allocating, collecting and rendering gives exactly `ReleaseOf` of the messages |
| Herald.FailsAtFirstEmpty | herald.py:81 | the run stops exactly when some message is empty, and reports the first empty one |
| Herald.ReleaseListsEveryCommit | herald.py:79-109 | released notes read back as the lists; each list holds the text of each of its commits, and the lists hold as many texts as there are commits |
| Herald.LinesOneLine | herald.py:81 | a first line never holds a line feed |
| Herald.ListsEveryFirstLine | herald.py:79-109 | a released run had no empty message; each first line appears verbatim under its key, and the notes read back as those lists |
| Herald.OrderMatters | herald.py:102-109 | two untagged commits with different first lines, in the other order, give different notes |
| Herald.NotesReadBack | herald.py:97-109 | with no empty message, the notes are released and read back as the lists of the classified first lines |

## Left out

- Network requests (`fetch`, `requests.get`) are left out. The model
  takes the commit messages and the previous release's tag name and URL
  as parameters.
- Command-line parsing (commander, argparse) is left out, because it is
  library plumbing.
- Reading `package.json` and `.git/config`, and the `process.exit` paths,
  are left out, because they are file I/O.
- Printing is left out: `console.log`, `console.error` and `print`. The
  model ends with the text that is printed. It does not add the trailing
  newline that `print` and `console.log` write.
- The error text printed on a failure is left out. A failure is a value
  that carries the category and the message.
- The promise chaining around the run is left out, because it is
  asynchronous I/O. The error the promise rejects with is the `Failed`
  outcome.
- `herald.py` takes the header link from the latest release even when
  `--from` names another tag. This is left out: the tag name and URL are
  parameters of both runs.
- A commit object without a `commit`/`message` field raises `KeyError` or
  `TypeError`. This is left out: the model takes the messages themselves.
- `toLowerCase` and `lower` are modelled on ASCII letters only. This is
  exact for type and subtype, which both grammars restrict to ASCII.
- `Array.prototype.sort` compares UTF-16 code units; the model compares
  code points. The two orders differ only between astral characters and
  U+E000 to U+FFFF.
- The `Collect` methods and the `Outcome` functions take the classifier as
  a function value. Both `Run` methods and both `ReleaseOf` functions fix
  it to the real classifier and table. Concrete example runs on literal
  messages are not part of this model.
