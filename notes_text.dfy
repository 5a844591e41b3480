/** The release-notes text both versions print (src/index.ts:161-177,
    herald.py:97-109): a link to the previous release, then one section per
    table row with its title and either `*None*` or one bullet per entry. */
module NotesText {
  import opened Wrappers
  import opened Strings

  predicate IsNewline(c: char) { c == '\n' }

  /** Every entry of every list fits on one line. */
  predicate AllOneLine(lists: seq<seq<string>>) {
    forall j, k :: 0 <= j < |lists| && 0 <= k < |lists[j]| ==> OneLine(lists[j][k])
  }

  /** The Markdown link to the previous release (src/index.ts:163, herald.py:99). */
  function PreviousLink(tagName: string, url: string): string {
    "[" + tagName + "](" + url + ")"
  }

  /** src/index.ts:164-165, herald.py:100-101. */
  function Header(tagName: string, url: string): string {
    "*Previous Release Notes:* " + PreviousLink(tagName, url) + "\n" + "\n"
  }

  /** `* entry` lines, one per entry, in the order of the list. */
  function Bullets(entries: seq<string>): string {
    if entries == [] then "" else "* " + entries[0] + "\n" + Bullets(entries[1..])
  }

  /** One section: the title, a blank line, `*None*` or the bullets, a blank line. */
  function Section(title: string, entries: seq<string>): string {
    title + "\n\n" + (if entries == [] then "*None*\n" else Bullets(entries)) + "\n"
  }

  /** The sections of all rows, in table order. */
  function Sections(titles: seq<string>, lists: seq<seq<string>>): string
    requires |titles| == |lists|
  {
    if titles == [] then "" else Section(titles[0], lists[0]) + Sections(titles[1..], lists[1..])
  }

  function Notes(tagName: string, url: string, titles: seq<string>, lists: seq<seq<string>>): string
    requires |titles| == |lists|
  {
    Header(tagName, url) + Sections(titles, lists)
  }

  /** Appending one bullet at the end, as the rendering loops do. */
  lemma {:induction false} BulletsSnoc(entries: seq<string>, e: string)
    ensures Bullets(entries + [e]) == Bullets(entries) + ("* " + e + "\n")
  {
    if entries != [] {
      assert (entries + [e])[1..] == entries[1..] + [e];
      BulletsSnoc(entries[1..], e);
    }
  }

  /** Appending one section at the end, as the rendering loops do. */
  lemma {:induction false} SectionsSnoc(titles: seq<string>, lists: seq<seq<string>>, t: string, l: seq<string>)
    requires |titles| == |lists|
    ensures Sections(titles + [t], lists + [l]) == Sections(titles, lists) + Section(t, l)
  {
    if titles == [] {
      assert Sections([t], [l]) == Section(t, l) + Sections([], []);
    } else {
      assert (titles + [t])[1..] == titles[1..] + [t];
      assert (lists + [l])[1..] == lists[1..] + [l];
      SectionsSnoc(titles[1..], lists[1..], t, l);
    }
  }

  /** Reads back the bullets at the start of `s`: the entries and what follows them. */
  function ParseBullets(s: string): (r: (seq<string>, string))
    decreases |s|
  {
    if 2 <= |s| && s[0] == '*' && s[1] == ' ' then
      var e := TakeUntil(s[2..], IsNewline);
      if 2 + |e| < |s| then
        var rest := ParseBullets(s[3 + |e|..]);
        ([e] + rest.0, rest.1)
      else ([], s)
    else ([], s)
  }

  /** Reads back one section with a known title: its entries and what follows it. */
  function ParseSection(title: string, s: string): (r: Option<(seq<string>, string)>) {
    var head := title + "\n\n";
    if !(head <= s) then None
    else
      var body := s[|head|..];
      if "*None*\n\n" <= body then Some(([], body[8..]))
      else
        var bullets := ParseBullets(body);
        if bullets.0 != [] && bullets.1 != [] && bullets.1[0] == '\n' then Some((bullets.0, bullets.1[1..]))
        else None
  }

  /** Reads back the sections of a table with known titles, to the end of `s`. */
  function ParseSections(titles: seq<string>, s: string): (r: Option<seq<seq<string>>>)
    ensures r.Some? ==> |r.value| == |titles|
  {
    if titles == [] then (if s == [] then Some([]) else None)
    else
      match ParseSection(titles[0], s)
      case None => None
      case Some(section) =>
        match ParseSections(titles[1..], section.1)
        case None => None
        case Some(lists) => Some([section.0] + lists)
  }

  /** Reads back the lists from a release-notes text with a known header and titles. */
  function ParseNotes(tagName: string, url: string, titles: seq<string>, s: string): (r: Option<seq<seq<string>>>)
    ensures r.Some? ==> |r.value| == |titles|
  {
    var head := Header(tagName, url);
    if head <= s then ParseSections(titles, s[|head|..]) else None
  }

  /** Where the parts of a bullet line followed by more text sit. */
  lemma BulletLine(e: string, more: string)
    ensures var s := "* " + e + "\n" + more;
      && |s| == 3 + |e| + |more| && s[0] == '*' && s[1] == ' '
      && s[2..] == e + ['\n'] + more && s[3 + |e|..] == more
  {
    var s := "* " + e + "\n" + more;
    assert s[2..] == e + ['\n'] + more;
  }

  /** One bullet line is read back as its entry. */
  lemma ParseBulletStep(e: string, more: string)
    requires OneLine(e)
    ensures var r := ParseBullets(more); ParseBullets("* " + e + "\n" + more) == ([e] + r.0, r.1)
  {
    BulletLine(e, more);
    TakeUntilAppend(e, '\n', more, IsNewline);
    TakeUntilNoStop(e, IsNewline);
  }

  /** A bullet list followed by text it does not run into. */
  lemma BulletsCons(entries: seq<string>, tail: string)
    requires entries != []
    ensures Bullets(entries) + tail == "* " + entries[0] + "\n" + (Bullets(entries[1..]) + tail)
    ensures entries == [entries[0]] + entries[1..]
  {
  }

  lemma {:induction false} ParseBulletsOfBullets(entries: seq<string>, tail: string)
    requires forall k :: 0 <= k < |entries| ==> OneLine(entries[k])
    requires tail != [] && tail[0] == '\n'
    ensures ParseBullets(Bullets(entries) + tail) == (entries, tail)
  {
    if entries == [] {
      assert Bullets(entries) + tail == tail;
    } else {
      BulletsCons(entries, tail);
      ParseBulletStep(entries[0], Bullets(entries[1..]) + tail);
      ParseBulletsOfBullets(entries[1..], tail);
    }
  }

  /** A section followed by more text, regrouped after its title line. */
  lemma SectionRegroup(head: string, body: string, tail: string)
    ensures head + body + "\n" + tail == head + (body + ("\n" + tail))
    ensures (head + (body + ("\n" + tail)))[|head|..] == body + ("\n" + tail)
  {
  }

  lemma NoneThen(tail: string)
    ensures var body := "*None*\n" + ("\n" + tail);
      "*None*\n\n" <= body && body[8..] == tail
  {
    var body := "*None*\n" + ("\n" + tail);
    assert body == "*None*\n\n" + tail;
  }

  /** A bullet list starts with the marker of its first bullet. */
  lemma BulletsStart(entries: seq<string>, tail: string)
    requires entries != []
    ensures var s := Bullets(entries) + tail; 2 <= |s| && s[0] == '*' && s[1] == ' '
  {
    BulletLine(entries[0], Bullets(entries[1..]) + tail);
    assert Bullets(entries) + tail == "* " + entries[0] + "\n" + (Bullets(entries[1..]) + tail);
  }

  /** A bullet is never taken for the `*None*` line. */
  lemma BulletIsNotNone(s: string)
    requires 2 <= |s| && s[1] == ' '
    ensures !("*None*\n\n" <= s)
  {
  }

  lemma ParseSectionOfSection(title: string, entries: seq<string>, tail: string)
    requires forall k :: 0 <= k < |entries| ==> OneLine(entries[k])
    ensures ParseSection(title, Section(title, entries) + tail) == Some((entries, tail))
  {
    var head := title + "\n\n";
    var x := if entries == [] then "*None*\n" else Bullets(entries);
    assert Section(title, entries) + tail == head + x + "\n" + tail;
    SectionRegroup(head, x, tail);
    if entries == [] {
      ParseEmptySection(title, tail);
    } else {
      ParseBulletSection(title, entries, tail);
    }
  }

  lemma ParseEmptySection(title: string, tail: string)
    ensures ParseSection(title, title + "\n\n" + ("*None*\n" + ("\n" + tail))) == Some(([], tail))
  {
    var head := title + "\n\n";
    var s := head + ("*None*\n" + ("\n" + tail));
    assert head <= s && s[|head|..] == "*None*\n" + ("\n" + tail);
    NoneThen(tail);
  }

  lemma ParseBulletSection(title: string, entries: seq<string>, tail: string)
    requires entries != [] && forall k :: 0 <= k < |entries| ==> OneLine(entries[k])
    ensures ParseSection(title, title + "\n\n" + (Bullets(entries) + ("\n" + tail))) == Some((entries, tail))
  {
    var head := title + "\n\n";
    var body := Bullets(entries) + ("\n" + tail);
    var s := head + body;
    assert head <= s && s[|head|..] == body;
    BulletsStart(entries, "\n" + tail);
    BulletIsNotNone(body);
    ParseBulletsOfBullets(entries, "\n" + tail);
  }

  lemma {:induction false} ParseSectionsOfSections(titles: seq<string>, lists: seq<seq<string>>)
    requires |titles| == |lists| && AllOneLine(lists)
    ensures ParseSections(titles, Sections(titles, lists)) == Some(lists)
  {
    if titles != [] {
      var rest := Sections(titles[1..], lists[1..]);
      assert Sections(titles, lists) == Section(titles[0], lists[0]) + rest;
      AllOneLineSplit(lists);
      ParseSectionOfSection(titles[0], lists[0], rest);
      ParseSectionsOfSections(titles[1..], lists[1..]);
      ParseSectionsStep(titles, Sections(titles, lists), lists[0], rest, lists[1..]);
      assert lists == [lists[0]] + lists[1..];
    }
  }

  lemma AllOneLineSplit(lists: seq<seq<string>>)
    requires lists != [] && AllOneLine(lists)
    ensures forall k :: 0 <= k < |lists[0]| ==> OneLine(lists[0][k])
    ensures AllOneLine(lists[1..])
  {
    forall j, k | 0 <= j < |lists[1..]| && 0 <= k < |lists[1..][j]| ensures OneLine(lists[1..][j][k]) {
      assert lists[1..][j] == lists[j + 1];
    }
  }

  /** One section read, then the rest of the table. */
  lemma ParseSectionsStep(titles: seq<string>, s: string, first: seq<string>, rest: string, more: seq<seq<string>>)
    requires titles != [] && ParseSection(titles[0], s) == Some((first, rest))
    requires ParseSections(titles[1..], rest) == Some(more)
    ensures ParseSections(titles, s) == Some([first] + more)
  {
  }

  /** The notes are a faithful rendering: the lists can be read back from
      them when no entry spans two lines. */
  lemma ParseNotesOfNotes(tagName: string, url: string, titles: seq<string>, lists: seq<seq<string>>)
    requires |titles| == |lists| && AllOneLine(lists)
    ensures ParseNotes(tagName, url, titles, Notes(tagName, url, titles, lists)) == Some(lists)
  {
    var head := Header(tagName, url);
    assert Notes(tagName, url, titles, lists)[|head|..] == Sections(titles, lists);
    ParseSectionsOfSections(titles, lists);
  }

  /** Hence different lists always give different notes. */
  lemma NotesInjective(tagName: string, url: string, titles: seq<string>, a: seq<seq<string>>, b: seq<seq<string>>)
    requires |titles| == |a| == |b| && AllOneLine(a) && AllOneLine(b)
    requires Notes(tagName, url, titles, a) == Notes(tagName, url, titles, b)
    ensures a == b
  {
    ParseNotesOfNotes(tagName, url, titles, a);
    ParseNotesOfNotes(tagName, url, titles, b);
  }

  /** One `* entry` line per entry, in list order (src/index.ts:172-174,
      herald.py:107-108). */
  method AppendBullets(prefix: string, list: seq<string>) returns (result: string)
    ensures result == prefix + Bullets(list)
  {
    result := prefix;
    var k := 0;
    while k < |list|
      invariant 0 <= k <= |list|
      invariant result == prefix + Bullets(list[..k])
    {
      BulletsSnoc(list[..k], list[k]);
      assert list[..k + 1] == list[..k] + [list[k]];
      Regroup(prefix, Bullets(list[..k]), "* " + list[k] + "\n");
      result := result + ("* " + list[k] + "\n");
      k := k + 1;
    }
    assert list[..k] == list;
  }

  lemma SectionAppended(before: string, title: string, entries: seq<string>, notes: string)
    requires notes == before + (title + "\n\n") + (if entries == [] then "*None*\n" else Bullets(entries)) + "\n"
    ensures notes == before + Section(title, entries)
  {
  }

  /** The sections of the first `j + 1` rows. */
  lemma SectionStep(titles: seq<string>, lists: seq<seq<string>>, j: nat)
    requires j < |titles| == |lists|
    ensures Sections(titles[..j + 1], lists[..j + 1]) == Sections(titles[..j], lists[..j]) + Section(titles[j], lists[j])
  {
    assert titles[..j + 1] == titles[..j] + [titles[j]];
    assert lists[..j + 1] == lists[..j] + [lists[j]];
    SectionsSnoc(titles[..j], lists[..j], titles[j], lists[j]);
  }
}
