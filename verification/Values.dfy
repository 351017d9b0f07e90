/** Which values, and which lists, survive being written to a buckconfig file. */
module Values {
  import opened Buckconfig
  import opened GeneratedBlock
  import opened Options
  import opened Rendering
  import opened Texts

  /** Nothing to include. */
  function Alone(): Follow {
    (path, config, section) => (config, section)
  }

  // Nothing read from a file has a line feed in it, or space around it.

  predicate Clean(value: string) {
    Stripped(value) && '\n' !in value
  }

  predicate AllClean(config: Config) {
    forall i, j :: 0 <= i < |config| && 0 <= j < |config[i].entries| ==> Clean(config[i].entries[j].value)
  }

  lemma {:induction false} StripLeftAddsNothing(text: string, c: char)
    requires c !in text
    ensures c !in StripLeft(text)
  {
    if text != "" && IsSpace(text[0]) {
      StripLeftAddsNothing(text[1..], c);
    }
  }

  lemma StripAddsNothing(text: string, c: char)
    requires c !in text
    ensures c !in Strip(text)
  {
    StripLeftAddsNothing(text, c);
    assert StripRight(StripLeft(text)) <= StripLeft(text);
  }

  lemma ReadLinesHaveNoLineFeeds(text: string)
    ensures NoneHas(ReadLines(text), '\n')
  {
    JoinInvertsSplitAt(text, '\n');
  }

  lemma {:induction false} LogicalLinesHaveNoLineFeeds(lines: seq<string>, logical: seq<string>, kept: bool, continued: bool)
    requires NoneHas(lines, '\n') && NoneHas(logical, '\n')
    ensures NoneHas(LogicalFrom(lines, logical, kept, continued), '\n')
  {
    hide Strip, IsEntry, Continues;
    if lines != [] {
      assert lines[0] in lines && NoneHas(lines[1..], '\n');
      var line := Strip(lines[0]);
      StripAddsNothing(lines[0], '\n');
      if continued {
        if kept && logical != [] {
          var n := |logical| - 1;
          assert logical[n] in logical;
          var joined := logical[..n] + [Chop(logical[n]) + line];
          forall one | one in joined
            ensures '\n' !in one
          {
            assert one in logical || one == Chop(logical[n]) + line;
          }
          LogicalLinesHaveNoLineFeeds(lines[1..], joined, kept, Continues(line));
        } else {
          LogicalLinesHaveNoLineFeeds(lines[1..], logical, kept, Continues(line));
        }
      } else {
        LogicalLinesHaveNoLineFeeds(lines[1..], if IsEntry(line) then logical + [line] else logical, IsEntry(line), Continues(line));
      }
    }
  }

  lemma PutKeepsClean(config: Config, name: string, key: string, value: string)
    requires AllClean(config) && Clean(value)
    ensures AllClean(Put(config, name, key, value))
  {
    hide Find, FirstAt, Clean;
  }

  lemma LineKeepsClean(line: string, config: Config, section: string)
    requires AllClean(config) && '\n' !in line
    ensures AllClean(ParseLine(line, config, section, Alone()).0)
  {
    hide Strip, Put, SectionMarker;
    var at := IndexOf(line, '=');
    if at < |line| {
      StripAddsNothing(line[at + 1..], '\n');
      StrippedIsStrip(line[at + 1..]);
      PutKeepsClean(config, section, Strip(line[..at]), Strip(line[at + 1..]));
    }
  }

  lemma {:induction false} ParsingKeepsClean(lines: seq<string>, config: Config, section: string)
    requires AllClean(config) && NoneHas(lines, '\n')
    ensures AllClean(Parse(lines, config, section, Alone()).0)
    decreases |lines|
  {
    hide ParseLine, AllClean;
    if lines != [] {
      assert lines[0] in lines && NoneHas(lines[1..], '\n');
      LineKeepsClean(lines[0], config, section);
      var next := ParseLine(lines[0], config, section, Alone());
      ParsingKeepsClean(lines[1..], next.0, next.1);
    }
  }

  lemma WhatIsReadIsClean(text: string)
    ensures AllClean(Parse(Logical(ReadLines(text)), [], "", Alone()).0)
  {
    hide AllClean, ReadLines;
    ReadLinesHaveNoLineFeeds(text);
    LogicalLinesHaveNoLineFeeds(ReadLines(text), [], false, false);
    NothingIsClean();
    ParsingKeepsClean(Logical(ReadLines(text)), [], "");
  }

  lemma NothingIsClean()
    ensures AllClean([])
  {
  }

  // Two entries, one after the other.

  function TwoEntries(key: string, value: string, other: string, more: string): string {
    WriteLines([EntryLine(Entry(key, value)), EntryLine(Entry(other, more))])
  }

  /** A value, and the entry after it, read back exactly if the value is stripped, does not end in a
      backslash and has no line feed in it. */
  lemma ReadsBackExactlyIf(key: string, value: string, other: string, more: string)
    requires Word(key) && Word(other) && key != other && RoundTrips(more)
    ensures RoundTrips(value) <==>
            Parse(Logical(ReadLines(TwoEntries(key, value, other, more))), [], "", Alone()).0 ==
            [Section("", [Entry(key, value), Entry(other, more)])]
  {
    hide Parse, Logical, ReadLines, RoundTrips, Word, TwoEntries, Clean;
    var text := TwoEntries(key, value, other, more);
    var config := Parse(Logical(ReadLines(text)), [], "", Alone()).0;
    var entries := [Entry(key, value), Entry(other, more)];
    if RoundTrips(value) {
      TwoReadBack(key, value, other, more);
    } else if config == [Section("", entries)] {
      WhatIsReadIsClean(text);
      assert config[0].entries[0].value == value;
      assert Clean(value);
      SwallowsTheNext(key, value, other, more);
    }
  }

  lemma TwoReadBack(key: string, value: string, other: string, more: string)
    requires Word(key) && Word(other) && key != other && RoundTrips(more) && RoundTrips(value)
    ensures Parse(Logical(ReadLines(TwoEntries(key, value, other, more))), [], "", Alone()).0 ==
            [Section("", [Entry(key, value), Entry(other, more)])]
  {
    hide Parse, Logical, ReadLines, Word, RoundTrips, EntryLine, EntryText, WriteLines;
    var entries := [Entry(key, value), Entry(other, more)];
    assert entries[1..] == [Entry(other, more)] && entries[1..][1..] == [];
    assert EntryLines(entries[1..]) == [EntryLine(Entry(other, more))];
    var lines := EntryLines(entries);
    assert lines == [EntryLine(Entry(key, value)), EntryLine(Entry(other, more))];
    EntryLinesAreEntries(entries, []);
    assert lines + [] == lines;
    LinesReadBack(lines);
    NothingLogical();
    assert EntryTexts(entries) + [] == EntryTexts(entries);
    UnnamedSectionParses([], entries, [], Alone());
    NothingToParse([Section("", entries)]);
    assert [] + [Section("", entries)] == [Section("", entries)];
  }

  lemma NothingToParse(config: Config)
    ensures Parse([], config, "", Alone()).0 == config
  {
  }

  lemma EntryLineWithBackslash(key: string, value: string)
    requires Word(key) && Stripped(value) && Continues(value) && '\n' !in value
    ensures var line := EntryLine(Entry(key, value));
            Strip(line) == line && IsEntry(line) && Continues(line) && '\n' !in line
  {
    hide Word, Strip;
    WordIsOrdinary(key);
    WordIsNotEmpty(key);
    var line := EntryLine(Entry(key, value));
    assert line[0] == key[0] && line[|line| - 1] == value[|value| - 1];
    StrippedIsStrip(line);
  }

  /** A backslash at the end swallows the entry after it. */
  lemma SwallowsTheNext(key: string, value: string, other: string, more: string)
    requires Word(key) && Word(other) && RoundTrips(more) && Clean(value) && !RoundTrips(value)
    ensures |Logical(ReadLines(TwoEntries(key, value, other, more)))| == 1
    ensures var config := Parse(Logical(ReadLines(TwoEntries(key, value, other, more))), [], "", Alone()).0;
            config == [] || (|config| == 1 && |config[0].entries| <= 1)
  {
    hide Strip, Word, EntryLine, ReadLines, WriteLines, ParseLine;
    StrippedIsStrip(value);
    var first, second := EntryLine(Entry(key, value)), EntryLine(Entry(other, more));
    EntryLineWithBackslash(key, value);
    EntryLineStrips(Entry(other, more));
    LinesReadBack([first, second]);
    var joined := Chop(first) + Strip(second);
    assert [first, second][1..] == [second] && [second][1..] == [];
    assert [] + [first] == [first] && [first][..0] + [joined] == [joined];
    assert LogicalFrom([second], [first], true, true) == [joined];
    assert Logical([first, second]) == [joined];
    OneLineOneEntry(joined);
    assert [joined][1..] == [];
  }

  lemma OneLineOneEntry(line: string)
    ensures var config := ParseLine(line, [], "", Alone()).0; config == [] || (|config| == 1 && |config[0].entries| <= 1)
  {
    hide Strip, SectionMarker, IndexOf;
  }

  // Lists, one entry to a line.

  /** How a list of ignores is written: on one line after another, each but the last continued. */
  function ListLines(entries: seq<string>): seq<string>
    requires entries != []
  {
    if |entries| == 1 then [entries[0]] else [entries[0] + ", " + "\\"] + ListLines(entries[1..])
  }

  function Indented(lines: seq<string>): seq<string> {
    if lines == [] then [] else ["    " + lines[0]] + Indented(lines[1..])
  }

  function IgnoreLines(key: string, entries: seq<string>): seq<string>
    requires entries != []
  {
    var lines := ListLines(entries);
    [key + " = " + lines[0]] + Indented(lines[1..])
  }

  /** The list as one value. */
  function Listed(entries: seq<string>): string
    requires entries != []
  {
    if |entries| == 1 then entries[0] else entries[0] + ", " + Listed(entries[1..])
  }

  /** How a list is read out of a value: split at commas, stripped, without empty entries. */
  function ListOf(parts: seq<string>): seq<string> {
    if parts == [] then [] else (if Strip(parts[0]) == "" then [] else [Strip(parts[0])]) + ListOf(parts[1..])
  }

  function ReadList(value: string): seq<string> {
    ListOf(SplitAt(value, ','))
  }

  /** An entry a list can hold. */
  predicate Listable(entry: string) {
    entry != "" && RoundTrips(entry) && ',' !in entry
  }

  predicate AllListable(entries: seq<string>) {
    forall entry :: entry in entries ==> Listable(entry)
  }

  lemma {:induction false} ListedRoundTrips(entries: seq<string>)
    requires entries != [] && AllListable(entries)
    ensures RoundTrips(Listed(entries)) && Listed(entries) != ""
  {
    hide Strip;
    var entry := entries[0];
    assert entry in entries && Listable(entry);
    StrippedIsStrip(entry);
    if |entries| > 1 {
      assert forall one :: one in entries[1..] ==> one in entries;
      ListedRoundTrips(entries[1..]);
      var more, whole := Listed(entries[1..]), Listed(entries);
      StrippedIsStrip(more);
      assert whole[0] == entry[0] && whole[|whole| - 1] == more[|more| - 1];
      StrippedIsStrip(whole);
    }
  }

  /** The first entry of a list, with or without a space in front of it. */
  lemma FirstOfList(space: string, entry: string, more: string)
    requires Listable(entry) && space in {"", " "}
    ensures ReadList(space + entry) == [entry]
    ensures ReadList(space + entry + "," + more) == [entry] + ReadList(more)
  {
    hide Strip, SplitAt;
    StrippedIsStrip(entry);
    SpaceInFrontIsStripped(entry);
    assert space + entry == if space == "" then entry else " " + entry;
    assert Strip(space + entry) == entry && ListOf([]) == [];
    SplitAtFirst(space + entry, more, ',');
    assert space + entry + [','] + more == space + entry + "," + more;
    assert ([space + entry] + SplitAt(more, ','))[1..] == SplitAt(more, ',');
    assert [space + entry][1..] == [] && [entry] + [] == [entry];
  }

  lemma {:induction false} ListReadsBack(entries: seq<string>, space: string)
    requires entries != [] && AllListable(entries) && space in {"", " "}
    ensures ReadList(space + Listed(entries)) == entries
    decreases |entries|
  {
    hide ReadList, Listable;
    var entry := entries[0];
    assert entry in entries;
    if |entries| == 1 {
      FirstOfList(space, entry, "");
      assert entries == [entry];
    } else {
      var more := entries[1..];
      assert forall one :: one in more ==> one in entries;
      ListReadsBack(more, " ");
      FirstOfList(space, entry, " " + Listed(more));
      assert space + Listed(entries) == space + entry + "," + (" " + Listed(more));
      assert [entry] + more == entries;
    }
  }

  lemma OneContinuation(line: string, rest: seq<string>, before: string)
    ensures LogicalFrom([line] + rest, [before + "\\"], true, true) ==
            LogicalFrom(rest, [before + Strip(line)], true, Continues(Strip(line)))
  {
    hide Strip;
    assert Chop(before + "\\") == before;
    assert ([line] + rest)[1..] == rest && [before + "\\"][..0] + [before + Strip(line)] == [before + Strip(line)];
  }

  lemma ListLineStrips(entry: string)
    requires Listable(entry)
    ensures Strip("    " + entry) == entry && !Continues(entry)
    ensures Strip("    " + (entry + ", " + "\\")) == entry + ", " + "\\" && Continues(entry + ", " + "\\")
  {
    hide Strip;
    var line := entry + ", " + "\\";
    IndentIsStripped(entry);
    IndentIsStripped(line);
    StrippedIsStrip(entry);
    assert !IsSpace('\\') && line[0] == entry[0];
    StrippedIsStrip(line);
  }

  lemma Regrouped(a: string, b: string, c: string, d: string)
    ensures a + (b + c + d) == a + b + c + d && a + (b + c) == a + b + c
  {
  }

  /** The lines of a list, continuing what comes before them, make one entry. */
  lemma {:induction false} ListLinesJoin(entries: seq<string>, before: string, after: seq<string>)
    requires entries != [] && AllListable(entries)
    ensures LogicalFrom(Indented(ListLines(entries)) + after, [before + "\\"], true, true) ==
            [before + Listed(entries)] + Logical(after)
    decreases |entries|
  {
    hide Strip, LogicalFrom, Listable, Logical;
    var entry, lines := entries[0], ListLines(entries);
    assert entry in entries;
    ListLineStrips(entry);
    var rest := Indented(lines[1..]) + after;
    assert Indented(lines) + after == ["    " + lines[0]] + rest;
    OneContinuation("    " + lines[0], rest, before);
    if |entries| == 1 {
      assert rest == after;
      EndsHere(before + entry, after);
    } else {
      var more := entries[1..];
      assert forall one :: one in more ==> one in entries;
      assert lines == [entry + ", " + "\\"] + ListLines(more) && lines[1..] == ListLines(more);
      ListLinesJoin(more, before + entry + ", ", after);
      Regrouped(before, entry, ", ", "\\");
      Regrouped(before, entry, ", ", Listed(more));
    }
  }

  lemma EndsHere(logical: string, after: seq<string>)
    ensures LogicalFrom(after, [logical], true, false) == [logical] + Logical(after)
  {
    hide Strip, IsEntry, Continues;
    EarlierEntriesStay(after, [logical], [], true, false);
    assert [logical] + [] == [logical];
    KeptOnlyMattersToContinue(after, [], true);
  }

  lemma IndentIsStripped(text: string)
    ensures Strip("    " + text) == Strip(text)
  {
    hide Strip;
    assert "    " + text == " " + (" " + (" " + (" " + text)));
    SpaceInFrontIsStripped(text);
    SpaceInFrontIsStripped(" " + text);
    SpaceInFrontIsStripped(" " + (" " + text));
    SpaceInFrontIsStripped(" " + (" " + (" " + text)));
  }

  /** A list written over several lines is the entry it would be on one, and reads back as the list. */
  lemma IgnoresReadBack(key: string, entries: seq<string>, after: seq<string>)
    requires Word(key) && entries != [] && AllListable(entries)
    ensures Logical(IgnoreLines(key, entries) + after) == [EntryText(Entry(key, Listed(entries)))] + Logical(after)
    ensures RoundTrips(Listed(entries)) && ReadList(Listed(entries)) == entries
  {
    hide Strip, Word, Listable, EntryLine, EntryText, RoundTrips, ReadList, Logical, IgnoreLines;
    ListedRoundTrips(entries);
    ListReadsBack(entries, "");
    assert "" + Listed(entries) == Listed(entries);
    assert entries[0] in entries;
    if |entries| == 1 {
      OneIgnore(key, entries[0], after);
      assert entries == [entries[0]];
    } else {
      MoreIgnores(key, entries, after);
    }
  }

  lemma OneIgnore(key: string, entry: string, after: seq<string>)
    requires Word(key) && Listable(entry)
    ensures Logical(IgnoreLines(key, [entry]) + after) == [EntryText(Entry(key, entry))] + Logical(after)
  {
    hide Strip, Word, Logical;
    assert [entry][1..] == [] && Indented([]) == [];
    EntryLineStrips(Entry(key, entry));
    OneLine(EntryLine(Entry(key, entry)), after);
    assert [EntryLine(Entry(key, entry))] == IgnoreLines(key, [entry]);
  }

  lemma OpensContinuation(line: string, rest: seq<string>)
    requires Strip(line) == line && IsEntry(line) && Continues(line)
    ensures Logical([line] + rest) == LogicalFrom(rest, [line], true, true)
  {
    hide Strip, IsEntry, Continues;
    assert ([line] + rest)[1..] == rest && [] + [line] == [line];
  }

  lemma IgnoreLinesOpen(key: string, entries: seq<string>)
    requires |entries| > 1
    ensures IgnoreLines(key, entries) == [key + " = " + entries[0] + ", " + "\\"] + Indented(ListLines(entries[1..]))
  {
    hide Indented;
    var lines := ListLines(entries);
    assert lines == [entries[0] + ", " + "\\"] + ListLines(entries[1..]) && lines[1..] == ListLines(entries[1..]);
    Regrouped(key + " = ", entries[0], ", ", "\\");
  }

  lemma ListedText(key: string, entries: seq<string>)
    requires |entries| > 1
    ensures EntryText(Entry(key, Listed(entries))) == key + " = " + entries[0] + ", " + Listed(entries[1..])
  {
    var more := Listed(entries[1..]);
    assert Listed(entries) == entries[0] + ", " + more;
    Regrouped(key + " = ", entries[0], ", ", more);
  }

  lemma MoreIgnores(key: string, entries: seq<string>, after: seq<string>)
    requires Word(key) && |entries| > 1 && AllListable(entries)
    ensures Logical(IgnoreLines(key, entries) + after) == [EntryText(Entry(key, Listed(entries)))] + Logical(after)
  {
    hide Strip, Word, Listable, Continues, IsEntry, Logical, LogicalFrom, IgnoreLines, Listed, ListLines, Indented, EntryText;
    var entry, more := entries[0], entries[1..];
    assert forall one :: one in more ==> one in entries;
    var before := key + " = " + entry + ", ";
    var rest := Indented(ListLines(more)) + after;
    BackslashLine(key, entry);
    IgnoreLinesOpen(key, entries);
    OpensContinuation(before + "\\", rest);
    ListLinesJoin(more, before, after);
    assert IgnoreLines(key, entries) + after == [before + "\\"] + rest;
    ListedText(key, entries);
  }

  lemma BackslashLine(key: string, entry: string)
    requires Word(key)
    ensures var line := key + " = " + entry + ", " + "\\"; Strip(line) == line && IsEntry(line) && Continues(line)
  {
    hide Strip, Word;
    WordIsOrdinary(key);
    WordIsNotEmpty(key);
    var line := key + " = " + entry + ", " + "\\";
    assert line[0] == key[0] && line[|line| - 1] == '\\' && !IsSpace('\\');
    StrippedIsStrip(line);
  }

  /** A path as a glob that matches only it. */
  function GlobLiteral(path: string): string {
    if path == "" then ""
    else (if path[0] in {'\\', '*', '?', '{', '['} then ['\\', path[0]] else [path[0]]) + GlobLiteral(path[1..])
  }

  /** Escaping a path for a glob leaves it something a list can hold, if it was before. */
  lemma {:induction false} EscapedPathsAreListable(path: string)
    requires Listable(path)
    ensures Listable(GlobLiteral(path))
  {
    hide Strip;
    EscapingKeepsEnds(path);
    EscapingAddsOnlyBackslashes(path);
    StrippedIsStrip(path);
    StrippedIsStrip(GlobLiteral(path));
  }

  lemma {:induction false} EscapingAddsOnlyBackslashes(path: string)
    ensures forall c :: c in GlobLiteral(path) ==> c in path || c == '\\'
  {
    if path != "" {
      EscapingAddsOnlyBackslashes(path[1..]);
    }
  }

  lemma {:induction false} EscapingKeepsEnds(path: string)
    requires path != ""
    ensures var glob := GlobLiteral(path);
            glob != "" && (glob[0] == path[0] || glob[0] == '\\') && glob[|glob| - 1] == path[|path| - 1]
  {
    if |path| > 1 {
      EscapingKeepsEnds(path[1..]);
    }
  }

  // Entries outside any section.

  /** Entries outside any section that come after a section are taken for that section's. */
  lemma UnnamedAfterAnotherIsLost(key: string, value: string, name: string, other: string, more: string)
    requires Word(key) && RoundTrips(value) && Word(name) && Word(other) && RoundTrips(more) && key != other
    ensures var config := [Section(name, [Entry(other, more)]), Section("", [Entry(key, value)])];
            Parse(Logical(ReadLines(WriteLines([CONFIG_HEADER] + Body(config)))), [], "", Alone()).0 ==
            [Section(name, [Entry(other, more), Entry(key, value)])]
  {
    hide Strip, Word, RoundTrips, Parse, Logical, ReadLines, CONFIG_HEADER, EntryText, EntryLine, WriteLines;
    var a, b := Entry(other, more), Entry(key, value);
    var config, one := [Section(name, [a]), Section("", [b])], [Section(name, [a, b])];
    WordIsNotEmpty(name);
    RenderedReadsBack(one, Alone());
    assert NonEmpty(one) == one;
    hide RoundTrips;
    SameTexts(name, a, b);
    BodyIsEntries(config, []);
    BodyIsEntries(one, []);
    HeaderIsNoEntry();
    assert Body(config) + [] == Body(config) && Body(one) + [] == Body(one);
    OneLine(CONFIG_HEADER, Body(config));
    OneLine(CONFIG_HEADER, Body(one));
    LinesReadBack([CONFIG_HEADER] + Body(config));
    LinesReadBack([CONFIG_HEADER] + Body(one));
  }

  lemma SameTexts(name: string, a: Entry, b: Entry)
    requires name != ""
    ensures ConfigTexts([Section(name, [a]), Section("", [b])]) == ConfigTexts([Section(name, [a, b])])
  {
    hide EntryText, MarkerLine;
    var marker := [MarkerLine(name)];
    assert [a, b][1..] == [b] && [a][1..] == [] && [b][1..] == [];
    assert EntryTexts([a, b]) == [EntryText(a)] + [EntryText(b)] && EntryTexts([a]) == [EntryText(a)] && EntryTexts([b]) == [EntryText(b)];
    assert [Section(name, [a]), Section("", [b])][1..] == [Section("", [b])];
    assert ConfigTexts([Section("", [b])]) == [EntryText(b)];
    assert ConfigTexts([Section(name, [a, b])]) == marker + ([EntryText(a)] + [EntryText(b)]);
  }

  // The generated block as a whole.

  const BLOCK_NOTE := "# Buck reads the version," + " dev targets, mount ignores" + " and cache settings; tine" + " reads its TOML."

  /** The block between its markers: tine's own entries, the ignores, and how to reach the cache. */
  function BlockLines(own: seq<Entry>, ignores: seq<string>, client: seq<Entry>): seq<string> {
    [BLOCK_NOTE] + SectionLines(Section("tine", own))
    + IgnoreSectionLines(ignores)
    + SectionLines(Section("buck2_re_client", client))
  }

  /** The sections a block stands for. */
  function BlockSections(own: seq<Entry>, ignores: seq<string>, client: seq<Entry>): Config {
    [Section("tine", own), Section("project", IgnoreEntries(ignores)),
     Section("buck2_re_client", client)]
  }

  lemma BlockNamesAreWords()
    ensures Word("tine") && Word("project") && Word("ignore") && Word("buck2_re_client")
    ensures "tine" != "project" && "tine" != "buck2_re_client" && "project" != "buck2_re_client"
  {
    assert |"tine"| == 4 && |"project"| == 7 && |"buck2_re_client"| == 15;
  }

  lemma NoteIsNoEntry()
    ensures !Continues(Strip(BLOCK_NOTE)) && !IsEntry(Strip(BLOCK_NOTE))
  {
    hide Strip;
    assert Stripped(BLOCK_NOTE);
    StrippedIsStrip(BLOCK_NOTE);
  }

  lemma ThreeSections(a: Section, b: Section, c: Section)
    ensures ConfigTexts([a, b, c]) == SectionTexts(a) + (SectionTexts(b) + SectionTexts(c))
    ensures forall section :: section in [a, b, c] <==> section == a || section == b || section == c
  {
    hide SectionTexts;
    assert [a, b, c][1..] == [b, c] && [b, c][1..] == [c] && [c][1..] == [];
    assert ConfigTexts([c]) == SectionTexts(c) + [] == SectionTexts(c);
    assert ConfigTexts([b, c]) == SectionTexts(b) + SectionTexts(c);
  }

  function IgnoreSectionLines(ignores: seq<string>): seq<string> {
    if ignores == [] then [] else ["", MarkerLine("project")] + IgnoreLines("ignore", ignores)
  }

  function IgnoreEntries(ignores: seq<string>): seq<Entry> {
    if ignores == [] then [] else [Entry("ignore", Listed(ignores))]
  }

  lemma IgnoreSection(ignores: seq<string>, after: seq<string>)
    requires AllListable(ignores)
    ensures Logical(IgnoreSectionLines(ignores) + after) == SectionTexts(Section("project", IgnoreEntries(ignores))) + Logical(after)
  {
    hide Logical, IgnoreLines, MarkerLine, Listed, EntryText, Listable;
    if ignores == [] {
      assert [] + after == after && [] + Logical(after) == Logical(after);
    } else {
      BlockNamesAreWords();
      hide Word;
      IgnoresReadBack("ignore", ignores, after);
      var lines, entry := IgnoreLines("ignore", ignores), Entry("ignore", Listed(ignores));
      MarkerInFront("project", lines + after);
      assert ["", MarkerLine("project")] + lines + after == ["", MarkerLine("project")] + (lines + after);
      OneEntrySection("project", entry);
      assert [MarkerLine("project")] + ([EntryText(entry)] + Logical(after)) == [MarkerLine("project"), EntryText(entry)] + Logical(after);
    }
  }

  lemma MarkerInFront(name: string, rest: seq<string>)
    requires Word(name)
    ensures Logical(["", MarkerLine(name)] + rest) == [MarkerLine(name)] + Logical(rest)
  {
    hide Strip, Word, Logical, MarkerLine, IsEntry, Continues;
    var marker := MarkerLine(name);
    BlankIsNoEntry();
    MarkerParses(name, [], "", Alone());
    OneLine(marker, rest);
    OneLine("", [marker] + rest);
    assert ["", marker] + rest == [""] + ([marker] + rest);
    assert [] + ([marker] + Logical(rest)) == [marker] + Logical(rest);
  }

  lemma OneEntrySection(name: string, entry: Entry)
    requires name != ""
    ensures SectionTexts(Section(name, [entry])) == [MarkerLine(name), EntryText(entry)]
  {
    hide MarkerLine, EntryText;
    assert [entry][1..] == [] && EntryTexts([entry]) == [EntryText(entry)] + [];
  }

  lemma IgnoresAreWritable(ignores: seq<string>)
    requires AllListable(ignores)
    ensures WritableEntries(IgnoreEntries(ignores))
    ensures ignores != [] ==> ReadList(Listed(ignores)) == ignores
  {
    hide Word, RoundTrips, Listable, Listed, ReadList;
    if ignores != [] {
      BlockNamesAreWords();
      IgnoresReadBack("ignore", ignores, []);
    }
  }

  lemma BlockIsEntries(own: seq<Entry>, ignores: seq<string>, client: seq<Entry>, rest: seq<string>)
    requires AllWritten(own) && AllListable(ignores) && AllWritten(client)
    ensures Logical(BlockLines(own, ignores, client) + rest) == ConfigTexts(BlockSections(own, ignores, client)) + Logical(rest)
  {
    hide Strip, Word, Listable, EntryText, RoundTrips, Logical, IgnoreLines, MarkerLine, SectionLines, SectionTexts, AllWritten, BLOCK_NOTE,
         Listed, IgnoreSectionLines, IgnoreEntries, ConfigTexts;
    BlockNamesAreWords();
    var tine, last := SectionLines(Section("tine", own)), SectionLines(Section("buck2_re_client", client));
    var middle := IgnoreSectionLines(ignores);
    var sections := BlockSections(own, ignores, client);
    NoteIsNoEntry();
    OneLine(BLOCK_NOTE, tine + (middle + (last + rest)));
    SectionLinesAreEntries(Section("tine", own), middle + (last + rest));
    IgnoreSection(ignores, last + rest);
    SectionLinesAreEntries(Section("buck2_re_client", client), rest);
    assert BlockLines(own, ignores, client) + rest == [BLOCK_NOTE] + (tine + (middle + (last + rest)));
    ThreeSections(sections[0], sections[1], sections[2]);
    var a, b, c := SectionTexts(sections[0]), SectionTexts(sections[1]), SectionTexts(sections[2]);
    assert a + (b + (c + Logical(rest))) == a + (b + c) + Logical(rest);
    assert [] + (a + (b + c) + Logical(rest)) == a + (b + c) + Logical(rest);
  }

  lemma WritableIsWritten(entries: seq<Entry>)
    requires WritableEntries(entries)
    ensures AllWritten(entries)
  {
  }

  /** What the generated block says is what it was made from: each section it has, and the ignores as the
      list they were. */
  lemma BlockReadsBack(own: seq<Entry>, ignores: seq<string>, client: seq<Entry>, follow: Follow)
    requires WritableEntries(own) && AllListable(ignores) && WritableEntries(client)
    ensures Parse(Logical(BlockLines(own, ignores, client)), [], "", follow).0 == NonEmpty(BlockSections(own, ignores, client))
    ensures ignores != [] ==> ReadList(Listed(ignores)) == ignores
  {
    hide Strip, Word, Listable, RoundTrips, Logical, BlockLines, ConfigTexts, Parse, NonEmpty, Listed, DistinctKeys, ReadList, IgnoreEntries,
         WritableEntries;
    WritableIsWritten(own);
    WritableIsWritten(client);
    BlockIsEntries(own, ignores, client, []);
    NothingLogical();
    assert BlockLines(own, ignores, client) + [] == BlockLines(own, ignores, client);
    assert ConfigTexts(BlockSections(own, ignores, client)) + [] == ConfigTexts(BlockSections(own, ignores, client));
    BlockNamesAreWords();
    IgnoresAreWritable(ignores);
    var sections := BlockSections(own, ignores, client);
    ThreeSections(sections[0], sections[1], sections[2]);
    assert NamesNew([], sections) && SectionsWritable(sections) && UnnamedFirst(sections);
    ConfigParses([], "", sections, follow);
    assert [] + NonEmpty(sections) == NonEmpty(sections);
  }
}
