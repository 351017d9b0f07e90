/** Rendering a configuration as buckconfig, and what it reads back as. */
module Rendering {
  import opened Buckconfig
  import opened GeneratedBlock
  import opened Options
  import opened Texts

  // What can be written.

  /** A value reads back as itself: nothing is stripped off it, it stays on its line, and the next line
      stays out of it. */
  predicate RoundTrips(value: string) {
    value == Strip(value) && !Continues(value) && '\n' !in value
  }

  /** Letters, digits, and `_`, `.`, `-`. */
  predicate WordChar(c: char) {
    'a' <= c <= 'z' || 'A' <= c <= 'Z' || '0' <= c <= '9' || c == '_' || c == '.' || c == '-' || (c as int >= 0x80 && !IsSpace(c))
  }

  predicate Word(text: string) {
    text != "" && forall c :: c in text ==> WordChar(c)
  }

  predicate DistinctKeys(entries: seq<Entry>) {
    forall i, j :: 0 <= i < j < |entries| ==> entries[i].key != entries[j].key
  }

  predicate DistinctNames(config: Config) {
    forall i, j :: 0 <= i < j < |config| ==> config[i].name != config[j].name
  }

  predicate WritableEntries(entries: seq<Entry>) {
    DistinctKeys(entries) && forall entry :: entry in entries ==> Word(entry.key) && RoundTrips(entry.value)
  }

  /** Names and values the validators accept. Entries outside any section have to come first. */
  predicate Writable(config: Config) {
    && DistinctNames(config)
    && (forall i :: 0 <= i < |config| ==> WritableEntries(config[i].entries) && (config[i].name == "" || Word(config[i].name)))
    && (forall i, j :: 0 <= i < j < |config| && config[i].entries != [] && config[j].entries != [] ==> config[j].name != "")
  }

  function NonEmpty(config: Config): Config {
    if config == [] then [] else (if config[0].entries != [] then [config[0]] else []) + NonEmpty(config[1..])
  }

  function EntryLine(entry: Entry): string {
    entry.key + " = " + entry.value
  }

  function EntryLines(entries: seq<Entry>): seq<string> {
    if entries == [] then [] else [EntryLine(entries[0])] + EntryLines(entries[1..])
  }

  function MarkerLine(name: string): string {
    "[" + name + "]"
  }

  function SectionLines(section: Section): seq<string> {
    if section.entries == [] then []
    else [""] + (if section.name == "" then [] else [MarkerLine(section.name)]) + EntryLines(section.entries)
  }

  function Body(config: Config): seq<string> {
    if config == [] then [] else SectionLines(config[0]) + Body(config[1..])
  }

  method Render(config: Config) returns (text: string)
    ensures text == WriteLines([CONFIG_HEADER] + Body(config))
  {
    hide SectionLines, CONFIG_HEADER;
    var lines := [CONFIG_HEADER];
    assert config[0..] == config;
    for i := 0 to |config|
      invariant lines != [] && lines + Body(config[i..]) == [CONFIG_HEADER] + Body(config)
    {
      assert config[i..][1..] == config[i + 1..];
      assert lines + (SectionLines(config[i]) + Body(config[i + 1..])) == lines + SectionLines(config[i]) + Body(config[i + 1..]);
      lines := lines + SectionLines(config[i]);
    }
    assert config[|config|..] == [] && lines + [] == lines;
    text := WriteLines(lines);
  }

  // One line at a time.

  lemma WordCharsAreOrdinary(c: char)
    requires WordChar(c)
    ensures !IsSpace(c) && c !in {'[', ']', '<', '>', '=', '#', ';', '\\', '\n', ' '}
  {
  }

  lemma WordIsOrdinary(text: string)
    requires Word(text)
    ensures Stripped(text) && !Continues(text)
    ensures forall i :: 0 <= i < |text| ==> !IsSpace(text[i]) && text[i] !in {'[', ']', '<', '>', '=', '#', ';', '\\', '\n', ' '}
  {
    hide IsSpace, WordChar;
    forall i | 0 <= i < |text|
      ensures !IsSpace(text[i]) && text[i] !in {'[', ']', '<', '>', '=', '#', ';', '\\', '\n', ' '}
    {
      assert text[i] in text;
      WordCharsAreOrdinary(text[i]);
    }
  }

  /** An entry's line without the space that trails an empty value. */
  function EntryText(entry: Entry): string {
    if entry.value == "" then entry.key + " =" else EntryLine(entry)
  }

  lemma EntryLineStrips(entry: Entry)
    requires Word(entry.key) && RoundTrips(entry.value)
    ensures Strip(EntryLine(entry)) == EntryText(entry)
    ensures IsEntry(EntryText(entry)) && !Continues(EntryText(entry)) && '\n' !in EntryLine(entry)
    ensures EntryText(entry)[0] == entry.key[0]
  {
    hide Word, Strip;
    WordIsOrdinary(entry.key);
    StrippedIsStrip(entry.value);
    StrippedIsStrip(EntryText(entry));
    assert entry.key != "" by { WordIsNotEmpty(entry.key); }
    assert !IsSpace('=');
    var line := EntryLine(entry);
    if entry.value == "" {
      assert line == EntryText(entry) + " ";
      SpaceIsStripped(EntryText(entry));
    } else {
      assert line[|line| - 1] == entry.value[|entry.value| - 1];
    }
  }

  lemma WordIsNotEmpty(text: string)
    requires Word(text)
    ensures text != ""
  {
  }

  lemma SpaceIsStripped(text: string)
    requires text != "" && Stripped(text)
    ensures Strip(text + " ") == text
  {
    assert (text + " ")[..|text|] == text;
    assert StripRight(text + " ") == StripRight(text) == text;
  }

  lemma EntryParses(entry: Entry, config: Config, section: string, follow: Follow)
    requires Word(entry.key) && RoundTrips(entry.value)
    ensures ParseLine(EntryText(entry), config, section, follow) == (Put(config, section, entry.key, entry.value), section)
  {
    hide Word, Strip, Put, IsSpace;
    WordIsOrdinary(entry.key);
    WordIsNotEmpty(entry.key);
    StrippedIsStrip(entry.key);
    StrippedIsStrip(entry.value);
    var line, at := EntryText(entry), |entry.key| + 1;
    assert line[at] == '=' && line[|entry.key|] == ' ';
    assert forall i :: 0 <= i < |entry.key| ==> line[i] == entry.key[i];
    assert IndexOf(line, '=') == at;
    assert line[..at] == entry.key + " ";
    SpaceIsStripped(entry.key);
    if entry.value == "" {
      assert line[at + 1..] == "";
    } else {
      AfterEquals(entry.key, entry.value);
      SpaceInFrontIsStripped(entry.value);
    }
  }

  lemma AfterEquals(key: string, value: string)
    ensures (key + " = " + value)[|key| + 2..] == " " + value
  {
    var line := key + " = " + value;
    assert line[|key| + 2] == ' ';
    assert line[|key| + 3..] == value;
    assert line[|key| + 2..] == [line[|key| + 2]] + line[|key| + 3..];
  }

  lemma SpaceInFrontIsStripped(text: string)
    ensures Strip(" " + text) == Strip(text)
  {
    assert (" " + text)[1..] == text;
    assert StripLeft(" " + text) == StripLeft(text);
  }

  lemma {:induction false} NoCommentIn(text: string)
    requires forall i :: 0 <= i < |text| ==> text[i] != ' '
    ensures BeforeComment(text) == text
  {
    if text != "" {
      NoCommentIn(text[1..]);
      assert text == [text[0]] + text[1..];
    }
  }

  lemma MarkerHolds(name: string)
    requires Word(name)
    ensures var line := MarkerLine(name);
            && |line| == |name| + 2 && line[0] == '[' && line[|line| - 1] == ']' && line[1..|line| - 1] == name
            && forall i :: 0 <= i < |line| ==> !IsSpace(line[i]) && line[i] !in {'\n', ' '}
  {
    hide Word, IsSpace;
    WordIsOrdinary(name);
    var line := MarkerLine(name);
    assert forall i :: 0 < i < |line| - 1 ==> line[i] == name[i - 1];
    assert !IsSpace('[') && !IsSpace(']') by { WordIsNotEmpty(name); BracketsAreNoSpace(); }
  }

  lemma BracketsAreNoSpace()
    ensures !IsSpace('[') && !IsSpace(']')
  {
  }

  lemma MarkerParses(name: string, config: Config, section: string, follow: Follow)
    requires Word(name)
    ensures ParseLine(MarkerLine(name), config, section, follow) == (WithSection(config, name), name)
    ensures Strip(MarkerLine(name)) == MarkerLine(name) && IsEntry(MarkerLine(name)) && !Continues(MarkerLine(name))
    ensures '\n' !in MarkerLine(name)
  {
    hide Word, Strip, StripRight, WithSection, IsSpace, BeforeComment, MarkerLine;
    MarkerHolds(name);
    var line := MarkerLine(name);
    StrippedIsStrip(line);
    NoCommentIn(line);
    NothingOnTheRight(line);
    assert SectionMarker(line) == Some(name);
  }

  lemma NothingOnTheRight(text: string)
    requires Stripped(text)
    ensures StripRight(text) == text
  {
  }

  // All lines together.

  lemma {:induction false} EarlierEntriesStay(lines: seq<string>, before: seq<string>, logical: seq<string>, kept: bool, continued: bool)
    requires kept && continued ==> logical != []
    ensures LogicalFrom(lines, before + logical, kept, continued) == before + LogicalFrom(lines, logical, kept, continued)
  {
    hide Strip, IsEntry, Continues, Chop;
    if lines != [] {
      var line := Strip(lines[0]);
      var n := |logical| - 1;
      if continued {
        if kept {
          var joined := logical[..n] + [Chop(logical[n]) + line];
          assert (before + logical)[..|before + logical| - 1] == before + logical[..n];
          assert before + logical[..n] + [Chop(logical[n]) + line] == before + joined;
          EarlierEntriesStay(lines[1..], before, joined, kept, Continues(line));
        } else {
          EarlierEntriesStay(lines[1..], before, logical, kept, Continues(line));
        }
      } else if IsEntry(line) {
        assert before + logical + [line] == before + (logical + [line]);
        EarlierEntriesStay(lines[1..], before, logical + [line], true, Continues(line));
      } else {
        EarlierEntriesStay(lines[1..], before, logical, false, Continues(line));
      }
    }
  }

  /** A line that does not continue is an entry by itself, or none. */
  lemma OneLine(line: string, rest: seq<string>)
    requires !Continues(Strip(line))
    ensures Logical([line] + rest) == (if IsEntry(Strip(line)) then [Strip(line)] else []) + Logical(rest)
  {
    hide Strip, IsEntry, Continues;
    assert ([line] + rest)[1..] == rest;
    var one := if IsEntry(Strip(line)) then [Strip(line)] else [];
    EarlierEntriesStay(rest, one, [], IsEntry(Strip(line)), false);
    assert one + [] == one && [] + one == one;
    KeptOnlyMattersToContinue(rest, [], IsEntry(Strip(line)));
  }

  lemma KeptOnlyMattersToContinue(lines: seq<string>, logical: seq<string>, kept: bool)
    ensures LogicalFrom(lines, logical, kept, false) == LogicalFrom(lines, logical, false, false)
  {
  }

  function EntryTexts(entries: seq<Entry>): seq<string> {
    if entries == [] then [] else [EntryText(entries[0])] + EntryTexts(entries[1..])
  }

  function SectionTexts(section: Section): seq<string> {
    if section.entries == [] then []
    else (if section.name == "" then [] else [MarkerLine(section.name)]) + EntryTexts(section.entries)
  }

  function ConfigTexts(config: Config): seq<string> {
    if config == [] then [] else SectionTexts(config[0]) + ConfigTexts(config[1..])
  }

  predicate AllWritten(entries: seq<Entry>) {
    forall entry :: entry in entries ==> Word(entry.key) && RoundTrips(entry.value)
  }

  lemma {:induction false} EntryLinesAreEntries(entries: seq<Entry>, rest: seq<string>)
    requires AllWritten(entries)
    ensures Logical(EntryLines(entries) + rest) == EntryTexts(entries) + Logical(rest)
    ensures NoneHas(EntryLines(entries), '\n')
  {
    hide Strip, IsEntry, Continues, LogicalFrom, Word, RoundTrips, EntryLine, EntryText, Logical;
    if entries == [] {
      assert EntryLines(entries) + rest == rest && EntryTexts(entries) + Logical(rest) == Logical(rest);
    } else {
      var more := EntryLines(entries[1..]) + rest;
      assert entries[0] in entries && AllWritten(entries[1..]);
      EntryLinesAreEntries(entries[1..], rest);
      EntryLineStrips(entries[0]);
      OneLine(EntryLine(entries[0]), more);
      assert EntryLines(entries) + rest == [EntryLine(entries[0])] + more;
      assert EntryTexts(entries) + Logical(rest) == [EntryText(entries[0])] + (EntryTexts(entries[1..]) + Logical(rest));
    }
  }

  lemma SectionLinesAreEntries(section: Section, rest: seq<string>)
    requires AllWritten(section.entries) && (section.name == "" || Word(section.name))
    ensures Logical(SectionLines(section) + rest) == SectionTexts(section) + Logical(rest)
    ensures NoneHas(SectionLines(section), '\n')
  {
    hide Strip, IsEntry, Continues, LogicalFrom, Word, RoundTrips, EntryLine, EntryText, MarkerLine, EntryLines, EntryTexts, Logical;
    if section.entries == [] {
      assert SectionLines(section) + rest == rest && SectionTexts(section) + Logical(rest) == Logical(rest);
    } else {
      var entries := EntryLines(section.entries);
      EntryLinesAreEntries(section.entries, rest);
      BlankIsNoEntry();
      if section.name == "" {
        assert [] + entries == entries && [] + EntryTexts(section.entries) == EntryTexts(section.entries);
        OneLine("", entries + rest);
        assert SectionLines(section) + rest == [""] + (entries + rest);
      } else {
        MarkerParses(section.name, [], "", (path, config, current) => (config, current));
        OneLine(MarkerLine(section.name), entries + rest);
        OneLine("", [MarkerLine(section.name)] + (entries + rest));
        assert SectionLines(section) + rest == [""] + ([MarkerLine(section.name)] + (entries + rest));
        assert SectionTexts(section) + Logical(rest) ==
               [MarkerLine(section.name)] + (EntryTexts(section.entries) + Logical(rest));
      }
    }
  }

  lemma BlankIsNoEntry()
    ensures Strip("") == "" && !IsEntry("") && !Continues("")
  {
  }

  ghost predicate AllSectionsWritten(config: Config) {
    forall section :: section in config ==> AllWritten(section.entries) && (section.name == "" || Word(section.name))
  }

  lemma {:induction false} BodyIsEntries(config: Config, rest: seq<string>)
    requires AllSectionsWritten(config)
    ensures Logical(Body(config) + rest) == ConfigTexts(config) + Logical(rest)
    ensures NoneHas(Body(config), '\n')
  {
    hide LogicalFrom, SectionLines, SectionTexts, Word, RoundTrips, Logical;
    if config == [] {
      assert Body(config) + rest == rest && ConfigTexts(config) + Logical(rest) == Logical(rest);
    } else {
      assert config[0] in config && AllSectionsWritten(config[1..]);
      var more := Body(config[1..]) + rest;
      BodyIsEntries(config[1..], rest);
      SectionLinesAreEntries(config[0], more);
      assert Body(config) + rest == SectionLines(config[0]) + more;
      assert ConfigTexts(config) + Logical(rest) == SectionTexts(config[0]) + (ConfigTexts(config[1..]) + Logical(rest));
    }
  }

  // Parsing them back.

  predicate Lacks(config: Config, name: string) {
    forall i :: 0 <= i < |config| ==> config[i].name != name
  }

  lemma FindsLast(before: Config, section: Section)
    requires Lacks(before, section.name)
    ensures Find(before + [section], section.name) == |before| && Find(before, section.name) == |before|
  {
    hide Find;
    assert (before + [section])[|before|] == section;
  }

  lemma PutsInLast(before: Config, name: string, done: seq<Entry>, entry: Entry)
    requires Lacks(before, name) && forall i :: 0 <= i < |done| ==> done[i].key != entry.key
    ensures Put(before + [Section(name, done)], name, entry.key, entry.value) == before + [Section(name, done + [entry])]
    ensures done == [] ==> Put(before, name, entry.key, entry.value) == before + [Section(name, [entry])]
  {
    hide Find, FirstAt;
    FindsLast(before, Section(name, done));
    FindsLast(before, Section(name, []));
    assert FirstAt(KeysOf(done), entry.key) == |done|;
    assert SetKey(done, entry.key, entry.value) == done + [entry];
    assert (before + [Section(name, done)])[|before| := Section(name, done + [entry])] == before + [Section(name, done + [entry])];
    if done == [] {
      assert done + [entry] == [entry];
    }
  }

  lemma {:induction false} EntriesParse(before: Config, name: string, done: seq<Entry>, entries: seq<Entry>, rest: seq<string>, follow: Follow)
    requires Lacks(before, name) && AllWritten(entries) && DistinctKeys(done + entries)
    ensures Parse(EntryTexts(entries) + rest, before + [Section(name, done)], name, follow) ==
            Parse(rest, before + [Section(name, done + entries)], name, follow)
    decreases |entries|
  {
    hide Put, ParseLine, Word, RoundTrips, EntryText;
    if entries == [] {
      assert EntryTexts(entries) + rest == rest && done + entries == done;
    } else {
      var first, more := entries[0], entries[1..];
      assert first in entries && AllWritten(more);
      assert (done + entries)[|done|] == first;
      assert forall i :: 0 <= i < |done| ==> (done + entries)[i] == done[i];
      assert done + entries == done + [first] + more;
      PutsInLast(before, name, done, first);
      EntryParses(first, before + [Section(name, done)], name, follow);
      EntriesParse(before, name, done + [first], more, rest, follow);
      var lines := EntryTexts(entries) + rest;
      assert lines == [EntryText(first)] + (EntryTexts(more) + rest);
      assert lines[1..] == EntryTexts(more) + rest;
    }
  }

  /** A section that was rendered is parsed back, after whatever came before it. */
  lemma SectionParses(before: Config, current: string, section: Section, rest: seq<string>, follow: Follow)
    requires Lacks(before, section.name) && section.entries != [] && WritableEntries(section.entries)
    requires if section.name == "" then current == "" else Word(section.name)
    ensures Parse(SectionTexts(section) + rest, before, current, follow) == Parse(rest, before + [section], section.name, follow)
  {
    if section.name == "" {
      UnnamedSectionParses(before, section.entries, rest, follow);
      assert [] + EntryTexts(section.entries) == EntryTexts(section.entries);
    } else {
      NamedSectionParses(before, current, section, rest, follow);
    }
  }

  lemma UnnamedSectionParses(before: Config, entries: seq<Entry>, rest: seq<string>, follow: Follow)
    requires Lacks(before, "") && entries != [] && WritableEntries(entries)
    ensures Parse(EntryTexts(entries) + rest, before, "", follow) == Parse(rest, before + [Section("", entries)], "", follow)
  {
    hide Put, ParseLine, Word, RoundTrips, EntryText;
    var first, more := entries[0], entries[1..];
    assert first in entries && AllWritten(more) && [first] + more == entries;
    PutsInLast(before, "", [], first);
    EntryParses(first, before, "", follow);
    EntriesParse(before, "", [first], more, rest, follow);
    FirstLine(EntryText(first), EntryTexts(more) + rest, before, "", follow);
    assert EntryTexts(entries) + rest == [EntryText(first)] + (EntryTexts(more) + rest);
  }

  lemma NamedSectionParses(before: Config, current: string, section: Section, rest: seq<string>, follow: Follow)
    requires Lacks(before, section.name) && section.entries != [] && WritableEntries(section.entries) && Word(section.name)
    requires section.name != ""
    ensures Parse(SectionTexts(section) + rest, before, current, follow) == Parse(rest, before + [section], section.name, follow)
  {
    hide Put, ParseLine, Word, RoundTrips, EntryText, MarkerLine, EntryTexts, Find;
    var name, entries := section.name, section.entries;
    assert [] + entries == entries && Section(name, entries) == section;
    MarkerParses(name, before, current, follow);
    FindsLast(before, Section(name, []));
    EntriesParse(before, name, [], entries, rest, follow);
    FirstLine(MarkerLine(name), EntryTexts(entries) + rest, before, current, follow);
    assert SectionTexts(section) + rest == [MarkerLine(name)] + (EntryTexts(entries) + rest);
  }

  lemma FirstLine(line: string, rest: seq<string>, config: Config, section: string, follow: Follow)
    ensures Parse([line] + rest, config, section, follow) ==
            var next := ParseLine(line, config, section, follow);
            Parse(rest, next.0, next.1, follow)
  {
    hide ParseLine;
    assert ([line] + rest)[1..] == rest;
  }

  /** Entries outside any section come before all others. */
  predicate UnnamedFirst(config: Config) {
    forall i, j :: 0 <= i < j < |config| && config[i].entries != [] && config[j].entries != [] ==> config[j].name != ""
  }

  ghost predicate NamesNew(before: Config, config: Config) {
    DistinctNames(config) && forall section :: section in config ==> Lacks(before, section.name)
  }

  ghost predicate SectionsWritable(config: Config) {
    forall section :: section in config ==> WritableEntries(section.entries) && (section.name == "" || Word(section.name))
  }

  lemma NextNamesNew(before: Config, config: Config)
    requires NamesNew(before, config) && config != []
    ensures NamesNew(before + [config[0]], config[1..]) && NamesNew(before, config[1..]) && Lacks(before, config[0].name)
  {
    assert config[0] in config;
    forall section | section in config[1..]
      ensures section in config && Lacks(before + [config[0]], section.name)
    {
      var i :| 0 <= i < |config| - 1 && config[1..][i] == section;
      assert config[i + 1] == section && config[0].name != section.name;
    }
    assert forall i :: 0 <= i < |config| - 1 ==> config[1..][i] == config[i + 1];
  }

  lemma {:induction false} ConfigParses(before: Config, current: string, config: Config, follow: Follow)
    requires NamesNew(before, config) && SectionsWritable(config) && UnnamedFirst(config)
    requires current == "" || forall section :: section in config && section.entries != [] ==> section.name != ""
    ensures Parse(ConfigTexts(config), before, current, follow).0 == before + NonEmpty(config)
    decreases |config|
  {
    hide ParseLine, Word, WritableEntries, SectionTexts, Lacks;
    if config == [] {
      assert before + [] == before;
    } else {
      var first, more := config[0], config[1..];
      assert first in config && SectionsWritable(more) && UnnamedFirst(more);
      NextNamesNew(before, config);
      if first.entries == [] {
        NoTexts(first);
        assert [] + ConfigTexts(more) == ConfigTexts(more) && [] + NonEmpty(more) == NonEmpty(more);
        ConfigParses(before, current, more, follow);
      } else {
        forall section | section in more && section.entries != []
          ensures section.name != ""
        {
          var i :| 0 <= i < |more| && more[i] == section;
          assert config[i + 1] == section;
        }
        assert first.name != "" ==> Word(first.name);
        SectionParses(before, current, first, ConfigTexts(more), follow);
        ConfigParses(before + [first], first.name, more, follow);
        assert before + [first] + NonEmpty(more) == before + ([first] + NonEmpty(more));
      }
    }
  }

  lemma NoTexts(section: Section)
    requires section.entries == []
    ensures SectionTexts(section) == []
  {
  }

  /** The lines of a rendered file are the entries of its sections, and no generated block is among them. */
  lemma RenderedIsEntries(config: Config)
    requires SectionsWritable(config)
    ensures var lines := ReadLines(WriteLines([CONFIG_HEADER] + Body(config)));
            SplitBlock(lines, false) == Some(Parts(lines, [])) && Logical(lines) == ConfigTexts(config)
  {
    hide Strip, BLOCK_BEGIN, BLOCK_END, Word, WritableEntries, Body, ConfigTexts, Logical, CONFIG_HEADER;
    var lines := [CONFIG_HEADER] + Body(config);
    WritableSections(config);
    HeaderIsNoEntry();
    BodyIsEntries(config, []);
    assert Body(config) + [] == Body(config);
    NothingLogical();
    assert ConfigTexts(config) + [] == ConfigTexts(config);
    OneLine(CONFIG_HEADER, Body(config));
    assert [] + ConfigTexts(config) == ConfigTexts(config);
    LinesReadBack(lines);
    BodyHasNoMarkers(config);
    assert NoMarkers(lines);
    LinesWithoutMarkers(lines, [], false);
    NothingToSplit();
    assert lines + [] == lines;
  }

  /** What a rendered file parses to is the configuration, less its empty sections, whatever it was. */
  lemma RenderedReadsBack(config: Config, follow: Follow)
    requires Writable(config)
    ensures var lines := ReadLines(WriteLines([CONFIG_HEADER] + Body(config)));
            && SplitBlock(lines, false) == Some(Parts(lines, []))
            && Parse(Logical(lines), [], "", follow).0 == NonEmpty(config)
  {
    hide Strip, Word, WritableEntries, Body, Parse, Logical, SplitBlock, ReadLines, WriteLines, DistinctNames;
    assert SectionsWritable(config) && UnnamedFirst(config);
    RenderedReadsBackExactlyIf(config, follow);
  }

  // Entries outside any section that come after one.

  /** The first section that holds entries is a named one, if there is any. */
  predicate StartsNamed(config: Config) {
    config != [] ==> if config[0].entries == [] then StartsNamed(config[1..]) else config[0].name != ""
  }

  lemma PuttingKeepsLacking(config: Config, name: string, key: string, value: string, other: string)
    requires Lacks(config, other) && name != other
    ensures Lacks(Put(config, name, key, value), other) && Lacks(WithSection(config, name), other)
  {
    hide Find, SetKey;
  }

  lemma {:induction false} EntriesKeepLacking(entries: seq<Entry>, rest: seq<string>, before: Config, current: string, follow: Follow)
    returns (after: Config)
    requires AllWritten(entries) && Lacks(before, "") && current != ""
    ensures Parse(EntryTexts(entries) + rest, before, current, follow) == Parse(rest, after, current, follow) && Lacks(after, "")
    decreases |entries|
  {
    hide Put, ParseLine, Word, RoundTrips, EntryText, Lacks, Parse;
    if entries == [] {
      assert EntryTexts(entries) + rest == rest;
      after := before;
    } else {
      var first, more := entries[0], entries[1..];
      assert first in entries && AllWritten(more);
      EntryParses(first, before, current, follow);
      PuttingKeepsLacking(before, current, first.key, first.value, "");
      after := EntriesKeepLacking(more, rest, Put(before, current, first.key, first.value), current, follow);
      FirstLine(EntryText(first), EntryTexts(more) + rest, before, current, follow);
      assert EntryTexts(entries) + rest == [EntryText(first)] + (EntryTexts(more) + rest);
    }
  }

  /** Once a section was opened, nothing is outside all sections again. */
  lemma {:induction false} NeverUnnamedAgain(before: Config, current: string, config: Config, follow: Follow)
    requires SectionsWritable(config) && Lacks(before, "") && (current != "" || StartsNamed(config))
    ensures Lacks(Parse(ConfigTexts(config), before, current, follow).0, "")
    decreases |config|
  {
    hide ParseLine, Word, WritableEntries, SectionTexts, Lacks, Parse;
    if config == [] {
      NothingParses(before, current, follow);
    } else {
      var first, more := config[0], config[1..];
      assert first in config && SectionsWritable(more);
      if first.entries == [] {
        NoTexts(first);
        assert [] + ConfigTexts(more) == ConfigTexts(more);
        NeverUnnamedAgain(before, current, more, follow);
      } else {
        var after := SectionKeepsLacking(first, ConfigTexts(more), before, current, follow);
        NeverUnnamedAgain(after, if first.name == "" then current else first.name, more, follow);
      }
    }
  }

  lemma NothingParses(config: Config, section: string, follow: Follow)
    ensures Parse([], config, section, follow) == (config, section)
  {
  }

  lemma SectionKeepsLacking(section: Section, rest: seq<string>, before: Config, current: string, follow: Follow)
    returns (after: Config)
    requires section.entries != [] && WritableEntries(section.entries) && Lacks(before, "")
    requires if section.name == "" then current != "" else Word(section.name)
    ensures Lacks(after, "")
    ensures Parse(SectionTexts(section) + rest, before, current, follow) ==
            Parse(rest, after, if section.name == "" then current else section.name, follow)
  {
    hide Put, ParseLine, Word, RoundTrips, EntryText, MarkerLine, Lacks, Parse, WithSection;
    var name, texts := section.name, EntryTexts(section.entries);
    if name == "" {
      assert [] + texts == texts;
      after := EntriesKeepLacking(section.entries, rest, before, current, follow);
    } else {
      MarkerParses(name, before, current, follow);
      PuttingKeepsLacking(before, name, "", "", "");
      FirstLine(MarkerLine(name), texts + rest, before, current, follow);
      assert SectionTexts(section) + rest == [MarkerLine(name)] + (texts + rest);
      after := EntriesKeepLacking(section.entries, rest, WithSection(before, name), name, follow);
    }
  }

  lemma {:induction false} NonEmptyHolds(config: Config, i: nat)
    requires i < |config| && config[i].entries != []
    ensures !Lacks(NonEmpty(config), config[i].name)
  {
    var rest := NonEmpty(config[1..]);
    if i == 0 {
      assert NonEmpty(config)[0] == config[0];
    } else {
      NonEmptyHolds(config[1..], i - 1);
      var k :| 0 <= k < |rest| && rest[k].name == config[i].name;
      var front := if config[0].entries != [] then [config[0]] else [];
      assert (front + rest)[|front| + k] == rest[k];
    }
  }

  lemma {:induction false} NamedBefore(config: Config, i: nat, j: nat)
    requires DistinctNames(config) && i < j < |config| && config[i].entries != [] && config[j].name == ""
    ensures StartsNamed(config)
  {
    assert config[0].name != config[j].name;
    if i > 0 {
      assert forall k :: 0 <= k < |config| - 1 ==> config[1..][k] == config[k + 1];
      NamedBefore(config[1..], i - 1, j - 1);
    }
  }

  /** A rendered configuration reads back, less its empty sections, exactly if entries outside any section
      come before all others. */
  lemma RenderedReadsBackExactlyIf(config: Config, follow: Follow)
    requires DistinctNames(config) && SectionsWritable(config)
    ensures var lines := ReadLines(WriteLines([CONFIG_HEADER] + Body(config)));
            && SplitBlock(lines, false) == Some(Parts(lines, []))
            && (Parse(Logical(lines), [], "", follow).0 == NonEmpty(config) <==> UnnamedFirst(config))
  {
    hide Strip, BLOCK_BEGIN, BLOCK_END, Word, WritableEntries, Body, ConfigTexts, Parse, Logical, CONFIG_HEADER, DistinctNames,
         SplitBlock, ReadLines, WriteLines;
    RenderedIsEntries(config);
    if UnnamedFirst(config) {
      ConfigParses([], "", config, follow);
      assert [] + NonEmpty(config) == NonEmpty(config);
    } else {
      var i, j :| 0 <= i < j < |config| && config[i].entries != [] && config[j].entries != [] && config[j].name == "";
      NamedBefore(config, i, j);
      NeverUnnamedAgain([], "", config, follow);
      NonEmptyHolds(config, j);
    }
  }

  lemma NothingLogical()
    ensures Logical([]) == []
  {
  }

  lemma NothingToSplit()
    ensures SplitBlock([], false) == Some(Parts([], []))
  {
  }

  lemma WritableSections(config: Config)
    requires SectionsWritable(config)
    ensures AllSectionsWritten(config)
  {
    hide Word, RoundTrips, DistinctKeys;
  }

  lemma HeaderIsNoEntry()
    ensures !Continues(Strip(CONFIG_HEADER)) && !IsEntry(Strip(CONFIG_HEADER)) && '\n' !in CONFIG_HEADER && !IsMarker(CONFIG_HEADER)
  {
    hide Strip;
    assert Stripped(CONFIG_HEADER);
    StrippedIsStrip(CONFIG_HEADER);
    assert |CONFIG_HEADER| != |BLOCK_BEGIN| && |CONFIG_HEADER| != |BLOCK_END|;
  }

  /** A line that is blank, or begins with something other than a comment sign, is no marker. */
  lemma OnlyCommentsAreMarkers(line: string)
    requires Strip(line) == "" || Strip(line)[0] != '#'
    ensures !IsMarker(line)
  {
    hide Strip;
    assert BLOCK_BEGIN[0] == '#' && BLOCK_END[0] == '#';
  }

  lemma {:induction false} EntryLinesAreNoMarkers(entries: seq<Entry>)
    requires AllWritten(entries)
    ensures NoMarkers(EntryLines(entries))
  {
    hide Strip, Word, RoundTrips, EntryLine, EntryText, IsMarker;
    if entries != [] {
      var first := entries[0];
      assert first in entries && AllWritten(entries[1..]);
      EntryLinesAreNoMarkers(entries[1..]);
      EntryLineStrips(first);
      OnlyCommentsAreMarkers(EntryLine(first));
    }
  }

  lemma {:induction false} BodyHasNoMarkers(config: Config)
    requires AllSectionsWritten(config)
    ensures NoMarkers(Body(config))
  {
    hide Strip, Word, RoundTrips, MarkerLine, IsMarker, EntryLines, AllWritten;
    if config != [] {
      var section := config[0];
      assert section in config && AllSectionsWritten(config[1..]);
      BodyHasNoMarkers(config[1..]);
      EntryLinesAreNoMarkers(section.entries);
      BlankIsNoEntry();
      OnlyCommentsAreMarkers("");
      if section.name != "" {
        MarkerParses(section.name, [], "", (path, config, current) => (config, current));
        OnlyCommentsAreMarkers(MarkerLine(section.name));
      }
    }
  }
}
