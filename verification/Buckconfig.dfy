/** Reading buckconfig entries, and writing them so that they read back. */
module Buckconfig {
  import opened GeneratedBlock
  import opened Options
  import opened Texts

  datatype Entry = Entry(key: string, value: string)

  /** Sections and their entries keep the order they were first set in. */
  datatype Section = Section(name: string, entries: seq<Entry>)

  type Config = seq<Section>

  /** What a file that is included makes of the configuration so far, and the section it ends in. */
  type Follow = (string, Config, string) -> (Config, string)

  // Lines as entries.

  predicate Continues(line: string) {
    line != "" && line[|line| - 1] == '\\'
  }

  function Chop(line: string): string {
    if line == "" then "" else line[..|line| - 1]
  }

  predicate IsEntry(line: string) {
    line != "" && line[0] != '#' && line[0] != ';'
  }

  /** Continuations joined, comments and blanks dropped. What continues a comment belongs to it. */
  function LogicalFrom(lines: seq<string>, logical: seq<string>, kept: bool, continued: bool): seq<string> {
    if lines == [] then logical
    else
      var line := Strip(lines[0]);
      if continued then
        var joined := if kept && logical != [] then logical[..|logical| - 1] + [Chop(logical[|logical| - 1]) + line] else logical;
        LogicalFrom(lines[1..], joined, kept, Continues(line))
      else
        LogicalFrom(lines[1..], if IsEntry(line) then logical + [line] else logical, IsEntry(line), Continues(line))
  }

  function Logical(lines: seq<string>): seq<string> {
    LogicalFrom(lines, [], false, false)
  }

  method LogicalLines(lines: seq<string>) returns (logical: seq<string>)
    ensures logical == Logical(lines)
  {
    hide Strip;
    logical := [];
    var kept, continued := false, false;
    assert lines[0..] == lines;
    for i := 0 to |lines|
      invariant LogicalFrom(lines[i..], logical, kept, continued) == Logical(lines)
    {
      assert lines[i..][0] == lines[i] && lines[i..][1..] == lines[i + 1..];
      var line := Strip(lines[i]);
      if continued {
        continued := Continues(line);
        if kept && logical != [] {
          logical := logical[..|logical| - 1] + [Chop(logical[|logical| - 1]) + line];
        }
        continue;
      }
      kept := IsEntry(line);
      if kept {
        logical := logical + [line];
      }
      continued := Continues(line);
    }
  }

  // Parsing.

  /** What comes before a character, and after it. */
  function IndexOf(text: string, c: char): (i: nat)
    ensures i <= |text| && (i < |text| ==> text[i] == c) && forall j :: 0 <= j < i ==> text[j] != c
  {
    if text == "" || text[0] == c then 0 else 1 + IndexOf(text[1..], c)
  }

  function BeforeComment(text: string): string {
    if text == "" || " #" <= text then "" else [text[0]] + BeforeComment(text[1..])
  }

  /** The section a line opens. A comment may follow the marker. */
  function SectionMarker(line: string): Option<string> {
    var marker := StripRight(BeforeComment(Strip(line)));
    if marker != "" && marker[0] == '[' && marker[|marker| - 1] == ']' then Some(marker[1..|marker| - 1]) else None
  }

  /** Where a text first is, or the end. */
  function FirstAt(texts: seq<string>, text: string): (i: nat)
    ensures i <= |texts| && (i < |texts| ==> texts[i] == text) && forall j :: 0 <= j < i ==> texts[j] != text
  {
    if texts == [] || texts[0] == text then 0 else 1 + FirstAt(texts[1..], text)
  }

  function SectionNames(config: Config): (names: seq<string>)
    ensures |names| == |config| && forall i :: 0 <= i < |config| ==> names[i] == config[i].name
  {
    seq(|config|, i requires 0 <= i < |config| => config[i].name)
  }

  function Find(config: Config, name: string): (i: nat)
    ensures i <= |config| && (i < |config| ==> config[i].name == name) && forall j :: 0 <= j < i ==> config[j].name != name
  {
    FirstAt(SectionNames(config), name)
  }

  function WithSection(config: Config, name: string): Config {
    if Find(config, name) < |config| then config else config + [Section(name, [])]
  }

  function KeysOf(entries: seq<Entry>): seq<string> {
    seq(|entries|, i requires 0 <= i < |entries| => entries[i].key)
  }

  function SetKey(entries: seq<Entry>, key: string, value: string): seq<Entry> {
    var i := FirstAt(KeysOf(entries), key);
    if i < |entries| then entries[i := Entry(key, value)] else entries + [Entry(key, value)]
  }

  function Put(config: Config, name: string, key: string, value: string): Config {
    var sections := WithSection(config, name);
    var i := Find(sections, name);
    if i < |sections| then sections[i := Section(name, SetKey(sections[i].entries, key, value))] else sections
  }

  function ParseLine(line: string, config: Config, section: string, follow: Follow): (Config, string) {
    if line != "" && line[0] == '[' then
      match SectionMarker(line)
      case None => (config, section)
      case Some(marker) => (WithSection(config, marker), marker)
    else if line != "" && line[0] == '<' && IndexOf(line, '>') < |line| then
      var named := line[1..IndexOf(line, '>')];
      var path := if named != "" && named[0] == '?' then named[1..] else named;
      if "file:" <= path then follow(path[5..], config, section) else (config, section)
    else if IndexOf(line, '=') < |line| then
      var at := IndexOf(line, '=');
      var key := Strip(line[..at]);
      (if key != "" then Put(config, section, key, Strip(line[at + 1..])) else config, section)
    else (config, section)
  }

  function Parse(lines: seq<string>, config: Config, section: string, follow: Follow): (Config, string) {
    if lines == [] then (config, section)
    else
      var (next, current) := ParseLine(lines[0], config, section, follow);
      Parse(lines[1..], next, current, follow)
  }

  method ParseLines(lines: seq<string>, before: Config, start: string, follow: Follow) returns (config: Config, section: string)
    ensures (config, section) == Parse(lines, before, start, follow)
  {
    hide ParseLine;
    config, section := before, start;
    assert lines[0..] == lines;
    for i := 0 to |lines|
      invariant Parse(lines[i..], config, section, follow) == Parse(lines, before, start, follow)
    {
      assert lines[i..][0] == lines[i] && lines[i..][1..] == lines[i + 1..];
      var (next, current) := ParseLine(lines[i], config, section, follow);
      config, section := next, current;
    }
  }

  // What lines mean, one by one.

  predicate Ends(line: string, c: char) {
    line != "" && line[|line| - 1] == c
  }

  lemma NextLine(line: string, rest: seq<string>, logical: seq<string>, kept: bool, continued: bool)
    requires Stripped(line)
    ensures LogicalFrom([line] + rest, logical, kept, continued) ==
            if continued then
              LogicalFrom(rest, if kept && logical != [] then logical[..|logical| - 1] + [Chop(logical[|logical| - 1]) + line] else logical,
                          kept, Continues(line))
            else LogicalFrom(rest, if IsEntry(line) then logical + [line] else logical, IsEntry(line), Continues(line))
  {
    hide Strip;
    StrippedIsStrip(line);
    assert ([line] + rest)[1..] == rest;
  }

  /** A line that begins with a hash or a semicolon says nothing, and if it ends in a backslash neither does
      the next; a blank line says nothing either. */
  lemma CommentsSayNothing(line: string, next: string, rest: seq<string>)
    requires Stripped(line) && (line == "" || line[0] == '#' || line[0] == ';')
    ensures !Ends(line, '\\') ==> Logical([line] + rest) == Logical(rest)
    ensures Ends(line, '\\') && Stripped(next) && !Ends(next, '\\') ==> Logical([line] + ([next] + rest)) == Logical(rest)
  {
    NothingKept(rest, false);
    NextLine(line, rest, [], false, false);
    NextLine(line, [next] + rest, [], false, false);
    if Stripped(next) {
      NextLine(next, rest, [], false, true);
    }
    hide LogicalFrom, Stripped;
  }

  /** Any other line is an entry as it is, with what continues it where its backslash was. */
  lemma EntriesAreKept(line: string, next: string, rest: seq<string>)
    requires Stripped(line) && line != "" && line[0] != '#' && line[0] != ';'
    ensures !Ends(line, '\\') ==> Logical([line] + rest) == [line] + Logical(rest)
    ensures Ends(line, '\\') && Stripped(next) && !Ends(next, '\\') ==>
              Logical([line] + ([next] + rest)) == [line[..|line| - 1] + next] + Logical(rest)
  {
    var joined := line[..|line| - 1] + next;
    assert [] + [line] == [line] && [line][..0] + [joined] == [joined];
    LogicalGoesOn(rest, [line], true);
    LogicalGoesOn(rest, [joined], true);
    NextLine(line, rest, [], false, false);
    NextLine(line, [next] + rest, [], false, false);
    if Stripped(next) {
      NextLine(next, rest, [line], true, true);
    }
    hide LogicalFrom, Stripped;
  }

  lemma NothingKept(lines: seq<string>, kept: bool)
    ensures LogicalFrom(lines, [], kept, false) == Logical(lines)
  {
    LogicalGoesOn(lines, [], kept);
    assert [] + Logical(lines) == Logical(lines);
  }

  /** What was read before stays as it is once a line does not continue it. */
  lemma LogicalGoesOn(lines: seq<string>, before: seq<string>, kept: bool)
    ensures LogicalFrom(lines, before, kept, false) == before + Logical(lines)
  {
    hide Strip, LogicalFrom;
    LogicalAppends(lines, before, [], kept, false, false);
    assert before + [] == before;
  }

  lemma {:induction false} LogicalAppends(lines: seq<string>, before: seq<string>, logical: seq<string>, kept: bool, was: bool, continued: bool)
    requires continued ==> kept == was && (kept ==> logical != [])
    ensures LogicalFrom(lines, before + logical, kept, continued) == before + LogicalFrom(lines, logical, was, continued)
    decreases |lines|
  {
    hide Strip;
    if lines != [] {
      var line := Strip(lines[0]);
      if continued {
        if kept {
          var n := |logical| - 1;
          var joined := logical[..n] + [Chop(logical[n]) + line];
          assert (before + logical)[..|before + logical| - 1] == before + logical[..n];
          assert before + logical[..n] + [Chop(logical[n]) + line] == before + joined;
          LogicalAppends(lines[1..], before, joined, kept, was, Continues(line));
        } else {
          LogicalAppends(lines[1..], before, logical, kept, was, Continues(line));
        }
      } else if IsEntry(line) {
        assert before + logical + [line] == before + (logical + [line]);
        LogicalAppends(lines[1..], before, logical + [line], true, true, Continues(line));
      } else {
        LogicalAppends(lines[1..], before, logical, false, false, Continues(line));
      }
    }
  }

  /** An include goes on with the file it names, whether that has to exist or not, from the section at hand;
      and leaves whatever section that file ends in. */
  lemma IncludesAreFollowed(path: string, after: string, config: Config, section: string, follow: Follow)
    requires '>' !in path
    ensures ParseLine("<file:" + path + ">" + after, config, section, follow) == follow(path, config, section)
    ensures ParseLine("<?file:" + path + ">" + after, config, section, follow) == follow(path, config, section)
  {
    hide ParseLine;
    NamedInclude("file:" + path, path, after, config, section, follow);
    NamedInclude("?" + ("file:" + path), path, after, config, section, follow);
    assert "<" + ("file:" + path) + ">" + after == "<file:" + path + ">" + after;
    assert "<" + ("?" + ("file:" + path)) + ">" + after == "<?file:" + path + ">" + after;
  }

  lemma NamedInclude(named: string, path: string, after: string, config: Config, section: string, follow: Follow)
    requires '>' !in path && (named == "file:" + path || named == "?" + ("file:" + path))
    ensures ParseLine("<" + named + ">" + after, config, section, follow) == follow(path, config, section)
  {
    hide Put, SectionMarker, Strip, WithSection;
    OneInclude(named, after);
    assert named != "file:" + path ==> named[1..] == "file:" + path;
    assert ("file:" + path)[5..] == path;
  }

  lemma OneInclude(named: string, after: string)
    requires '>' !in named
    ensures var line := "<" + named + ">" + after;
            line[0] == '<' && IndexOf(line, '>') == |named| + 1 < |line| && line[1..IndexOf(line, '>')] == named
  {
    var line := "<" + named + ">" + after;
    assert line[|named| + 1] == '>';
    forall j | 0 <= j < |named| + 1
      ensures line[j] != '>'
    {
      if j > 0 {
        assert line[j] == named[j - 1];
      }
    }
  }

  /** What is included in any other way, and a line with no equals sign, says nothing. */
  lemma OtherLinesSayNothing(line: string, config: Config, section: string, follow: Follow)
    requires line != "" && line[0] != '['
    requires if line[0] == '<' && '>' in line then !("<file:" <= line) && !("<?file:" <= line) else '=' !in line
    ensures ParseLine(line, config, section, follow) == (config, section)
  {
    if line[0] == '<' && '>' in line {
      PrefixInside(line, IndexOf(line, '>'));
    }
  }

  lemma PrefixInside(line: string, at: nat)
    requires 0 < at <= |line| && line[0] == '<'
    ensures "file:" <= line[1..at] ==> "<file:" <= line
    ensures at > 1 && line[1] == '?' && "file:" <= line[1..at][1..] ==> "<?file:" <= line
  {
    if "file:" <= line[1..at] {
      assert line[..6] == "<" + line[1..at][..5] == "<file:";
    }
    if at > 1 && line[1] == '?' && "file:" <= line[1..at][1..] {
      assert line[..7] == "<?" + line[1..at][1..][..5] == "<?file:";
    }
  }

  /** Refreshing the generated block never changes what the project's own lines parse to. */
  lemma MergingKeepsOwnEntries(kept: seq<string>, block: seq<string>, inner: seq<string>)
    requires IsBlock(block, inner) && NoMarkers(kept)
    ensures SplitBlock(Merged(kept, block), false).Some?
    ensures Logical(SplitBlock(Merged(kept, block), false).value.kept) == Logical(kept)
  {
    hide Strip, LogicalFrom;
    MergedSplits(kept, block, inner);
    BlanksInFrontAreDropped(kept);
    var rest := DropBlanks(kept);
    if rest != [] {
      MarkersAreStripped();
      OneBlankInFront("", rest);
    }
  }

  lemma OneBlankInFront(blank: string, lines: seq<string>)
    requires Strip(blank) == ""
    ensures Logical([blank] + lines) == Logical(lines)
  {
    hide Strip;
    assert ([blank] + lines)[1..] == lines;
  }

  lemma {:induction false} BlanksInFrontAreDropped(lines: seq<string>)
    ensures Logical(DropBlanks(lines)) == Logical(lines)
  {
    hide Strip;
    if lines != [] && Strip(lines[0]) == "" {
      BlanksInFrontAreDropped(lines[1..]);
      assert [lines[0]] + lines[1..] == lines;
      OneBlankInFront(lines[0], lines[1..]);
    }
  }
}
