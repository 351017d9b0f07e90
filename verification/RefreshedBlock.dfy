/** The generated block as it is rendered, written into a file that holds the project's own lines. */
module RefreshedBlock {
  import opened Buckconfig
  import opened GeneratedBlock
  import opened Options
  import opened Rendering
  import opened Texts
  import opened Values

  /** The rendered block, markers and all. */
  function RenderedBlock(own: seq<Entry>, ignores: seq<string>, client: seq<Entry>): seq<string> {
    [BLOCK_BEGIN] + BlockLines(own, ignores, client) + [BLOCK_END]
  }

  /** Of several ignores the last stands on a line of its own, where it may read as a marker. */
  predicate LastSpellsMarker(ignores: seq<string>) {
    |ignores| > 1 && IsMarker(ignores[|ignores| - 1])
  }

  // Which lines of a block are markers.

  lemma MarkersHold()
    ensures BLOCK_BEGIN[0] == '#' && BLOCK_END[0] == '#' && !Continues(BLOCK_BEGIN) && !Continues(BLOCK_END)
    ensures Strip(BLOCK_BEGIN) == BLOCK_BEGIN && Strip(BLOCK_END) == BLOCK_END
  {
    hide Strip;
    MarkersAreStripped();
  }

  lemma NoMarkerUnlessHash(line: string)
    requires Strip(line) == "" || Strip(line)[0] != '#' || Continues(Strip(line))
    ensures !IsMarker(line)
  {
    hide Strip, BLOCK_BEGIN, BLOCK_END;
    MarkersHold();
    assert BLOCK_BEGIN != "" && BLOCK_END != "" by { MarkersAreStripped(); }
  }

  lemma {:induction false} EntryLinesAreNoMarkers(entries: seq<Entry>)
    requires AllWritten(entries)
    ensures NoMarkers(EntryLines(entries))
  {
    hide Strip, IsMarker, EntryLine, EntryText, Word, RoundTrips;
    if entries != [] {
      assert entries[0] in entries && AllWritten(entries[1..]);
      EntryLineStrips(entries[0]);
      EntryLinesAreNoMarkers(entries[1..]);
      KeysBeginNoMarker(entries[0].key);
      NoMarkerUnlessHash(EntryLine(entries[0]));
    }
  }

  lemma KeysBeginNoMarker(key: string)
    requires Word(key)
    ensures key != "" && key[0] != '#'
  {
    WordIsOrdinary(key);
  }

  lemma SectionLinesAreNoMarkers(section: Section)
    requires AllWritten(section.entries) && (section.name == "" || Word(section.name))
    ensures NoMarkers(SectionLines(section))
  {
    hide Strip, IsMarker, Word, AllWritten;
    EntryLinesAreNoMarkers(section.entries);
    MarkersAreStripped();
    if section.name != "" {
      MarkerParses(section.name, [], "", Alone());
      NoMarkerUnlessHash(MarkerLine(section.name));
    }
  }

  /** All lines of a list that continue are no markers; the last is one exactly if its entry is. */
  lemma {:induction false} ListLinesAreNoMarkers(entries: seq<string>)
    requires entries != [] && AllListable(entries)
    ensures var lines, n := Indented(ListLines(entries)), |entries| - 1;
            |lines| == |entries| && NoMarkers(lines[..n]) && (IsMarker(lines[n]) <==> IsMarker(entries[n]))
  {
    hide Strip, BLOCK_BEGIN, BLOCK_END, Indented;
    assert entries[0] in entries;
    ListLineStrips(entries[0]);
    IndentedHolds(ListLines(entries));
    if |entries| > 1 {
      var lines, more := Indented(ListLines(entries)), entries[1..];
      assert forall one :: one in more ==> one in entries;
      ListLinesAreNoMarkers(more);
      NoMarkerUnlessHash(lines[0]);
      var rest := Indented(ListLines(more));
      assert lines == [lines[0]] + rest;
      assert lines[..|entries| - 1] == [lines[0]] + rest[..|more| - 1];
    } else {
      assert ListLines(entries)[1..] == [] && Indented(ListLines(entries))[..0] == [];
    }
  }

  lemma IndentedHolds(lines: seq<string>)
    requires lines != []
    ensures Indented(lines) == ["    " + lines[0]] + Indented(lines[1..]) && Indented([]) == []
  {
  }

  /** A rendered block holds a line that reads as a marker exactly if the last of several ignores does. */
  lemma BlockHasNoMarkersExactlyIf(own: seq<Entry>, ignores: seq<string>, client: seq<Entry>)
    requires AllWritten(own) && AllListable(ignores) && AllWritten(client)
    ensures NoMarkers(BlockLines(own, ignores, client)) <==> !LastSpellsMarker(ignores)
  {
    hide Strip, BLOCK_BEGIN, BLOCK_END, BLOCK_NOTE, BlockLines;
    var front, last, back := BlockParts(own, ignores, client);
    var lines := BlockLines(own, ignores, client);
    assert last != [] ==> lines[|front|] == last[0];
  }

  /** The block's lines around the one that holds the last of several ignores. */
  lemma BlockParts(own: seq<Entry>, ignores: seq<string>, client: seq<Entry>)
    returns (front: seq<string>, last: seq<string>, back: seq<string>)
    requires AllWritten(own) && AllListable(ignores) && AllWritten(client)
    ensures BlockLines(own, ignores, client) == front + last + back && NoMarkers(front) && NoMarkers(back)
    ensures if |ignores| > 1 then |last| == 1 && (IsMarker(last[0]) <==> IsMarker(ignores[|ignores| - 1])) else last == []
    ensures last != [] ==> Strip(last[0]) == ignores[|ignores| - 1]
  {
    hide Strip, BLOCK_BEGIN, BLOCK_END, BLOCK_NOTE, IsMarker, SectionLines, MarkerLine, Word, AllWritten, Listable;
    BlockNamesAreWords();
    NoteIsNoMarker();
    SectionLinesAreNoMarkers(Section("tine", own));
    SectionLinesAreNoMarkers(Section("buck2_re_client", client));
    var head := [BLOCK_NOTE] + SectionLines(Section("tine", own));
    var tail := SectionLines(Section("buck2_re_client", client));
    assert NoMarkers(head);
    var some, one := IgnoreParts(ignores);
    assert BlockLines(own, ignores, client) == head + (some + one) + tail;
    front, last, back := head + some, one, tail;
    assert head + (some + one) + tail == front + last + back;
  }

  lemma NoteIsNoMarker()
    ensures !IsMarker(BLOCK_NOTE)
  {
    hide Strip;
    assert |BLOCK_NOTE| != |BLOCK_BEGIN| && |BLOCK_NOTE| != |BLOCK_END|;
    assert Stripped(BLOCK_NOTE);
    StrippedIsStrip(BLOCK_NOTE);
  }

  lemma IgnoreParts(ignores: seq<string>) returns (front: seq<string>, last: seq<string>)
    requires AllListable(ignores)
    ensures IgnoreSectionLines(ignores) == front + last && NoMarkers(front)
    ensures if |ignores| > 1 then |last| == 1 && (IsMarker(last[0]) <==> IsMarker(ignores[|ignores| - 1])) else last == []
    ensures last != [] ==> Strip(last[0]) == ignores[|ignores| - 1]
  {
    hide Strip, IsMarker, MarkerLine, IgnoreLines, AllListable;
    if ignores == [] {
      return [], [];
    }
    HeadHasNoMarkers();
    var lines, n := IgnoreLines("ignore", ignores), |ignores| - 1;
    IgnoreLinesHold(ignores);
    var head := ["", MarkerLine("project")];
    if n == 0 {
      front, last := head + lines, [];
      assert front + last == head + lines;
    } else {
      front, last := head + lines[..n], [lines[n]];
      assert head + lines == head + lines[..n] + [lines[n]];
    }
  }

  lemma HeadHasNoMarkers()
    ensures NoMarkers(["", MarkerLine("project")])
  {
    hide Strip, IsMarker, MarkerLine, Word;
    BlockNamesAreWords();
    MarkerParses("project", [], "", Alone());
    NoMarkerUnlessHash(MarkerLine("project"));
    MarkersAreStripped();
  }

  lemma IgnoreLinesHold(ignores: seq<string>)
    requires ignores != [] && AllListable(ignores)
    ensures var lines, n := IgnoreLines("ignore", ignores), |ignores| - 1;
            && |lines| == |ignores|
            && if n == 0 then NoMarkers(lines)
               else NoMarkers(lines[..n]) && (IsMarker(lines[n]) <==> IsMarker(ignores[n])) && Strip(lines[n]) == ignores[n]
  {
    hide Strip, BLOCK_BEGIN, BLOCK_END, IsMarker, Indented, Listable;
    var lines, n := IgnoreLines("ignore", ignores), |ignores| - 1;
    FirstIgnoreLine(ignores);
    NoMarkerUnlessHash(lines[0]);
    if n > 0 {
      var more := ignores[1..];
      assert forall one :: one in more ==> one in ignores;
      ListLinesAreNoMarkers(more);
      LastListLine(more);
      IgnoreLinesOpen("ignore", ignores);
      var rest := Indented(ListLines(more));
      assert lines == [lines[0]] + rest;
      assert lines[..n] == [lines[0]] + rest[..n - 1] && lines[n] == rest[n - 1];
    } else {
      assert lines == ["ignore" + " = " + ignores[0]] + Indented([]) by { assert ListLines(ignores)[1..] == []; }
      assert Indented([]) == [] by { IndentedHolds([""]); }
    }
  }

  lemma FirstIgnoreLine(ignores: seq<string>)
    requires ignores != [] && AllListable(ignores)
    ensures var line := IgnoreLines("ignore", ignores)[0]; Strip(line) != "" && Strip(line)[0] == 'i'
  {
    hide Strip, Indented;
    var line := IgnoreLines("ignore", ignores)[0];
    assert ignores[0] in ignores;
    StrippedIsStrip(ignores[0]);
    assert line[0] == 'i';
    assert Stripped(line);
    StrippedIsStrip(line);
  }

  lemma {:induction false} LastListLine(entries: seq<string>)
    requires entries != [] && AllListable(entries)
    ensures var lines, n := Indented(ListLines(entries)), |entries| - 1; |lines| == |entries| && Strip(lines[n]) == entries[n]
  {
    hide Strip, Indented;
    assert entries[0] in entries;
    IndentedHolds(ListLines(entries));
    if |entries| == 1 {
      ListLineStrips(entries[0]);
    } else {
      assert forall one :: one in entries[1..] ==> one in entries;
      LastListLine(entries[1..]);
    }
  }

  // Writing the block into a file.

  /** A marker among a block's lines makes the file one that is refused. */
  lemma MarkerInsideIsRefused(front: seq<string>, marker: string, back: seq<string>, after: seq<string>)
    requires NoMarkers(front) && IsMarker(marker) && NoMarkers(back) && NoMarkers(after)
    ensures SplitBlock([BLOCK_BEGIN] + (front + ([marker] + (back + ([BLOCK_END] + after)))), false).None?
  {
    hide Strip, BLOCK_BEGIN, BLOCK_END;
    MarkersHold();
    MarkersAreStripped();
    var ending := [BLOCK_END] + after;
    var middle := [marker] + (back + ending);
    assert middle[1..] == back + ending;
    LinesWithoutMarkers(back, ending, false);
    assert SplitBlock(ending, false).None?;
    assert SplitBlock(middle, true).None?;
    LinesWithoutMarkers(front, middle, true);
    assert ([BLOCK_BEGIN] + (front + middle))[1..] == front + middle;
  }

  /** A file that the rendered block was written into can be read again exactly if the last of several
      ignores reads as no marker. It then splits into that block and what it held besides, refreshing it
      changes nothing, and the project's own lines still say what they said. */
  lemma RefreshingExactlyIf(kept: seq<string>, own: seq<Entry>, ignores: seq<string>, client: seq<Entry>)
    requires NoMarkers(kept) && AllWritten(own) && AllListable(ignores) && AllWritten(client)
    ensures var block := RenderedBlock(own, ignores, client);
            var parts := SplitBlock(Merged(kept, block), false);
            && (parts.Some? <==> !LastSpellsMarker(ignores))
            && (parts.Some? ==>
                  && parts.value.generated == BlockLines(own, ignores, client)
                  && Merged(parts.value.kept, block) == Merged(kept, block)
                  && Logical(parts.value.kept) == Logical(kept))
  {
    hide Strip, BLOCK_BEGIN, BLOCK_END, BlockLines, SplitBlock, AllWritten, AllListable, IsMarker, Logical;
    var block, inner := RenderedBlock(own, ignores, client), BlockLines(own, ignores, client);
    BlockHasNoMarkersExactlyIf(own, ignores, client);
    if LastSpellsMarker(ignores) {
      var front, last, back := BlockParts(own, ignores, client);
      var rest := DropBlanks(kept);
      var after := if rest == [] then [] else [""] + rest;
      DroppingKeepsNoMarkers(kept);
      MarkersAreStripped();
      assert NoMarkers(after);
      MarkerInsideIsRefused(front, last[0], back, after);
      assert Merged(kept, block) == [BLOCK_BEGIN] + (front + ([last[0]] + (back + ([BLOCK_END] + after))));
    } else {
      MergedSplits(kept, block, inner);
      MergingTwiceIsMergingOnce(kept, block, inner);
      MergingKeepsOwnEntries(kept, block, inner);
    }
  }

  lemma MarkerIsListable()
    ensures Listable(BLOCK_END) && Listable("out")
  {
    hide Strip;
    MarkersHold();
    assert Stripped("out");
    StrippedIsStrip("out");
    MarkerHasNone(',');
    MarkerHasNone('\n');
  }

  lemma MarkerHasNone(c: char)
    requires c == ',' || c == '\n'
    ensures c !in BLOCK_END
  {
    assert c !in "# @end generated by `tine`;";
    assert c !in " what follows is yours.";
  }

  /** Ignoring a path that is named like the end marker writes a file that is refused from then on. */
  lemma MarkerNamedIgnoreIsRefused(kept: seq<string>)
    requires NoMarkers(kept)
    ensures var ignores := ["out", BLOCK_END];
            AllListable(ignores) && SplitBlock(Merged(kept, RenderedBlock([], ignores, [])), false).None?
  {
    hide Strip, BlockLines, SplitBlock, Listable, BLOCK_BEGIN, BLOCK_END;
    MarkersHold();
    MarkerIsListable();
    var ignores := ["out", BLOCK_END];
    assert forall entry :: entry in ignores <==> entry == "out" || entry == BLOCK_END;
    RefreshingExactlyIf(kept, [], ignores, []);
  }

  /** What Buck reads out of the merged file is the block's sections and then the project's own lines,
      whatever the ignores spell. */
  lemma MergedReadsAsBlockThenOwn(kept: seq<string>, own: seq<Entry>, ignores: seq<string>, client: seq<Entry>, follow: Follow)
    requires WritableEntries(own) && AllListable(ignores) && WritableEntries(client)
    ensures var block := RenderedBlock(own, ignores, client);
            var sections := BlockSections(own, ignores, client);
            && Logical(Merged(kept, block)) == ConfigTexts(sections) + Logical(kept)
            && Parse(Logical(Merged(kept, block)), [], "", follow) ==
               Parse(Logical(kept), NonEmpty(sections), Parse(ConfigTexts(sections), [], "", follow).1, follow)
  {
    hide Strip, BLOCK_BEGIN, BLOCK_END, BlockLines, AllListable, Logical, WritableEntries, ConfigTexts, Parse, NonEmpty, BlockSections, AllWritten;
    var block, sections := RenderedBlock(own, ignores, client), BlockSections(own, ignores, client);
    var rest := DropBlanks(kept);
    var after := if rest == [] then [] else [""] + rest;
    WritableIsWritten(own);
    WritableIsWritten(client);
    MarkersAreComments();
    OneLine(BLOCK_BEGIN, BlockLines(own, ignores, client) + ([BLOCK_END] + after));
    BlockIsEntries(own, ignores, client, [BLOCK_END] + after);
    OneLine(BLOCK_END, after);
    MarkersAreStripped();
    BlanksInFrontAreDropped(kept);
    OneBlankInFront("", rest);
    assert Merged(kept, block) == [BLOCK_BEGIN] + (BlockLines(own, ignores, client) + ([BLOCK_END] + after));
    assert forall texts: seq<string> :: [] + texts == texts;
    assert Logical(after) == Logical(kept);
    ParsesInTurn(ConfigTexts(sections), Logical(kept), [], "", follow);
    BlockReadsBack(own, ignores, client, follow);
    BlockIsEntries(own, ignores, client, []);
    NothingLogical();
    assert BlockLines(own, ignores, client) + [] == BlockLines(own, ignores, client);
    assert ConfigTexts(sections) + [] == ConfigTexts(sections);
  }

  lemma MarkersAreComments()
    ensures !Continues(BLOCK_BEGIN) && !IsEntry(BLOCK_BEGIN) && !Continues(BLOCK_END) && !IsEntry(BLOCK_END)
    ensures Strip(BLOCK_BEGIN) == BLOCK_BEGIN && Strip(BLOCK_END) == BLOCK_END
  {
    hide Strip;
    MarkersHold();
  }

  lemma {:induction false} ParsesInTurn(a: seq<string>, b: seq<string>, config: Config, section: string, follow: Follow)
    ensures var first := Parse(a, config, section, follow); Parse(a + b, config, section, follow) == Parse(b, first.0, first.1, follow)
    decreases |a|
  {
    hide ParseLine;
    if a == [] {
      assert a + b == b;
    } else {
      var (next, current) := ParseLine(a[0], config, section, follow);
      ParsesInTurn(a[1..], b, next, current, follow);
      assert (a + b)[1..] == a[1..] + b;
    }
  }
}
