/** The block of a buckconfig file that tine generates, kept apart from what the project wrote. */
module GeneratedBlock {
  import opened Options
  import opened Texts

  // Long texts are written in pieces short enough for the verifier to look into.
  const BLOCK_BEGIN := "# @generated by `tine`;" + " rewritten on every command."
  const BLOCK_END := "# @end generated by `tine`;" + " what follows is yours."
  const CONFIG_HEADER := "# @generated by `tine`;" + " configure this project in" + " tine.toml instead."

  // Lines.

  /** What stripping removes: Unicode white space. */
  predicate IsSpace(c: char) {
    var code := c as int;
    || 0x09 <= code <= 0x0D || 0x1C <= code <= 0x20 || code == 0x85 || code == 0xA0 || code == 0x1680
    || 0x2000 <= code <= 0x200A || code == 0x2028 || code == 0x2029 || code == 0x202F || code == 0x205F || code == 0x3000
  }

  /** Those characters, one by one. */
  lemma SpacesAre(c: char)
    ensures IsSpace(c) <==>
            c as int in {9, 10, 11, 12, 13, 28, 29, 30, 31, 32, 133, 160, 5760, 8192, 8193, 8194, 8195, 8196, 8197, 8198, 8199, 8200,
                         8201, 8202, 8232, 8233, 8239, 8287, 12288}
  {
  }

  function StripLeft(text: string): (stripped: string)
    ensures |stripped| <= |text|
    ensures stripped != "" ==> !IsSpace(stripped[0])
  {
    if text != "" && IsSpace(text[0]) then StripLeft(text[1..]) else text
  }

  function StripRight(text: string): (stripped: string)
    ensures stripped <= text
    ensures stripped != "" ==> !IsSpace(stripped[|stripped| - 1])
  {
    if text != "" && IsSpace(text[|text| - 1]) then StripRight(text[..|text| - 1]) else text
  }

  function Strip(text: string): string {
    StripRight(StripLeft(text))
  }

  predicate Stripped(text: string) {
    text == "" || (!IsSpace(text[0]) && !IsSpace(text[|text| - 1]))
  }

  lemma StrippedIsStrip(text: string)
    ensures Strip(text) == text <==> Stripped(text)
    ensures Stripped(Strip(text))
  {
    var left := StripLeft(text);
    assert StripRight(left) <= left;
    if Stripped(text) {
      assert StripLeft(text) == text && StripRight(text) == text;
    }
  }

  /** Exactly the white space around a text goes. */
  lemma StripTakesSpace(front: string, bare: string, back: string)
    requires (forall i :: 0 <= i < |front| ==> IsSpace(front[i])) && (forall i :: 0 <= i < |back| ==> IsSpace(back[i]))
    requires Stripped(bare)
    ensures Strip(front + bare + back) == bare
  {
    if bare == "" {
      assert front + bare + back == (front + back) + "";
      LeftSpaceTaken(front + back, "");
    } else {
      assert front + bare + back == front + (bare + back) && (bare + back)[0] == bare[0];
      LeftSpaceTaken(front, bare + back);
      RightSpaceTaken(bare, back);
    }
  }

  lemma {:induction false} LeftSpaceTaken(front: string, rest: string)
    requires forall i :: 0 <= i < |front| ==> IsSpace(front[i])
    requires rest != "" ==> !IsSpace(rest[0])
    ensures StripLeft(front + rest) == rest
  {
    hide IsSpace;
    if front == "" {
      assert front + rest == rest;
    } else {
      assert (front + rest)[1..] == front[1..] + rest;
      LeftSpaceTaken(front[1..], rest);
    }
  }

  lemma {:induction false} RightSpaceTaken(bare: string, back: string)
    requires forall i :: 0 <= i < |back| ==> IsSpace(back[i])
    requires bare != "" && !IsSpace(bare[|bare| - 1])
    ensures StripRight(bare + back) == bare
  {
    hide IsSpace;
    if back == "" {
      assert bare + back == bare;
    } else {
      var n := |back| - 1;
      assert (bare + back)[..|bare + back| - 1] == bare + back[..n];
      RightSpaceTaken(bare, back[..n]);
    }
  }

  /** Lines end at line feeds and nowhere else. */
  function ReadLines(text: string): seq<string> {
    var lines := SplitAt(text, '\n');
    if lines[|lines| - 1] == "" then lines[..|lines| - 1] else lines
  }

  /** What a file of these lines is written as. */
  function WriteLines(lines: seq<string>): string
    requires lines != []
  {
    JoinWith(lines, '\n') + "\n"
  }

  lemma LinesReadBack(lines: seq<string>)
    requires lines != [] && NoneHas(lines, '\n')
    ensures ReadLines(WriteLines(lines)) == lines
  {
    JoinOfConcatenation(lines, [""], '\n');
    SplitAtInvertsJoin(lines + [""], '\n');
    assert JoinWith(lines, '\n') + ['\n'] + "" == WriteLines(lines);
    assert (lines + [""])[..|lines|] == lines;
  }

  // The generated block.

  /** What a file holds besides the block written into it, and what that block holds. */
  datatype Parts = Parts(kept: seq<string>, generated: seq<string>)

  function SplitBlock(lines: seq<string>, inside: bool): Option<Parts> {
    if lines == [] then (if inside then None else Some(Parts([], [])))
    else if Strip(lines[0]) == BLOCK_BEGIN then (if inside then None else SplitBlock(lines[1..], true))
    else if Strip(lines[0]) == BLOCK_END then (if inside then SplitBlock(lines[1..], false) else None)
    else
      match SplitBlock(lines[1..], inside)
      case None => None
      case Some(rest) =>
        Some(if inside then Parts(rest.kept, [lines[0]] + rest.generated) else Parts([lines[0]] + rest.kept, rest.generated))
  }

  method SplitGeneratedBlock(lines: seq<string>) returns (parts: Option<Parts>)
    ensures parts == SplitBlock(lines, false)
  {
    hide Strip, BLOCK_BEGIN, BLOCK_END;
    var kept, generated, inside := [], [], false;
    ghost var whole := SplitBlock(lines, false);
    assert lines[0..] == lines && (whole.Some? ==> [] + whole.value.kept == whole.value.kept && [] + whole.value.generated == whole.value.generated);
    for i := 0 to |lines|
      invariant var rest := SplitBlock(lines[i..], inside);
                whole == if rest.None? then None else Some(Parts(kept + rest.value.kept, generated + rest.value.generated))
    {
      var line := lines[i];
      assert lines[i..][0] == line && lines[i..][1..] == lines[i + 1..];
      if Strip(line) == BLOCK_BEGIN {
        if inside {
          return None;
        }
        inside := true;
      } else if Strip(line) == BLOCK_END {
        if !inside {
          return None;
        }
        inside := false;
      } else {
        ghost var rest := SplitBlock(lines[i + 1..], inside);
        if rest.Some? {
          assert kept + ([line] + rest.value.kept) == kept + [line] + rest.value.kept;
          assert generated + ([line] + rest.value.generated) == generated + [line] + rest.value.generated;
        }
        if inside {
          generated := generated + [line];
        } else {
          kept := kept + [line];
        }
      }
    }
    assert lines[|lines|..] == [] && kept + [] == kept && generated + [] == generated;
    if inside {
      return None;
    }
    return Some(Parts(kept, generated));
  }

  predicate IsMarker(line: string) {
    Strip(line) in {BLOCK_BEGIN, BLOCK_END}
  }

  predicate NoMarkers(lines: seq<string>) {
    forall line :: line in lines ==> !IsMarker(line)
  }

  lemma {:induction false} LinesWithoutMarkers(front: seq<string>, rest: seq<string>, inside: bool)
    requires NoMarkers(front)
    ensures SplitBlock(front + rest, inside) ==
            match SplitBlock(rest, inside)
            case None => None
            case Some(parts) => Some(if inside then Parts(parts.kept, front + parts.generated) else Parts(front + parts.kept, parts.generated))
  {
    hide Strip, BLOCK_BEGIN, BLOCK_END;
    if front == [] {
      assert front + rest == rest;
      assert forall more: seq<string> :: front + more == more;
    } else {
      assert front[0] in front && NoMarkers(front[1..]);
      assert (front + rest)[1..] == front[1..] + rest;
      LinesWithoutMarkers(front[1..], rest, inside);
      assert forall more: seq<string> :: [front[0]] + (front[1..] + more) == front + more;
    }
  }

  lemma {:induction false} KeptHasNoMarkers(lines: seq<string>, inside: bool)
    ensures SplitBlock(lines, inside).Some? ==>
              NoMarkers(SplitBlock(lines, inside).value.kept) && NoMarkers(SplitBlock(lines, inside).value.generated)
  {
    hide Strip, BLOCK_BEGIN, BLOCK_END;
    if lines != [] {
      KeptHasNoMarkers(lines[1..], inside);
      KeptHasNoMarkers(lines[1..], !inside);
    }
  }

  // Writing the block into a file.

  function DropBlanks(lines: seq<string>): (rest: seq<string>)
    ensures rest != [] ==> Strip(rest[0]) != ""
  {
    if lines != [] && Strip(lines[0]) == "" then DropBlanks(lines[1..]) else lines
  }

  lemma {:induction false} DroppingKeepsNoMarkers(lines: seq<string>)
    requires NoMarkers(lines)
    ensures NoMarkers(DropBlanks(lines))
  {
    hide Strip, BLOCK_BEGIN, BLOCK_END;
    if lines != [] && Strip(lines[0]) == "" {
      DroppingKeepsNoMarkers(lines[1..]);
    }
  }

  /** The lines of a file once a block has been written into it, in front of what was there. */
  function Merged(kept: seq<string>, block: seq<string>): seq<string> {
    var rest := DropBlanks(kept);
    block + if rest == [] then [] else [""] + rest
  }

  /** What a block is made of: its markers, and lines that are none. */
  predicate IsBlock(block: seq<string>, inner: seq<string>) {
    block == [BLOCK_BEGIN] + inner + [BLOCK_END] && NoMarkers(inner)
  }

  method MergeGeneratedBlock(lines: seq<string>, block: seq<string>) returns (after: Option<seq<string>>)
    ensures after == if SplitBlock(lines, false).None? then None else Some(Merged(SplitBlock(lines, false).value.kept, block))
  {
    hide SplitBlock, Strip;
    var parts := SplitGeneratedBlock(lines);
    if parts.None? {
      return None;
    }
    var kept := parts.value.kept;
    while kept != [] && Strip(kept[0]) == ""
      invariant DropBlanks(kept) == DropBlanks(parts.value.kept)
      decreases |kept|
    {
      kept := kept[1..];
    }
    return Some(block + if kept == [] then [] else [""] + kept);
  }

  lemma MarkersAreStripped()
    ensures Strip(BLOCK_BEGIN) == BLOCK_BEGIN && Strip(BLOCK_END) == BLOCK_END && BLOCK_BEGIN != BLOCK_END
    ensures Strip("") == "" && !IsMarker("")
  {
    hide Strip;
    assert |BLOCK_BEGIN| != |BLOCK_END|;
    assert Stripped(BLOCK_BEGIN) && Stripped(BLOCK_END);
    StrippedIsStrip(BLOCK_BEGIN);
    StrippedIsStrip(BLOCK_END);
    StrippedIsStrip("");
  }

  /** A merged file splits into the block's lines and what the file held besides, up to blank lines in
      front. */
  lemma MergedSplits(kept: seq<string>, block: seq<string>, inner: seq<string>)
    requires IsBlock(block, inner) && NoMarkers(kept)
    ensures var rest := DropBlanks(kept);
            SplitBlock(Merged(kept, block), false) == Some(Parts(if rest == [] then [] else [""] + rest, inner))
  {
    hide Strip, BLOCK_BEGIN, BLOCK_END, SplitBlock;
    MarkersAreStripped();
    var rest := DropBlanks(kept);
    var after := if rest == [] then [] else [""] + rest;
    assert Merged(kept, block) == [BLOCK_BEGIN] + (inner + ([BLOCK_END] + after));
    DroppingKeepsNoMarkers(kept);
    assert NoMarkers(after);
    MarkersToggle(inner, after);
  }

  lemma MarkersToggle(inner: seq<string>, after: seq<string>)
    requires NoMarkers(inner) && NoMarkers(after)
    ensures SplitBlock([BLOCK_BEGIN] + (inner + ([BLOCK_END] + after)), false) == Some(Parts(after, inner))
  {
    hide Strip, BLOCK_BEGIN, BLOCK_END;
    MarkersAreStripped();
    var ending := [BLOCK_END] + after;
    LinesWithoutMarkers(after, [], false);
    assert after + [] == after && ending[1..] == after && inner + [] == inner;
    assert SplitBlock(ending, true) == Some(Parts(after, []));
    LinesWithoutMarkers(inner, ending, true);
    assert ([BLOCK_BEGIN] + (inner + ending))[1..] == inner + ending;
  }

  /** Refreshing the block again changes nothing. */
  lemma MergingTwiceIsMergingOnce(kept: seq<string>, block: seq<string>, inner: seq<string>)
    requires IsBlock(block, inner) && NoMarkers(kept)
    ensures SplitBlock(Merged(kept, block), false).Some?
    ensures Merged(SplitBlock(Merged(kept, block), false).value.kept, block) == Merged(kept, block)
  {
    hide Strip, BLOCK_BEGIN, BLOCK_END;
    MarkersAreStripped();
    MergedSplits(kept, block, inner);
    var rest := DropBlanks(kept);
    if rest != [] {
      assert ([""] + rest)[1..] == rest;
      assert DropBlanks([""] + rest) == DropBlanks(rest) == rest;
    }
  }
}
