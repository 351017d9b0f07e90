/** Replacing text in text. */
module Texts {

  /** Left to right, non-overlapping replacement. */
  function Replace(s: string, from: string, to: string): string
    requires from != ""
  {
    if s == "" then ""
    else if from <= s then to + Replace(s[|from|..], from, to)
    else [s[0]] + Replace(s[1..], from, to)
  }

  lemma {:induction false} ReplaceSkips(c: char, rest: string, from: string, to: string)
    requires from != "" && from[0] != c
    ensures Replace([c] + rest, from, to) == [c] + Replace(rest, from, to)
  {
    assert ([c] + rest)[1..] == rest;
    assert !(from <= [c] + rest);
  }

  lemma {:induction false} ReplaceHits(rest: string, from: string, to: string)
    requires from != ""
    ensures Replace(from + rest, from, to) == to + Replace(rest, from, to)
  {
    assert (from + rest)[|from|..] == rest;
  }

  function Contains(text: string, part: string): bool {
    part <= text || (text != "" && Contains(text[1..], part))
  }

  lemma {:induction false} ContainsLater(front: string, rest: string, part: string)
    requires Contains(rest, part)
    ensures Contains(front + rest, part)
  {
    if front == "" {
      assert front + rest == rest;
    } else {
      assert (front + rest)[1..] == front[1..] + rest;
      ContainsLater(front[1..], rest, part);
    }
  }

  /** What begins nowhere in the front of a text is in the rest of it. */
  lemma {:induction false} ContainedInRest(front: string, rest: string, part: string)
    requires Contains(front + rest, part) && forall k :: 0 <= k < |front| ==> !(part <= (front + rest)[k..])
    ensures Contains(rest, part)
  {
    if front == "" {
      assert front + rest == rest;
    } else {
      var text := front + rest;
      assert text[1..] == front[1..] + rest && text[0..] == text && !(part <= text[0..]);
      forall k | 0 <= k < |front[1..]|
        ensures !(part <= (front[1..] + rest)[k..])
      {
        assert text[1..][k..] == text[k + 1..];
      }
      ContainedInRest(front[1..], rest, part);
    }
  }

  // Splitting at a character, and joining.

  function SplitAt(text: string, separator: char): (parts: seq<string>)
    ensures parts != []
  {
    if text == "" then [""]
    else if text[0] == separator then [""] + SplitAt(text[1..], separator)
    else
      var rest := SplitAt(text[1..], separator);
      [[text[0]] + rest[0]] + rest[1..]
  }

  function JoinWith(parts: seq<string>, separator: char): string
    requires parts != []
  {
    if |parts| == 1 then parts[0] else parts[0] + [separator] + JoinWith(parts[1..], separator)
  }

  predicate NoneHas(parts: seq<string>, separator: char) {
    forall part :: part in parts ==> separator !in part
  }

  lemma {:induction false} JoinInvertsSplitAt(text: string, separator: char)
    ensures JoinWith(SplitAt(text, separator), separator) == text && NoneHas(SplitAt(text, separator), separator)
  {
    if text != "" {
      var rest := SplitAt(text[1..], separator);
      JoinInvertsSplitAt(text[1..], separator);
      assert text == [text[0]] + text[1..];
      if text[0] == separator {
        assert ([""] + rest)[1..] == rest;
      } else {
        assert ([[text[0]] + rest[0]] + rest[1..])[1..] == rest[1..];
        assert rest[0] in rest;
      }
    }
  }

  lemma {:induction false} SplitAtFirst(part: string, rest: string, separator: char)
    requires separator !in part
    ensures SplitAt(part + [separator] + rest, separator) == [part] + SplitAt(rest, separator)
    ensures SplitAt(part, separator) == [part]
  {
    if part == "" {
      assert part + [separator] + rest == [separator] + rest && ([separator] + rest)[1..] == rest;
    } else {
      SplitAtFirst(part[1..], rest, separator);
      assert (part + [separator] + rest)[1..] == part[1..] + [separator] + rest;
      assert part[0] in part && part == [part[0]] + part[1..];
    }
  }

  lemma {:induction false} SplitAtInvertsJoin(parts: seq<string>, separator: char)
    requires parts != [] && NoneHas(parts, separator)
    ensures SplitAt(JoinWith(parts, separator), separator) == parts
  {
    assert parts[0] in parts;
    if |parts| == 1 {
      SplitAtFirst(parts[0], "", separator);
    } else {
      assert forall part :: part in parts[1..] ==> part in parts;
      SplitAtInvertsJoin(parts[1..], separator);
      SplitAtFirst(parts[0], JoinWith(parts[1..], separator), separator);
    }
  }

  lemma {:induction false} JoinOfConcatenation(a: seq<string>, b: seq<string>, separator: char)
    requires a != [] && b != []
    ensures JoinWith(a + b, separator) == JoinWith(a, separator) + [separator] + JoinWith(b, separator)
  {
    if |a| == 1 {
      assert (a + b)[1..] == b;
    } else {
      assert (a + b)[1..] == a[1..] + b;
      JoinOfConcatenation(a[1..], b, separator);
    }
  }
}
