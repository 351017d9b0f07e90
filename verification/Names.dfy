/** The names a stored delta gives its entries, and what they decode to.

    A delta cannot hold device nodes, extended attributes or backslashes in names, so it spells
    whiteouts, opaque marks and unstorable names with the prefixes below. */
module Names {
  import opened Texts

  const WHITEOUT_PREFIX := ".wh."
  const OPAQUE_NAME := ".wh..wh..opq"
  const ESCAPE_PREFIX := ".esc."

  /** What a stored name means. */
  datatype Kind = Normal(name: string) | Hides(name: string) | Seals

  function Escape(name: string): string {
    if '\\' !in name && !(ESCAPE_PREFIX <= name) then name
    else ESCAPE_PREFIX + Replace(Replace(name, "%", "%25"), "\\", "%5C")
  }

  function Unescape(name: string): string {
    var bare := if ESCAPE_PREFIX <= name then name[|ESCAPE_PREFIX|..] else name;
    Replace(Replace(bare, "%5C", "\\"), "%25", "%")
  }

  function Classify(name: string): Kind {
    var plain := if ESCAPE_PREFIX <= name then Unescape(name) else name;
    if plain == OPAQUE_NAME then Seals
    else if WHITEOUT_PREFIX <= plain then Hides(plain[|WHITEOUT_PREFIX|..])
    else Normal(plain)
  }

  function WhiteoutMarker(name: string): string {
    Escape(WHITEOUT_PREFIX + name)
  }

  /** A true name, which carries neither marker prefix. */
  predicate Clean(name: string) {
    !(WHITEOUT_PREFIX <= name) && !(ESCAPE_PREFIX <= name)
  }

  // What escaping does character by character, for the proofs below.

  function DoublePercents(s: string): string {
    if s == "" then ""
    else (if s[0] == '%' then "%25" else [s[0]]) + DoublePercents(s[1..])
  }

  function Percented(s: string): string {
    if s == "" then ""
    else (if s[0] == '%' then "%25" else if s[0] == '\\' then "%5C" else [s[0]]) + Percented(s[1..])
  }

  lemma {:induction false} PercentsDoubled(s: string)
    ensures Replace(s, "%", "%25") == DoublePercents(s)
  {
    if s != "" {
      PercentsDoubled(s[1..]);
      assert s == [s[0]] + s[1..];
      if s[0] == '%' {
        ReplaceHits(s[1..], "%", "%25");
      } else {
        ReplaceSkips(s[0], s[1..], "%", "%25");
      }
    }
  }

  lemma {:induction false} BackslashesEscaped(s: string)
    ensures Replace(DoublePercents(s), "\\", "%5C") == Percented(s)
  {
    if s != "" {
      BackslashesEscaped(s[1..]);
      var rest := DoublePercents(s[1..]);
      if s[0] == '%' {
        assert "%25" + rest == "%" + ("2" + ("5" + rest));
        ReplaceSkips('%', "2" + ("5" + rest), "\\", "%5C");
        ReplaceSkips('2', "5" + rest, "\\", "%5C");
        ReplaceSkips('5', rest, "\\", "%5C");
      } else if s[0] == '\\' {
        ReplaceHits(rest, "\\", "%5C");
      } else {
        ReplaceSkips(s[0], rest, "\\", "%5C");
      }
    }
  }

  lemma PercentIsSkipped(rest: string)
    ensures Replace("%25" + rest, "%5C", "\\") == "%25" + Replace(rest, "%5C", "\\")
  {
    var tail := "2" + ("5" + rest);
    assert "%25" + rest == "%" + tail;
    assert ("%" + tail)[1] == '2' && ("%" + tail)[1..] == tail;
    ReplaceSkips('2', "5" + rest, "%5C", "\\");
    ReplaceSkips('5', rest, "%5C", "\\");
  }

  lemma {:induction false} BackslashesRestored(s: string)
    ensures Replace(Percented(s), "%5C", "\\") == DoublePercents(s)
  {
    if s != "" {
      hide Replace;
      BackslashesRestored(s[1..]);
      var rest := Percented(s[1..]);
      if s[0] == '%' {
        PercentIsSkipped(rest);
      } else if s[0] == '\\' {
        ReplaceHits(rest, "%5C", "\\");
      } else {
        ReplaceSkips(s[0], rest, "%5C", "\\");
      }
    }
  }

  lemma {:induction false} PercentsRestored(s: string)
    ensures Replace(DoublePercents(s), "%25", "%") == s
  {
    if s != "" {
      PercentsRestored(s[1..]);
      var rest := DoublePercents(s[1..]);
      if s[0] == '%' {
        ReplaceHits(rest, "%25", "%");
      } else {
        ReplaceSkips(s[0], rest, "%25", "%");
      }
    }
  }

  lemma {:induction false} PercentedHasNoBackslash(s: string)
    ensures '\\' !in Percented(s)
  {
    if s != "" {
      PercentedHasNoBackslash(s[1..]);
    }
  }

  /** Escaping loses nothing: decoding an escaped name gives the name back. */
  lemma UnescapeInvertsEscape(name: string)
    ensures ESCAPE_PREFIX <= Escape(name) ==> Unescape(Escape(name)) == name
    ensures !(ESCAPE_PREFIX <= Escape(name)) ==> Escape(name) == name
  {
    PercentsDoubled(name);
    BackslashesEscaped(name);
    BackslashesRestored(name);
    PercentsRestored(name);
    assert (ESCAPE_PREFIX + Percented(name))[|ESCAPE_PREFIX|..] == Percented(name);
  }

  /** No two names share a stored form, and every stored form is one Buck can hold. */
  lemma EscapeIsInjectiveAndStorable(a: string, b: string)
    ensures Escape(a) == Escape(b) ==> a == b
    ensures '\\' !in Escape(a)
  {
    UnescapeInvertsEscape(a);
    UnescapeInvertsEscape(b);
    PercentsDoubled(a);
    BackslashesEscaped(a);
    PercentedHasNoBackslash(a);
  }

  /** Decoding a stored name: what `Escape` wrote reads back as that entry exactly when the name
      carries no whiteout prefix. */
  lemma ClassifyInvertsEscape(name: string)
    ensures Classify(Escape(name)) == Normal(name) <==> !(WHITEOUT_PREFIX <= name)
  {
    UnescapeInvertsEscape(name);
  }

  /** A whiteout marker reads back as the whiteout it stands for, for every target but the one whose
      marker spells the opaque mark. */
  lemma ClassifyInvertsWhiteoutMarker(name: string)
    ensures Classify(WhiteoutMarker(name)) == Hides(name) <==> name != ".wh..opq"
  {
    UnescapeInvertsEscape(WHITEOUT_PREFIX + name);
    assert (WHITEOUT_PREFIX + name)[|WHITEOUT_PREFIX|..] == name;
    assert OPAQUE_NAME == WHITEOUT_PREFIX + ".wh..opq";
    if WHITEOUT_PREFIX + name == OPAQUE_NAME {
      assert name == OPAQUE_NAME[|WHITEOUT_PREFIX|..] == ".wh..opq";
    }
  }

  /** A stored name that carries the escape prefix, however it came by it, is decoded without it. */
  lemma PrefixIsTakenOff(x: string)
    ensures var plain := Replace(Replace(x, "%5C", "\\"), "%25", "%");
            && Unescape(".esc." + x) == plain
            && Classify(".esc." + x) ==
               if plain == ".wh..wh..opq" then Seals else if ".wh." <= plain then Hides(plain[4..]) else Normal(plain)
  {
    assert (".esc." + x)[5..] == x;
  }

  lemma OpaqueMarkSeals()
    ensures Classify(OPAQUE_NAME) == Seals
  {
    assert OPAQUE_NAME[1] != ESCAPE_PREFIX[1];
  }

  /** The markers of a delta never look like true names, and an unescaped entry keeps its own. */
  lemma MarkersAreNotClean(name: string)
    ensures !Clean(WhiteoutMarker(name)) && !Clean(OPAQUE_NAME)
    ensures Clean(name) && Escape(name) != name ==> !Clean(Escape(name)) && ESCAPE_PREFIX <= Escape(name)
  {
    assert WHITEOUT_PREFIX <= WHITEOUT_PREFIX + name;
    assert WHITEOUT_PREFIX <= OPAQUE_NAME;
  }
}
