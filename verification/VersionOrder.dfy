/** The order of versions, said of the strings themselves. */
module VersionOrder {
  import opened Lexicographic
  import opened Version

  /** The characters that mean something, by their ASCII codes: ten digits, the letters of both cases, and
      four markers. */
  lemma Alphabets(c: char)
    ensures IsDigit(c) <==> 48 <= c as int <= 57
    ensures IsLetter(c) <==> 65 <= c as int <= 90 || 97 <= c as int <= 122
    ensures IsValid(c) <==> IsDigit(c) || IsLetter(c) || c in "~-.^"
  {
    var markers := "~-.^";
    assert markers[0] == '~' && markers[1] == '-' && markers[2] == '.' && markers[3] == '^';
  }

  /** What `Compare` answers with a negative number. */
  predicate Precedes(a: string, b: string) {
    Order(Key(a), Key(b)) == -1
  }

  predicate Level(a: string, b: string) {
    Order(Key(a), Key(b)) == 0
  }

  predicate IsAlphanumeric(c: char) {
    IsDigit(c) || IsLetter(c)
  }

  /** A version that ends in a letter or a digit. */
  predicate EndsInSegment(p: string) {
    p != "" && IsAlphanumeric(p[|p| - 1])
  }

  /** What follows does not go on with the number or the word that a version ends in. */
  predicate Boundary(p: string, s: string) {
    EndsInSegment(p)
    && (s != "" && IsDigit(s[0]) ==> !IsDigit(p[|p| - 1])) && (s != "" && IsLetter(s[0]) ==> !IsLetter(p[|p| - 1]))
  }

  // The key of a version that goes on.

  lemma SuffixKeepsBoundary(p: string, n: nat, s: string)
    requires Boundary(p, s) && n < |p|
    ensures Boundary(p[n..], s) && (p + s)[n..] == p[n..] + s
  {
  }

  lemma {:induction false} SeparatorsDropped(p: string, s: string)
    requires Boundary(p, s)
    ensures DropSeparators(p + s) == DropSeparators(p) + s && Boundary(DropSeparators(p), s)
  {
    if !IsValid(p[0]) {
      SuffixKeepsBoundary(p, 1, s);
      SeparatorsDropped(p[1..], s);
    }
  }

  lemma MarkerDropped(p: string, s: string, c: char)
    requires Boundary(p, s) && !IsAlphanumeric(c)
    ensures Without(p + s, c) == Without(p, c) + s && Boundary(Without(p, c), s)
    ensures Lacks(p + s, c) == Lacks(p, c)
  {
    if p[0] == c {
      SuffixKeepsBoundary(p, 1, s);
    }
  }

  lemma {:induction false} RunStops(p: string, s: string, digits: bool)
    requires s == "" || !InRun(s[0], digits) || (exists i :: 0 <= i < |p| && !InRun(p[i], digits))
    ensures Run(p + s, digits) == Run(p, digits)
  {
    if p == "" {
      assert p + s == s;
    } else if InRun(p[0], digits) {
      assert (p + s)[1..] == p[1..] + s;
      if exists i :: 0 <= i < |p| && !InRun(p[i], digits) {
        var i :| 0 <= i < |p| && !InRun(p[i], digits);
        assert p[1..][i - 1] == p[i];
      }
      RunStops(p[1..], s, digits);
    }
  }

  lemma RestStops(p: string, s: string, n: nat)
    requires Boundary(p, s) && n <= |p|
    ensures (p + s)[n..] == p[n..] + s && (p[n..] == "" || Boundary(p[n..], s))
  {
  }

  lemma SegmentStops(p: string, s: string)
    requires Boundary(p, s)
    ensures SegmentKey(p + s) == SegmentKey(p) && SkipSegment(p + s) == SkipSegment(p) + s
    ensures SkipSegment(p) == "" || Boundary(SkipSegment(p), s)
  {
    BoundaryStopsRuns(p, s);
    hide Run, Boundary, WordKey, Value;
    RestStops(p, s, |Run(p, true)|);
    RestStops(p, s, |Run(p, false)|);
  }

  lemma BoundaryStopsRuns(p: string, s: string)
    requires Boundary(p, s)
    ensures Run(p + s, true) == Run(p, true) && Run(p + s, false) == Run(p, false)
  {
    hide Run;
    RunStops(p, s, true);
    RunStops(p, s, false);
  }

  lemma MarkersDropped(p: string, s: string)
    requires Boundary(p, s)
    ensures MarkerKey(p + s) == MarkerKey(p) && Strip(p + s, 3) == Strip(p, 3) + s && Boundary(Strip(p, 3), s)
  {
    hide Without, Lacks, Boundary;
    var a, b, c := Strip(p, 1), Strip(p, 2), Strip(p, 3);
    assert Strip(p, 0) == p && Strip(p + s, 0) == p + s;
    MarkerDropped(p, s, MARKERS[0]);
    MarkerDropped(a, s, MARKERS[1]);
    MarkerDropped(b, s, MARKERS[2]);
  }

  lemma OneSegment(p: string, s: string) returns (head: seq<int>, rest: string)
    requires Boundary(p, s)
    ensures Key(p) == head + Key(rest) && Key(p + s) == head + Key(rest + s)
    ensures |rest| < |p| && (rest == "" || Boundary(rest, s))
  {
    hide Boundary, Without, Lacks, MarkerKey, Strip, SegmentKey, SkipSegment;
    var t := DropSeparators(p);
    SeparatorsDropped(p, s);
    MarkerDropped(t, s, '~');
    var body := Without(t, '~');
    NotEmpty(t, s);
    NotEmpty(body, s);
    MarkersDropped(body, s);
    SegmentStops(Strip(body, 3), s);
    Unstuck(p);
    rest := AfterSegment(body);
    head := [Lacks(t, '~')] + ([1] + MarkerKey(body) + SegmentKey(Strip(body, 3)));
  }

  /** Up to a boundary the key is that of what comes before, and from there on that of what follows. */
  lemma {:induction false} KeyGoesOn(p: string, s: string) returns (front: seq<int>)
    requires Boundary(p, s)
    ensures Key(p) == front + Key("") && Key(p + s) == front + Key(s)
    decreases |p|
  {
    hide Boundary, Key;
    var head, rest := OneSegment(p, s);
    if rest == "" {
      front := head;
      assert rest + s == s;
    } else {
      var more := KeyGoesOn(rest, s);
      front := head + more;
      assert head + (more + Key("")) == front + Key("") && head + (more + Key(s)) == front + Key(s);
    }
  }

  lemma NotEmpty(p: string, s: string)
    requires Boundary(p, s)
    ensures p != "" && p + s != ""
  {
  }

  /** After a common beginning, what follows decides. */
  lemma WhatFollowsDecides(p: string, s: string, t: string)
    requires Boundary(p, s) && Boundary(p, t)
    ensures Order(Key(p + s), Key(p + t)) == Order(Key(s), Key(t))
    ensures Order(Key(p + s), Key(p)) == Order(Key(s), Key("")) && Order(Key(p), Key(p + s)) == Order(Key(""), Key(s))
  {
    hide Key, Order, Boundary;
    var front := KeyGoesOn(p, s);
    var same := KeyGoesOn(p, t);
    assert front == Key(p)[..|Key(p)| - |Key("")|] == same;
    OrderOfCommonPrefix(front, Key(s), Key(t));
    OrderOfCommonPrefix(front, Key(s), Key(""));
    OrderOfCommonPrefix(front, Key(""), Key(s));
  }

  // The order of what can follow.

  /** A tilde, and whatever comes after it, sorts before the end. */
  lemma TildeComesFirst(p: string, x: string)
    requires EndsInSegment(p)
    ensures Precedes(p + ("~" + x), p)
  {
    WhatFollowsDecides(p, "~" + x, "");
    var s := "~" + x;
    assert DropSeparators(s) == s && DropSeparators("") == "";
    assert Key(s)[0] == 0 && Key("")[0] == 1;
    assert p + "" == p;
  }

  lemma FirstDecisions(s: string)
    requires s != "" && IsValid(s[0]) && s[0] != '~'
    ensures |Key(s)| >= 5 && Key(s)[0] == 1 && Key(s)[1] == 1
    ensures Key(s)[2] == if s[0] == '-' then 0 else 1
    ensures s[0] != '-' ==> Key(s)[3] == if s[0] == '^' then 0 else 1
    ensures s[0] != '-' && s[0] != '^' ==> Key(s)[4] == if s[0] == '.' then 0 else 1
    ensures Key("") == [1]
  {
    hide SegmentKey, SkipSegment;
    assert DropSeparators(s) == s && Without(s, '~') == s;
    assert Strip(s, 0) == s && Strip(s, 1) == Without(s, '-') && Strip(s, 2) == Without(Strip(s, 1), '^');
    assert Key(s)[0] == Lacks(s, '~');
    assert MarkerKey(s) == [Lacks(s, '-'), Lacks(Strip(s, 1), '^'), Lacks(Strip(s, 2), '.')];
    assert Key(s)[2] == MarkerKey(s)[0] && Key(s)[3] == MarkerKey(s)[1] && Key(s)[4] == MarkerKey(s)[2];
  }

  /** The end sorts before a marker or another segment. */
  lemma EndComesBefore(p: string, s: string)
    requires Boundary(p, s) && s != "" && IsValid(s[0]) && s[0] != '~'
    ensures Precedes(p, p + s)
  {
    WhatFollowsDecides(p, s, s);
    FirstDecisions(s);
    assert Key("")[1..] == [] && Key(s)[1..] != [];
  }

  /** A hyphen sorts before a caret, a caret before a dot, a dot before a letter or a digit; whatever
      comes after them. */
  lemma MarkersInOrder(p: string, x: string, y: string)
    requires EndsInSegment(p)
    ensures Precedes(p + ("-" + x), p + ("^" + y))
    ensures Precedes(p + ("^" + x), p + ("." + y))
    ensures Precedes(p + ("-" + x), p + ("." + y))
    ensures Boundary(p, y) && y != "" && IsAlphanumeric(y[0]) ==>
              Precedes(p + ("-" + x), p + y) && Precedes(p + ("^" + x), p + y) && Precedes(p + ("." + x), p + y)
  {
    FollowersInOrder(p, "-" + x, "^" + y);
    FollowersInOrder(p, "^" + x, "." + y);
    FollowersInOrder(p, "-" + x, "." + y);
    if Boundary(p, y) && y != "" && IsAlphanumeric(y[0]) {
      FollowersInOrder(p, "-" + x, y);
      FollowersInOrder(p, "^" + x, y);
      FollowersInOrder(p, "." + x, y);
    }
  }

  function Rank(c: char): int {
    if c == '-' then 0 else if c == '^' then 1 else if c == '.' then 2 else 3
  }

  lemma FollowersInOrder(p: string, s: string, t: string)
    requires Boundary(p, s) && Boundary(p, t) && s != "" && t != ""
    requires IsValid(s[0]) && IsValid(t[0]) && s[0] != '~' && t[0] != '~' && Rank(s[0]) < Rank(t[0])
    ensures Precedes(p + s, p + t)
  {
    hide Boundary, Key;
    WhatFollowsDecides(p, s, t);
    FirstDecisions(s);
    FirstDecisions(t);
    var n := 2 + Rank(s[0]);
    DecidedAt(Key(s), Key(t), n);
  }

  lemma {:induction false} DecidedAt(a: seq<int>, b: seq<int>, n: nat)
    requires n < |a| && n < |b| && a[..n] == b[..n] && a[n] < b[n]
    ensures Order(a, b) == -1
  {
    if n > 0 {
      assert a[0] == a[..n][0] == b[..n][0] == b[0];
      assert a[1..][..n - 1] == a[..n][1..] && b[1..][..n - 1] == b[..n][1..];
      DecidedAt(a[1..], b[1..], n - 1);
    }
  }

  // The order of segments.

  predicate OneMarkerOrNone(m: string) {
    m == "" || m == "-" || m == "^" || m == "."
  }

  /** A segment of these characters and no more of them. */
  predicate Segment(run: string, rest: string, digits: bool) {
    run != "" && (forall i :: 0 <= i < |run| ==> InRun(run[i], digits)) && (rest != "" ==> !InRun(rest[0], digits))
  }

  lemma {:induction false} RunIs(run: string, rest: string, digits: bool)
    requires (forall i :: 0 <= i < |run| ==> InRun(run[i], digits)) && (rest != "" ==> !InRun(rest[0], digits))
    ensures Run(run + rest, digits) == run && (run + rest)[|run|..] == rest
  {
    if run == "" {
      assert run + rest == rest;
    } else {
      assert (run + rest)[1..] == run[1..] + rest;
      RunIs(run[1..], rest, digits);
    }
  }

  lemma MarkersAtSegment(m: string, x: string)
    requires OneMarkerOrNone(m) && x != "" && IsAlphanumeric(x[0])
    ensures var s := m + x;
            && DropSeparators(s) == s && Without(s, '~') == s && Lacks(s, '~') == 1 && Strip(s, 3) == x
            && MarkerKey(s) == [if m == "-" then 0 else 1, if m == "^" then 0 else 1, if m == "." then 0 else 1]
  {
    var s := m + x;
    assert m == "" ==> s == x;
    assert m != "" ==> s[0] == m[0] && s[1..] == x;
    assert Strip(s, 0) == s && Strip(s, 1) == Without(s, '-') && Strip(s, 2) == Without(Strip(s, 1), '^');
    assert Strip(s, 3) == Without(Strip(s, 2), '.');
  }

  lemma KeyAtSegment(m: string, x: string) returns (front: seq<int>)
    requires OneMarkerOrNone(m) && x != "" && IsAlphanumeric(x[0])
    ensures front == [1, 1, if m == "-" then 0 else 1, if m == "^" then 0 else 1, if m == "." then 0 else 1]
    ensures Key(m + x) == front + (SegmentKey(x) + Key(SkipSegment(x)))
  {
    hide SegmentKey, SkipSegment, Strip, MarkerKey, Without, Lacks, DropSeparators, IsAlphanumeric, OneMarkerOrNone;
    MarkersAtSegment(m, x);
    front := [1] + ([1] + MarkerKey(m + x));
  }

  predicate Comparable(p: string, m: string, x: string, y: string) {
    OneMarkerOrNone(m) && x != "" && y != "" && IsAlphanumeric(x[0]) && IsAlphanumeric(y[0])
    && (p == "" || (Boundary(p, m + x) && Boundary(p, m + y)))
  }

  lemma SegmentsFollow(p: string, m: string, x: string, y: string)
    requires Comparable(p, m, x, y)
    ensures Order(Key(p + (m + x)), Key(p + (m + y))) ==
            Order(SegmentKey(x) + Key(SkipSegment(x)), SegmentKey(y) + Key(SkipSegment(y)))
  {
    hide Boundary, Key, Order, SegmentKey, SkipSegment;
    if p == "" {
      assert p + (m + x) == m + x && p + (m + y) == m + y;
    } else {
      WhatFollowsDecides(p, m + x, m + y);
    }
    var front := KeyAtSegment(m, x);
    var same := KeyAtSegment(m, y);
    OrderOfCommonPrefix(front, SegmentKey(x) + Key(SkipSegment(x)), SegmentKey(y) + Key(SkipSegment(y)));
  }

  /** At the beginning, or after the same beginning and the same marker or none, a word sorts before a
      number, whatever comes after them. */
  lemma LettersBeforeDigits(p: string, m: string, x: string, y: string)
    requires Comparable(p, m, x, y) && IsLetter(x[0]) && IsDigit(y[0])
    ensures Precedes(p + (m + x), p + (m + y))
  {
    hide Key, Boundary, WordKey, Value;
    SegmentsFollow(p, m, x, y);
    assert (SegmentKey(x) + Key(SkipSegment(x)))[0] == 0 && (SegmentKey(y) + Key(SkipSegment(y)))[0] == 1;
  }

  lemma NumberSegment(a: string, s: string)
    requires Segment(a, s, true)
    ensures SegmentKey(a + s) + Key(s) == [1] + ([Value(a)] + Key(s)) && SkipSegment(a + s) == s
  {
    hide Key, Value, WordKey;
    RunIs(a, s, true);
  }

  lemma WordSegment(v: string, s: string)
    requires Segment(v, s, false)
    ensures SegmentKey(v + s) + Key(s) == [0] + (WordKey(v) + Key(s)) && SkipSegment(v + s) == s
  {
    hide Key, Value, WordKey;
    RunIs(v, s, false);
    assert (v + s)[0] == v[0];
    assert [0] + WordKey(v) + Key(s) == [0] + (WordKey(v) + Key(s));
  }

  /** There, numbers compare by their values, however they are written; of equal ones, what comes after
      decides. */
  lemma NumbersByValue(p: string, m: string, a: string, s: string, b: string, t: string)
    requires Segment(a, s, true) && Segment(b, t, true) && Comparable(p, m, a + s, b + t)
    ensures Order(Key(p + (m + (a + s))), Key(p + (m + (b + t)))) ==
            if Value(a) == Value(b) then Order(Key(s), Key(t)) else Sign(Value(a), Value(b))
  {
    hide Key, Value, Order, Segment, Comparable, SegmentKey, SkipSegment;
    NumberSegment(a, s);
    NumberSegment(b, t);
    SegmentsFollow(p, m, a + s, b + t);
    OrderOfHeads(1, [Value(a)] + Key(s), 1, [Value(b)] + Key(t));
    OrderOfHeads(Value(a), Key(s), Value(b), Key(t));
  }

  /** And words compare character by character. */
  lemma WordsByCharacters(p: string, m: string, v: string, s: string, w: string, t: string)
    requires Segment(v, s, false) && Segment(w, t, false) && Comparable(p, m, v + s, w + t)
    ensures Order(Key(p + (m + (v + s))), Key(p + (m + (w + t)))) ==
            if v == w then Order(Key(s), Key(t)) else Order(Codes(v), Codes(w))
  {
    hide Key, WordKey, Order, Segment, Comparable, SegmentKey, SkipSegment;
    WordSegment(v, s);
    WordSegment(w, t);
    SegmentsFollow(p, m, v + s, w + t);
    OrderOfHeads(0, WordKey(v) + Key(s), 0, WordKey(w) + Key(t));
    WordsDecide(v, w, Key(s), Key(t));
  }

  /** The value of a run of digits is the number it spells. */
  lemma {:induction false} ValueIsDecimal(digits: string, d: char)
    requires Digits(digits) && IsDigit(d)
    ensures Value("") == 0 && Value(digits + [d]) == 10 * Value(digits) + (d as int - '0' as int)
  {
    if digits == "" {
      assert digits + [d] == [d] && [d][1..] == "";
    } else {
      var n := |digits|;
      assert (digits + [d])[1..] == digits[1..] + [d] && (digits + [d])[0] == digits[0];
      ValueIsDecimal(digits[1..], d);
      var lead, power := DigitValue(digits[0]), Power10(n - 1);
      assert Power10(n) == 10 * power;
      assert lead * (10 * power) == 10 * (lead * power);
    }
  }

  /** Characters that are no part of the format are separators: in front of a version, and after its last
      segment, they make no difference. */
  lemma SeparatorsAreIgnored(p: string, c: char, s: string)
    requires !IsValid(c)
    ensures Level([c] + s, s)
    ensures EndsInSegment(p) ==> Level(p + [c], p) && Order(Key(p + ([c] + s)), Key(p)) == Order(Key(s), Key(""))
  {
    assert ([c] + s)[1..] == s;
    assert Key([c] + s) == Key(s);
    OrderAntisymmetric(Key(s), Key(s));
    if EndsInSegment(p) {
      WhatFollowsDecides(p, [c] + s, "");
      WhatFollowsDecides(p, [c], "");
      assert [c][1..] == "" && Key([c]) == Key("");
      OrderAntisymmetric(Key(""), Key(""));
    }
  }
}
