/** Version comparison in the format of the UAPI.10 Version Format Specification.

    `Compare` is the two-cursor loop. `Key` is what makes it an order: a sequence of numbers computed
    from one string alone, such that comparing two strings is comparing their keys. */
module Version {
  import opened Lexicographic

  predicate IsDigit(c: char) {
    '0' <= c <= '9'
  }

  predicate IsLetter(c: char) {
    'A' <= c <= 'Z' || 'a' <= c <= 'z'
  }

  predicate IsValid(c: char) {
    IsDigit(c) || IsLetter(c) || c == '~' || c == '-' || c == '.' || c == '^'
  }

  // The key of a version.

  function DropSeparators(s: string): (rest: string)
    ensures |rest| <= |s|
    ensures rest == "" || IsValid(rest[0])
  {
    if s != "" && !IsValid(s[0]) then DropSeparators(s[1..]) else s
  }

  predicate InRun(c: char, digits: bool) {
    if digits then IsDigit(c) else IsLetter(c)
  }

  /** The longest prefix of digits, or of letters. */
  function Run(s: string, digits: bool): (run: string)
    ensures run <= s
    ensures forall i :: 0 <= i < |run| ==> InRun(run[i], digits)
    ensures |run| < |s| ==> !InRun(s[|run|], digits)
  {
    if s != "" && InRun(s[0], digits) then [s[0]] + Run(s[1..], digits) else ""
  }

  predicate Starts(s: string, c: char) {
    s != "" && s[0] == c
  }

  function Without(s: string, c: char): (rest: string)
    ensures |rest| == |s| - (if Starts(s, c) then 1 else 0)
  {
    if Starts(s, c) then s[1..] else s
  }

  function Lacks(s: string, c: char): int {
    if Starts(s, c) then 0 else 1
  }

  function Power10(n: nat): (power: nat)
    ensures power > 0
  {
    if n == 0 then 1 else 10 * Power10(n - 1)
  }

  function DigitValue(c: char): int {
    c as int - '0' as int
  }

  /** The number a run of digits denotes. */
  function Value(digits: string): int {
    if digits == "" then 0 else DigitValue(digits[0]) * Power10(|digits| - 1) + Value(digits[1..])
  }

  /** A word, so that a word sorts before its extensions and before any number. */
  function WordKey(word: string): seq<int> {
    if word == "" then [0] else [word[0] as int + 1] + WordKey(word[1..])
  }

  /** The markers that may precede a segment, in the order they are looked for. */
  const MARKERS := "-^."

  /** A string once the first `k` markers were skipped. */
  function Strip(s: string, k: nat): (rest: string)
    requires k <= 3
    ensures |rest| <= |s|
  {
    if k == 0 then s else Without(Strip(s, k - 1), MARKERS[k - 1])
  }

  /** What is left of a string after its first segment. */
  function AfterSegment(s: string): (rest: string)
    ensures |rest| <= |s|
    ensures s != "" && IsValid(s[0]) && s[0] != '~' ==> |rest| < |s|
  {
    var body := Strip(s, 3);
    assert Strip(s, 0) == s && Strip(s, 1) == Without(s, '-') && Strip(s, 2) == Without(Strip(s, 1), '^');
    SkipSegment(body)
  }

  function SkipSegment(body: string): (rest: string)
    ensures |rest| <= |body|
    ensures body != "" && (IsDigit(body[0]) || IsLetter(body[0])) ==> |rest| < |body|
  {
    var digits := Run(body, true);
    if digits != "" then body[|digits|..] else body[|Run(body, false)|..]
  }

  /** A segment: a number, which sorts after every word, or a word. */
  function SegmentKey(body: string): seq<int> {
    var digits := Run(body, true);
    if digits != "" then [1, Value(digits)] else [0] + WordKey(Run(body, false))
  }

  function MarkerKey(s: string): seq<int> {
    seq(3, k requires 0 <= k < 3 => Lacks(Strip(s, k), MARKERS[k]))
  }

  function Key(s: string): seq<int>
    decreases |s|
  {
    var t := DropSeparators(s);
    var body := Without(t, '~');
    [Lacks(t, '~')] +
    if body == "" then []
    else [1] + MarkerKey(body) + SegmentKey(Strip(body, 3)) + Key(AfterSegment(body))
  }

  // The comparison.

  method SkipSeparators(value: string, offset: nat) returns (at: nat)
    requires offset <= |value|
    ensures offset <= at <= |value| && value[at..] == DropSeparators(value[offset..])
  {
    at := offset;
    while at < |value| && !IsValid(value[at])
      invariant offset <= at <= |value|
      invariant DropSeparators(value[at..]) == DropSeparators(value[offset..])
    {
      assert value[at..][1..] == value[at + 1..];
      at := at + 1;
    }
  }

  lemma RunIsPrefix(value: string, offset: nat, at: nat, digits: bool)
    requires offset <= at <= |value|
    requires forall i :: offset <= i < at ==> InRun(value[i], digits)
    requires at == |value| || !InRun(value[at], digits)
    ensures value[offset..at] == Run(value[offset..], digits)
    decreases at - offset
  {
    hide InRun;
    if offset < at {
      RunIsPrefix(value, offset + 1, at, digits);
      assert value[offset..][1..] == value[offset + 1..];
      assert value[offset..at] == [value[offset]] + value[offset + 1..at];
    }
  }

  method PrefixEnd(value: string, offset: nat, digits: bool) returns (at: nat)
    requires offset <= |value|
    ensures offset <= at <= |value| && value[offset..at] == Run(value[offset..], digits)
  {
    at := offset;
    while at < |value| && InRun(value[at], digits)
      invariant offset <= at <= |value|
      invariant forall i :: offset <= i < at ==> InRun(value[i], digits)
    {
      at := at + 1;
    }
    RunIsPrefix(value, offset, at, digits);
  }

  // Numbers.

  function StripZeros(digits: string): (significant: string)
    ensures |significant| <= |digits|
    ensures significant == digits[|digits| - |significant|..]
    ensures significant == "" || significant[0] != '0'
  {
    if Starts(digits, '0') then StripZeros(digits[1..]) else digits
  }

  predicate Digits(s: string) {
    forall i :: 0 <= i < |s| ==> IsDigit(s[i])
  }

  /** A smaller leading digit outweighs whatever follows the larger one's place value. */
  lemma LeadingDigits(x: int, y: int, power: nat)
    requires 0 <= x < y
    ensures x * power + power <= y * power
  {
    assert x * power + power == (x + 1) * power;
    ProductsGrow(x + 1, y, power);
  }

  lemma {:induction false} ProductsGrow(a: int, b: int, power: nat)
    requires a <= b
    ensures a * power <= b * power
    decreases b - a
  {
    if a < b {
      ProductsGrow(a, b - 1, power);
      assert b * power == (b - 1) * power + power;
    }
  }

  lemma {:induction false} ValueBounds(digits: string)
    requires Digits(digits)
    ensures 0 <= Value(digits) < Power10(|digits|)
    ensures digits != "" && digits[0] != '0' ==> Power10(|digits| - 1) <= Value(digits)
  {
    if digits != "" {
      ValueBounds(digits[1..]);
      var lead, power := DigitValue(digits[0]), Power10(|digits| - 1);
      assert IsDigit(digits[0]);
      LeadingDigits(lead, 10, power);
      if lead > 0 {
        LeadingDigits(0, lead, power);
      }
    }
  }

  lemma {:induction false} StrippingKeepsValue(digits: string)
    requires Digits(digits)
    ensures Value(StripZeros(digits)) == Value(digits) && Digits(StripZeros(digits))
  {
    if Starts(digits, '0') {
      var power := Power10(|digits| - 1);
      assert DigitValue(digits[0]) * power == 0;
      StrippingKeepsValue(digits[1..]);
    }
  }

  lemma {:induction false} Power10Grows(m: nat, n: nat)
    requires m <= n
    ensures Power10(m) <= Power10(n)
  {
    if m < n {
      Power10Grows(m, n - 1);
    }
  }

  function Sign(a: int, b: int): int {
    if a < b then -1 else if a > b then 1 else 0
  }

  lemma LeadingDigitsDecide(a: string, b: string)
    requires |a| == |b| > 0 && Digits(a) && Digits(b)
    ensures Sign(Value(a), Value(b)) ==
            if a[0] == b[0] then Sign(Value(a[1..]), Value(b[1..])) else Sign(a[0] as int, b[0] as int)
  {
    ValueBounds(a[1..]);
    ValueBounds(b[1..]);
    assert IsDigit(a[0]) && IsDigit(b[0]);
    var x, y, power := DigitValue(a[0]), DigitValue(b[0]), Power10(|a| - 1);
    if x < y {
      LeadingDigits(x, y, power);
    } else if y < x {
      LeadingDigits(y, x, power);
    }
  }

  /** Strings of the same number of digits compare like the numbers they denote. */
  lemma {:induction false} SameLengthValues(a: string, b: string)
    requires |a| == |b| && Digits(a) && Digits(b)
    ensures Order(Codes(a), Codes(b)) == Sign(Value(a), Value(b))
  {
    if a != "" {
      hide Value, Order;
      LeadingDigitsDecide(a, b);
      SameLengthValues(a[1..], b[1..]);
      assert Codes(a) == [a[0] as int] + Codes(a[1..]);
      assert Codes(b) == [b[0] as int] + Codes(b[1..]);
      OrderOfHeads(a[0] as int, Codes(a[1..]), b[0] as int, Codes(b[1..]));
    }
  }

  /** What the loop does to two runs of digits. */
  function CompareStripped(a: string, b: string): int {
    if |a| != |b| then (if |a| < |b| then -1 else 1) else Order(Codes(a), Codes(b))
  }

  lemma LongerIsLarger(a: string, b: string)
    requires Digits(a) && Digits(b) && |a| < |b| && b[0] != '0'
    ensures Value(a) < Value(b)
  {
    ValueBounds(a);
    ValueBounds(b);
    Power10Grows(|a|, |b| - 1);
  }

  /** Stripping zeros, comparing lengths and then strings compares the numbers denoted. */
  lemma DigitTestComparesNumbers(a: string, b: string)
    requires Digits(a) && Digits(b)
    ensures CompareStripped(StripZeros(a), StripZeros(b)) == Sign(Value(a), Value(b))
  {
    hide Value, Order, Digits, StripZeros, Codes;
    StrippingKeepsValue(a);
    StrippingKeepsValue(b);
    var x, y := StripZeros(a), StripZeros(b);
    if |x| < |y| {
      LongerIsLarger(x, y);
    } else if |y| < |x| {
      LongerIsLarger(y, x);
    } else {
      SameLengthValues(x, y);
    }
  }

  // Keys, read one decision at a time.

  /** The key of a string after a tilde was looked for. */
  function BodyKey(body: string): seq<int> {
    if body == "" then [] else [1] + FromMarker(body, 0)
  }

  /** The key of a string from its marker `k` on. */
  function FromMarker(s: string, k: nat): seq<int>
    requires k <= 3
    decreases 3 - k
  {
    if k < 3 then [Lacks(s, MARKERS[k])] + FromMarker(Without(s, MARKERS[k]), k + 1)
    else SegmentKey(s) + Key(SkipSegment(s))
  }

  lemma MarkersInSteps(body: string)
    ensures FromMarker(body, 0) == MarkerKey(body) + (SegmentKey(Strip(body, 3)) + Key(AfterSegment(body)))
  {
    hide SegmentKey, SkipSegment, Without, Lacks, Key;
    var one, two, three := Strip(body, 1), Strip(body, 2), Strip(body, 3);
    assert Strip(body, 0) == body && one == Without(body, MARKERS[0]);
    assert FromMarker(three, 3) == SegmentKey(three) + Key(SkipSegment(three));
    assert FromMarker(two, 2) == [Lacks(two, MARKERS[2])] + FromMarker(three, 3);
    assert FromMarker(one, 1) == [Lacks(one, MARKERS[1])] + FromMarker(two, 2);
    assert FromMarker(body, 0) == [Lacks(body, MARKERS[0])] + FromMarker(one, 1);
    assert MarkerKey(body) == [Lacks(body, MARKERS[0]), Lacks(one, MARKERS[1]), Lacks(two, MARKERS[2])];
  }

  lemma KeyInSteps(s: string)
    ensures Key(s) == [Lacks(DropSeparators(s), '~')] + BodyKey(Without(DropSeparators(s), '~'))
  {
    hide SegmentKey, Without, Lacks, DropSeparators, FromMarker, MarkerKey;
    var body := Without(DropSeparators(s), '~');
    MarkersInSteps(body);
    assert [1] + MarkerKey(body) + SegmentKey(Strip(body, 3)) + Key(AfterSegment(body))
        == [1] + (MarkerKey(body) + (SegmentKey(Strip(body, 3)) + Key(AfterSegment(body))));
  }

  lemma TildesDecide(left: string, right: string)
    ensures var l, r := DropSeparators(left), DropSeparators(right);
            Order(Key(left), Key(right)) ==
            if Starts(l, '~') != Starts(r, '~') then (if Starts(l, '~') then -1 else 1)
            else Order(BodyKey(Without(l, '~')), BodyKey(Without(r, '~')))
  {
    var l, r := DropSeparators(left), DropSeparators(right);
    KeyInSteps(left);
    KeyInSteps(right);
    hide Key, BodyKey, Order;
    OrderOfHeads(Lacks(l, '~'), BodyKey(Without(l, '~')), Lacks(r, '~'), BodyKey(Without(r, '~')));
  }

  lemma EndsDecide(l: string, r: string)
    ensures Order(BodyKey(l), BodyKey(r)) ==
            if l == "" || r == "" then (if r != "" then -1 else if l != "" then 1 else 0)
            else Order(FromMarker(l, 0), FromMarker(r, 0))
  {
    if l != "" && r != "" {
      OrderOfHeads(1, FromMarker(l, 0), 1, FromMarker(r, 0));
    }
  }

  lemma MarkersDecide(l: string, r: string, k: nat)
    requires k < 3
    ensures var c := MARKERS[k];
            Order(FromMarker(l, k), FromMarker(r, k)) ==
            if Starts(l, c) != Starts(r, c) then (if Starts(l, c) then -1 else 1)
            else Order(FromMarker(Without(l, c), k + 1), FromMarker(Without(r, c), k + 1))
  {
    hide Order;
    var c := MARKERS[k];
    OrderOfHeads(Lacks(l, c), FromMarker(Without(l, c), k + 1), Lacks(r, c), FromMarker(Without(r, c), k + 1));
  }

  lemma {:induction false} WordsDecide(v: string, w: string, x: seq<int>, y: seq<int>)
    ensures Order(WordKey(v) + x, WordKey(w) + y) == if v == w then Order(x, y) else Order(Codes(v), Codes(w))
  {
    hide Order, WordKey;
    WordKeySplits(v, x);
    WordKeySplits(w, y);
    if v == "" || w == "" {
      OneWordEnds(v, w, x, y);
    } else {
      OrderOfHeads(v[0] as int + 1, WordKey(v[1..]) + x, w[0] as int + 1, WordKey(w[1..]) + y);
      WordsDecide(v[1..], w[1..], x, y);
      assert Codes(v) == [v[0] as int] + Codes(v[1..]) && Codes(w) == [w[0] as int] + Codes(w[1..]);
      OrderOfHeads(v[0] as int, Codes(v[1..]), w[0] as int, Codes(w[1..]));
      assert v == [v[0]] + v[1..] && w == [w[0]] + w[1..];
    }
  }

  lemma OneWordEnds(v: string, w: string, x: seq<int>, y: seq<int>)
    requires v == "" || w == ""
    ensures Order(WordKey(v) + x, WordKey(w) + y) == if v == w then Order(x, y) else Order(Codes(v), Codes(w))
  {
    hide WordKey;
    WordKeySplits(v, x);
    WordKeySplits(w, y);
    var a, b := if v == "" then 0 else v[0] as int + 1, if w == "" then 0 else w[0] as int + 1;
    var p := if v == "" then x else WordKey(v[1..]) + x;
    var q := if w == "" then y else WordKey(w[1..]) + y;
    OrderOfHeads(a, p, b, q);
  }

  lemma WordKeySplits(word: string, x: seq<int>)
    ensures WordKey(word) + x ==
            if word == "" then [0] + x else [word[0] as int + 1] + (WordKey(word[1..]) + x)
  {
  }

  lemma SegmentKeySplits(s: string, x: seq<int>)
    ensures SegmentKey(s) + x ==
            if Run(s, true) != "" then [1] + ([Value(Run(s, true))] + x) else [0] + (WordKey(Run(s, false)) + x)
  {
    hide Value, WordKey, Run;
  }

  /** What the end of an iteration does to the two segments. */
  lemma SegmentsDecide(l: string, r: string)
    ensures var a, b := Run(l, true), Run(r, true);
            var v, w := Run(l, false), Run(r, false);
            var rest := Order(Key(SkipSegment(l)), Key(SkipSegment(r)));
            Order(FromMarker(l, 3), FromMarker(r, 3)) ==
            if (a == "") != (b == "") then (if a == "" then -1 else 1)
            else if a != "" then
              var sign := CompareStripped(StripZeros(a), StripZeros(b)); if sign != 0 then sign else rest
            else if v != w then Order(Codes(v), Codes(w)) else rest
  {
    hide Order, Key, SkipSegment, WordKey, Value, StripZeros, CompareStripped, Codes;
    var a, b := Run(l, true), Run(r, true);
    var x, y := Key(SkipSegment(l)), Key(SkipSegment(r));
    var p := if a != "" then [Value(a)] + x else WordKey(Run(l, false)) + x;
    var q := if b != "" then [Value(b)] + y else WordKey(Run(r, false)) + y;
    var i, j := if a != "" then 1 else 0, if b != "" then 1 else 0;
    SegmentKeySplits(l, x);
    SegmentKeySplits(r, y);
    hide SegmentKey, Run;
    OrderOfHeads(i, p, j, q);
    if a != "" && b != "" {
      OrderOfHeads(Value(a), x, Value(b), y);
      DigitTestComparesNumbers(a, b);
    } else if a == "" && b == "" {
      WordsDecide(Run(l, false), Run(r, false), x, y);
    }
  }

  lemma ZeroStripped(digits: string)
    requires Starts(digits, '0')
    ensures StripZeros(digits) == StripZeros(digits[1..])
  {
  }

  lemma {:induction false} StripsTo(value: string, start: nat, at: nat, end: nat)
    requires start <= at <= end <= |value|
    requires forall i :: start <= i < at ==> value[i] == '0'
    requires at == end || value[at] != '0'
    ensures value[at..end] == StripZeros(value[start..end])
    decreases at - start
  {
    if start < at {
      StripsTo(value, start + 1, at, end);
      ZeroStripped(value[start..end]);
      hide StripZeros;
      assert value[start..end][1..] == value[start + 1..end];
    }
  }

  method SignificantFrom(value: string, start: nat, end: nat) returns (at: nat)
    requires start <= end <= |value|
    ensures start <= at <= end && value[at..end] == StripZeros(value[start..end])
  {
    at := start;
    while at < end && value[at] == '0'
      invariant start <= at <= end
      invariant forall i :: start <= i < at ==> value[i] == '0'
    {
      at := at + 1;
    }
    StripsTo(value, start, at, end);
  }

  lemma SkipsDigits(value: string, at: nat, end: nat)
    requires at < end <= |value| && value[at..end] == Run(value[at..], true)
    ensures value[end..] == SkipSegment(value[at..])
  {
  }

  lemma SkipsLetters(value: string, at: nat, end: nat)
    requires at <= end <= |value| && value[at..end] == Run(value[at..], false)
    requires Run(value[at..], true) == ""
    ensures value[end..] == SkipSegment(value[at..])
  {
  }

  /** The end of an iteration: the segments at the cursors, and where they end if they are equal. */
  method CompareSegments(left: string, leftAt: nat, right: string, rightAt: nat)
    returns (sign: int, leftEnd: nat, rightEnd: nat)
    requires leftAt <= |left| && rightAt <= |right|
    ensures leftEnd <= |left| && rightEnd <= |right|
    ensures sign != 0 ==> sign == Order(FromMarker(left[leftAt..], 3), FromMarker(right[rightAt..], 3))
    ensures sign == 0 ==>
              left[leftEnd..] == SkipSegment(left[leftAt..]) && right[rightEnd..] == SkipSegment(right[rightAt..])
              && Order(Key(left[leftEnd..]), Key(right[rightEnd..])) ==
                 Order(FromMarker(left[leftAt..], 3), FromMarker(right[rightAt..], 3))
  {
    hide Order, Key, SkipSegment, Value, Run, StripZeros, FromMarker, Codes;
    SegmentsDecide(left[leftAt..], right[rightAt..]);
    leftEnd := PrefixEnd(left, leftAt, true);
    rightEnd := PrefixEnd(right, rightAt, true);
    if leftEnd != leftAt || rightEnd != rightAt {
      if (leftEnd != leftAt) != (rightEnd != rightAt) {
        return if leftEnd == leftAt then -1 else 1, leftEnd, rightEnd;
      }
      var leftFrom := SignificantFrom(left, leftAt, leftEnd);
      var rightFrom := SignificantFrom(right, rightAt, rightEnd);
      var leftLength, rightLength := leftEnd - leftFrom, rightEnd - rightFrom;
      if leftLength != rightLength {
        return if leftLength < rightLength then -1 else 1, leftEnd, rightEnd;
      }
      var leftNumber, rightNumber := left[leftFrom..leftEnd], right[rightFrom..rightEnd];
      DifferentCodes(leftNumber, rightNumber);
      if leftNumber != rightNumber {
        return if Before(leftNumber, rightNumber) then -1 else 1, leftEnd, rightEnd;
      }
      SkipsDigits(left, leftAt, leftEnd);
      SkipsDigits(right, rightAt, rightEnd);
      return 0, leftEnd, rightEnd;
    }
    leftEnd := PrefixEnd(left, leftAt, false);
    rightEnd := PrefixEnd(right, rightAt, false);
    var leftWord, rightWord := left[leftAt..leftEnd], right[rightAt..rightEnd];
    DifferentCodes(leftWord, rightWord);
    if leftWord != rightWord {
      return if Before(leftWord, rightWord) then -1 else 1, leftEnd, rightEnd;
    }
    SkipsLetters(left, leftAt, leftEnd);
    SkipsLetters(right, rightAt, rightEnd);
    sign := 0;
  }

  lemma Unstuck(s: string)
    ensures var t := DropSeparators(s);
            var body := Without(t, '~');
            body != "" ==> |AfterSegment(body)| < |s|
  {
  }

  /** Compare two versions with a cursor in each: negative, zero or positive as `left` sorts before,
      with or after `right`. */
  method Compare(left: string, right: string) returns (sign: int)
    ensures sign == Order(Key(left), Key(right))
  {
    hide Order, Key, SkipSegment, DropSeparators, FromMarker, Strip, BodyKey;
    var leftAt: nat, rightAt: nat := 0, 0;
    assert left[0..] == left && right[0..] == right;
    while true
      invariant leftAt <= |left| && rightAt <= |right|
      invariant Order(Key(left[leftAt..]), Key(right[rightAt..])) == Order(Key(left), Key(right))
      decreases |left| - leftAt
    {
      Unstuck(left[leftAt..]);
      TildesDecide(left[leftAt..], right[rightAt..]);
      ghost var start := leftAt;
      leftAt := SkipSeparators(left, leftAt);
      rightAt := SkipSeparators(right, rightAt);
      var leftTilde := leftAt < |left| && left[leftAt] == '~';
      var rightTilde := rightAt < |right| && right[rightAt] == '~';
      if leftTilde != rightTilde {
        return if leftTilde then -1 else 1;
      }
      ghost var l, r := Without(left[leftAt..], '~'), Without(right[rightAt..], '~');
      if leftTilde {
        leftAt, rightAt := leftAt + 1, rightAt + 1;
      }
      assert left[leftAt..] == l && right[rightAt..] == r;
      EndsDecide(l, r);
      var leftDone, rightDone := leftAt == |left|, rightAt == |right|;
      if leftDone || rightDone {
        return (if rightDone && !leftDone then 1 else 0) - (if leftDone && !rightDone then 1 else 0);
      }
      StripsMarkers(l, 0);
      for k := 0 to 3
        invariant leftAt <= |left| && rightAt <= |right|
        invariant left[leftAt..] == Strip(l, k)
        invariant Order(FromMarker(left[leftAt..], k), FromMarker(right[rightAt..], k)) == Order(Key(left), Key(right))
      {
        var marker := MARKERS[k];
        MarkersDecide(left[leftAt..], right[rightAt..], k);
        StripsMarkers(l, k);
        var leftHas := leftAt < |left| && left[leftAt] == marker;
        var rightHas := rightAt < |right| && right[rightAt] == marker;
        if leftHas != rightHas {
          return if leftHas then -1 else 1;
        }
        if leftHas {
          leftAt, rightAt := leftAt + 1, rightAt + 1;
        }
      }
      assert SkipSegment(left[leftAt..]) == AfterSegment(l);
      sign, leftAt, rightAt := CompareSegments(left, leftAt, right, rightAt);
      if sign != 0 {
        return;
      }
      assert |left| - leftAt < |left| - start;
    }
  }

  lemma StripsMarkers(s: string, k: nat)
    requires k <= 3
    ensures Strip(s, 0) == s
    ensures k < 3 ==> Strip(s, k + 1) == Without(Strip(s, k), MARKERS[k])
  {
  }

  // What it amounts to.

  /** Comparing versions is a total preorder, so it can be sorted by: every version is level with
      itself, swapping the two sides swaps the sign, the order is transitive, and two versions are
      level exactly when their keys are the same. */
  lemma CompareIsATotalPreorder(a: string, b: string, c: string)
    ensures Order(Key(a), Key(a)) == 0
    ensures Order(Key(a), Key(b)) == -Order(Key(b), Key(a))
    ensures Order(Key(a), Key(b)) == 0 <==> Key(a) == Key(b)
    ensures Order(Key(a), Key(b)) <= 0 && Order(Key(b), Key(c)) <= 0 ==>
              Order(Key(a), Key(c)) <= 0
    ensures Order(Key(a), Key(b)) == 0 && Order(Key(b), Key(c)) == 0 ==> Order(Key(a), Key(c)) == 0
  {
    OrderAntisymmetric(Key(a), Key(a));
    OrderAntisymmetric(Key(a), Key(b));
    OrderAntisymmetric(Key(b), Key(c));
    if Order(Key(a), Key(b)) <= 0 && Order(Key(b), Key(c)) <= 0 {
      OrderTransitive(Key(a), Key(b), Key(c));
    }
  }
}
