/** Text as the bytes it travels as: UTF-8, and reading it back as a decoder does that replaces what
    is no UTF-8. */
module Utf8 {
  import opened Bytes

  predicate Ascii(text: string) {
    forall i :: 0 <= i < |text| ==> text[i] as int < 0x80
  }

  /** The bytes of one character. */
  function CharBytes(c: char): (data: Bytes)
    ensures 1 <= |data| <= 4
  {
    var code := c as int;
    if code < 0x80 then [code]
    else if code < 0x800 then [0xC0 + code / 0x40, 0x80 + code % 0x40]
    else if code < 0x1_0000 then [0xE0 + code / 0x1000, 0x80 + code / 0x40 % 0x40, 0x80 + code % 0x40]
    else [0xF0 + code / 0x4_0000, 0x80 + code / 0x1000 % 0x40, 0x80 + code / 0x40 % 0x40, 0x80 + code % 0x40]
  }

  function Encoded(text: string): (data: Bytes)
    ensures |data| >= |text|
  {
    if text == [] then [] else CharBytes(text[0]) + Encoded(text[1..])
  }

  /** How many bytes a character takes that begins with this one; nothing begins with the others. */
  function Width(lead: byte): nat {
    if lead < 0x80 then 1
    else if 0xC2 <= lead < 0xE0 then 2
    else if 0xE0 <= lead < 0xF0 then 3
    else if 0xF0 <= lead < 0xF5 then 4
    else 0
  }

  /** Whether a byte may come second. The ranges shut out long forms, surrogates, and what is beyond the
      last character. */
  predicate MayFollow(lead: byte, second: byte) {
    if lead == 0xE0 then 0xA0 <= second < 0xC0
    else if lead == 0xED then 0x80 <= second < 0xA0
    else if lead == 0xF0 then 0x90 <= second < 0xC0
    else if lead == 0xF4 then 0x80 <= second < 0x90
    else 0x80 <= second < 0xC0
  }

  /** How many of the bytes after the first go on with the character it begins. */
  function Following(data: Bytes, most: nat): (n: nat)
    requires data != []
    ensures n <= most && n < |data|
  {
    if most == 0 || |data| < 2 || !MayFollow(data[0], data[1]) then 0
    else if most == 1 || |data| < 3 || !(0x80 <= data[2] < 0xC0) then 1
    else if most == 2 || |data| < 4 || !(0x80 <= data[3] < 0xC0) then 2
    else 3
  }

  datatype Character = Character(letter: char, length: nat)

  /** What a byte that goes on adds. */
  function Low(next: byte): int {
    next as int - 0x80
  }

  /** What the first bytes say. Those that begin a character and do not finish it are replaced as one. */
  function First(data: Bytes): (first: Character)
    requires data != []
    ensures 1 <= first.length <= |data|
  {
    var lead, width := data[0] as int, Width(data[0]);
    var follow := if width == 0 then 0 else Following(data, width - 1);
    if width == 0 || follow < width - 1 then Character('\U{FFFD}', 1 + follow)
    else if width == 1 then Character(lead as char, 1)
    else if width == 2 then Character(((lead - 0xC0) * 0x40 + Low(data[1])) as char, 2)
    else if width == 3 then Character(((lead - 0xE0) * 0x1000 + Low(data[1]) * 0x40 + Low(data[2])) as char, 3)
    else Character(((lead - 0xF0) * 0x4_0000 + Low(data[1]) * 0x1000 + Low(data[2]) * 0x40 + Low(data[3])) as char, 4)
  }

  function Decode(data: Bytes): string
    decreases |data|
  {
    if data == [] then []
    else
      var first := First(data);
      [first.letter] + Decode(data[first.length..])
  }

  lemma Digits(code: nat)
    ensures code == code / 0x40 * 0x40 + code % 0x40
    ensures code / 0x40 == code / 0x1000 * 0x40 + code / 0x40 % 0x40
    ensures code / 0x1000 == code / 0x4_0000 * 0x40 + code / 0x1000 % 0x40
  {
  }

  lemma FirstInvertsChar(c: char, rest: Bytes)
    ensures First(CharBytes(c) + rest) == Character(c, |CharBytes(c)|)
  {
    var code, data := c as int, CharBytes(c) + rest;
    Digits(code);
    if code < 0x80 {
      assert data[0] == code;
    } else if code < 0x800 {
      assert data[0] == 0xC0 + code / 0x40 && data[1] == 0x80 + code % 0x40;
    } else if code < 0x1_0000 {
      assert data[0] == 0xE0 + code / 0x1000 && data[1] == 0x80 + code / 0x40 % 0x40 && data[2] == 0x80 + code % 0x40;
    } else {
      assert data[0] == 0xF0 + code / 0x4_0000 && data[1] == 0x80 + code / 0x1000 % 0x40;
      assert data[2] == 0x80 + code / 0x40 % 0x40 && data[3] == 0x80 + code % 0x40;
    }
  }

  /** A character is read only from its own bytes: no longer form of it, no half of a pair, nothing beyond
      the last one. */
  lemma ReadOnlyFromItsBytes(data: Bytes)
    requires data != [] && First(data).letter != '\U{FFFD}'
    ensures data[..First(data).length] == CharBytes(First(data).letter)
  {
    var lead := data[0] as int;
    if Width(data[0]) == 2 {
      TwoBytes(lead - 0xC0, Low(data[1]));
    } else if Width(data[0]) == 3 {
      ThreeBytes(lead - 0xE0, Low(data[1]), Low(data[2]));
    } else if Width(data[0]) == 4 {
      FourBytes(lead - 0xF0, Low(data[1]), Low(data[2]), Low(data[3]));
    }
  }

  /** These bytes are the first of a character's, or all of them. */
  ghost predicate Begins(data: Bytes, n: nat) {
    n <= |data| && exists c :: n <= |CharBytes(c)| && data[..n] == CharBytes(c)[..n]
  }

  lemma BeginningFollows(data: Bytes, c: char, n: nat)
    requires 0 < n <= |CharBytes(c)| && n <= |data| && data[..n] == CharBytes(c)[..n]
    ensures Width(data[0]) == |CharBytes(c)| && Following(data, |CharBytes(c)| - 1) >= n - 1
  {
    var code, bytes := c as int, CharBytes(c);
    Digits(code);
    assert data[0] == data[..n][0] == bytes[0];
    assert n > 1 ==> data[1] == data[..n][1] == bytes[1];
    assert n > 2 ==> data[2] == data[..n][2] == bytes[2];
    assert n > 3 ==> data[3] == data[..n][3] == bytes[3];
  }

  lemma FollowingBegins(data: Bytes, width: nat, n: nat)
    requires data != [] && width == Width(data[0]) && 1 < n < width && n == Following(data, width - 1) + 1
    ensures Begins(data, n)
  {
    var lead, second := data[0] as int, Low(data[1]);
    if width == 3 {
      ThreeBytes(lead - 0xE0, second, 0);
      var c := ((lead - 0xE0) * 0x1000 + second * 0x40) as char;
      assert CharBytes(c)[..2] == data[..2];
    } else {
      var third := if n == 2 then 0 else Low(data[2]);
      FourBytes(lead - 0xF0, second, third, 0);
      var c := ((lead - 0xF0) * 0x4_0000 + second * 0x1000 + third * 0x40) as char;
      assert CharBytes(c)[..n] == data[..n];
    }
  }

  /** What is replaced is one byte that begins no character, or as many as begin one and do not finish it:
      never fewer, and never more. */
  lemma ReplacedIsLongest(data: Bytes)
    requires data != [] && data[..First(data).length] != CharBytes(First(data).letter)
    ensures var first := First(data);
            && first.letter == '\U{FFFD}' && (first.length > 1 ==> Begins(data, first.length))
            && !Begins(data, first.length + 1)
  {
    var first, width := First(data), Width(data[0]);
    if first.letter != '\U{FFFD}' {
      ReadOnlyFromItsBytes(data);
    }
    ReplacedOrRead(data);
    if first.length > 1 {
      FollowingBegins(data, width, first.length);
    }
    if Begins(data, first.length + 1) {
      var c :| first.length + 1 <= |CharBytes(c)| && data[..first.length + 1] == CharBytes(c)[..first.length + 1];
      BeginningFollows(data, c, first.length + 1);
    }
  }

  lemma ReplacedOrRead(data: Bytes)
    requires data != [] && data[..First(data).length] != CharBytes(First(data).letter)
    ensures var width := Width(data[0]);
            width == 0 || (First(data).length == 1 + Following(data, width - 1) && First(data).length < width)
    ensures Width(data[0]) == 0 ==> First(data).length == 1
  {
    var lead := data[0] as int;
    if Width(data[0]) == 2 && Following(data, 1) == 1 {
      TwoBytes(lead - 0xC0, Low(data[1]));
    } else if Width(data[0]) == 3 && Following(data, 2) == 2 {
      ThreeBytes(lead - 0xE0, Low(data[1]), Low(data[2]));
    } else if Width(data[0]) == 4 && Following(data, 3) == 3 {
      FourBytes(lead - 0xF0, Low(data[1]), Low(data[2]), Low(data[3]));
    }
  }

  lemma TwoBytes(a: int, b: int)
    requires 0 <= a && 0 <= b < 0x40
    ensures (a * 0x40 + b) / 0x40 == a && (a * 0x40 + b) % 0x40 == b
  {
  }

  lemma ThreeBytes(a: int, b: int, c: int)
    requires 0 <= a && 0 <= b < 0x40 && 0 <= c < 0x40
    ensures var code := a * 0x1000 + b * 0x40 + c; code / 0x1000 == a && code / 0x40 % 0x40 == b && code % 0x40 == c
  {
    assert a * 0x1000 + b * 0x40 + c == (a * 0x40 + b) * 0x40 + c;
    TwoBytes(a * 0x40 + b, c);
    TwoBytes(a, b);
  }

  lemma FourBytes(a: int, b: int, c: int, d: int)
    requires 0 <= a && 0 <= b < 0x40 && 0 <= c < 0x40 && 0 <= d < 0x40
    ensures var code := a * 0x4_0000 + b * 0x1000 + c * 0x40 + d;
            code / 0x4_0000 == a && code / 0x1000 % 0x40 == b && code / 0x40 % 0x40 == c && code % 0x40 == d
  {
    assert a * 0x4_0000 + b * 0x1000 + c * 0x40 + d == (a * 0x40 + b) * 0x1000 + c * 0x40 + d;
    ThreeBytes(a * 0x40 + b, c, d);
    TwoBytes(a, b);
  }

  /** Text reads back as itself. */
  lemma {:induction false} TextRoundTrip(text: string)
    ensures Decode(Encoded(text)) == text
  {
    hide First, CharBytes;
    if text != [] {
      var head, rest := CharBytes(text[0]), Encoded(text[1..]);
      FirstInvertsChar(text[0], rest);
      TextRoundTrip(text[1..]);
      assert (head + rest)[|head|..] == rest;
    }
  }

  lemma {:induction false} AsciiIsBytes(text: string)
    requires Ascii(text)
    ensures |Encoded(text)| == |text| && forall i :: 0 <= i < |text| ==> Encoded(text)[i] == text[i] as int
  {
    if text != [] {
      AsciiIsBytes(text[1..]);
    }
  }
}
