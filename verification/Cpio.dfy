/** Newc archives: a writer that aligns payloads, and a reader that finds them again wherever the
    archive is embedded. Names are the bytes they are stored as. */
module Cpio {
  import opened Bytes
  import opened Options

  /** `070701`. */
  const MAGIC: Bytes := [0x30, 0x37, 0x30, 0x37, 0x30, 0x31]

  /** `TRAILER!!!`. */
  const TRAILER: Bytes := [0x54, 0x52, 0x41, 0x49, 0x4C, 0x45, 0x52, 0x21, 0x21, 0x21]

  const HEADER := 110
  const FIELDS := 13
  const BLOCK := 4096
  const PATH_MAX := 4096

  const LINK_FORMAT := 0xA000
  const DIRECTORY_FORMAT := 0x4000
  const FILE_FORMAT := 0x8000

  // Alignment.

  function Roundup(n: int, align: int): int
    requires align > 0
  {
    n + (-n) % align
  }

  lemma RoundupIsNext(n: int, align: int)
    requires align in {4, BLOCK}
    ensures Roundup(n, align) % align == 0 && n <= Roundup(n, align) < n + align
    ensures forall m :: m % align == 0 && n <= m ==> Roundup(n, align) <= m
  {
  }

  /** Alignment is relative to the archive, not to what it is embedded in. */
  function Align(start: int, pos: int): int {
    start + Roundup(pos - start, 4)
  }

  function Zeros(n: nat): (zeros: Bytes)
    ensures |zeros| == n && forall i :: 0 <= i < n ==> zeros[i] == 0
  {
    seq(n, _ => 0)
  }

  /** Padding up to the next multiple of four. */
  function Padding(pos: nat): Bytes {
    RoundupIsNext(pos, 4);
    Zeros(Roundup(pos, 4) - pos)
  }

  // Header fields: eight hexadecimal digits, more for a number that needs them.

  function HexDigit(n: nat): byte
    requires n < 16
  {
    if n < 10 then 0x30 + n else 0x57 + n
  }

  function Hex(value: nat, width: nat): (digits: Bytes)
    ensures |digits| == width
  {
    if width == 0 then [] else Hex(value / 16, width - 1) + [HexDigit(value % 16)]
  }

  function HexLength(value: nat): nat {
    if value < 16 then 1 else 1 + HexLength(value / 16)
  }

  function Field(value: nat): Bytes {
    Hex(value, if value < 0x1_0000_0000 then 8 else HexLength(value))
  }

  function FieldBytes(fields: seq<nat>): Bytes {
    if fields == [] then [] else Field(fields[0]) + FieldBytes(fields[1..])
  }

  function DigitValue(digit: byte): Option<nat> {
    if 0x30 <= digit <= 0x39 then Some(digit - 0x30)
    else if 0x61 <= digit <= 0x66 then Some(digit - 0x57)
    else if 0x41 <= digit <= 0x46 then Some(digit - 0x37)
    else None
  }

  function Number(digits: Bytes): Option<nat> {
    if digits == [] then Some(0)
    else
      match (Number(digits[..|digits| - 1]), DigitValue(digits[|digits| - 1]))
      case (Some(high), Some(low)) => Some(high * 16 + low)
      case _ => None
  }

  function Power16(n: nat): (power: nat)
    ensures power > 0
  {
    if n == 0 then 1 else 16 * Power16(n - 1)
  }

  lemma {:induction false} NumberInvertsHex(value: nat, width: nat)
    requires value < Power16(width)
    ensures Number(Hex(value, width)) == Some(value)
  {
    if width > 0 {
      NumberInvertsHex(value / 16, width - 1);
      var high, low := Hex(value / 16, width - 1), HexDigit(value % 16);
      assert (high + [low])[..width - 1] == high;
    }
  }

  lemma FieldRoundTrip(value: nat)
    requires value < 0x1_0000_0000
    ensures |Field(value)| == 8 && Number(Field(value)) == Some(value)
  {
    assert Power16(8) == 0x1_0000_0000 by {
      assert Power16(4) == 0x1_0000;
    }
    NumberInvertsHex(value, 8);
  }

  lemma {:induction false} LengthIsLeast(value: nat)
    ensures HexLength(value) > 0 && value < Power16(HexLength(value))
    ensures value > 0 ==> Power16(HexLength(value) - 1) <= value
  {
    if value >= 16 {
      LengthIsLeast(value / 16);
    }
  }

  lemma {:induction false} LeadingHex(value: nat, width: nat)
    requires 0 < width && value < Power16(width)
    ensures Hex(value, width)[0] == HexDigit(value / Power16(width - 1)) && value / Power16(width - 1) < 16
  {
    if width == 1 {
      assert Hex(value, 0) == [] && value / 1 == value;
    } else {
      LeadingHex(value / 16, width - 1);
      DivideTwice(value, Power16(width - 2));
    }
  }

  lemma DivideTwice(value: nat, power: nat)
    requires power > 0
    ensures value / 16 / power == value / (16 * power)
  {
    var q, r := value / (16 * power), value % (16 * power);
    assert value == 16 * (q * power) + r && 0 <= r < 16 * power;
    assert value / 16 == q * power + r / 16 && r / 16 < power;
    QuotientIs(q, power, r / 16);
  }

  lemma QuotientIs(q: nat, power: nat, rest: nat)
    requires rest < power
    ensures (q * power + rest) / power == q
  {
    var value := q * power + rest;
    if value / power < q {
      ProductGrows(value / power + 1, q, power);
    } else if value / power > q {
      ProductGrows(q + 1, value / power, power);
    }
  }

  lemma ProductGrows(a: nat, b: nat, power: nat)
    requires a <= b
    ensures a * power <= b * power
  {
    assert b * power == a * power + (b - a) * power;
  }

  /** A field is spelled in lower-case hex digits, eight of them, or as many as it takes. */
  lemma FieldsSpell(value: nat)
    ensures Number(Field(value)) == Some(value)
    ensures |Field(value)| == if value < 0x1_0000_0000 then 8 else HexLength(value)
    ensures value >= 0x1_0000_0000 ==> Field(value)[0] != 0x30
    ensures forall i :: 0 <= i < |Field(value)| ==> 0x30 <= Field(value)[i] <= 0x39 || 0x61 <= Field(value)[i] <= 0x66
  {
    if value < 0x1_0000_0000 {
      FieldRoundTrip(value);
      HexIsLower(value, 8);
    } else {
      WideHex(value);
      HexIsLower(value, HexLength(value));
    }
  }

  lemma WideHex(value: nat)
    requires value > 0
    ensures Number(Hex(value, HexLength(value))) == Some(value)
    ensures HexLength(value) > 0 && Hex(value, HexLength(value))[0] != 0x30
  {
    var width := HexLength(value);
    LengthIsLeast(value);
    NumberInvertsHex(value, width);
    LeadingHex(value, width);
    hide Hex, Number, HexLength;
    NotLess(value, Power16(width - 1));
  }

  lemma NotLess(value: nat, power: nat)
    requires 0 < power <= value
    ensures value / power > 0
  {
    QuotientIs(1, power, 0);
    assert value == power + (value - power);
  }

  /** Digits of either case are read. */
  lemma DigitsRead(digit: byte)
    ensures DigitValue(digit) ==
            if 48 <= digit <= 57 then Some(digit - 48)
            else if 97 <= digit <= 102 then Some(digit - 97 + 10)
            else if 65 <= digit <= 70 then Some(digit - 65 + 10) else None
  {
  }

  lemma {:induction false} HexIsLower(value: nat, width: nat)
    ensures forall i :: 0 <= i < width ==> 0x30 <= Hex(value, width)[i] <= 0x39 || 0x61 <= Hex(value, width)[i] <= 0x66
  {
    if width > 0 {
      HexIsLower(value / 16, width - 1);
    }
  }

  predicate AllFit(fields: seq<nat>) {
    forall i :: 0 <= i < |fields| ==> fields[i] < 0x1_0000_0000
  }

  lemma {:induction false} FieldAt(fields: seq<nat>, i: nat)
    requires AllFit(fields) && i < |fields|
    ensures |FieldBytes(fields)| == 8 * |fields|
    ensures FieldBytes(fields)[8 * i..8 * i + 8] == Field(fields[i])
  {
    hide Field, Number;
    FieldRoundTrip(fields[0]);
    var head, tail := Field(fields[0]), FieldBytes(fields[1..]);
    if |fields| > 1 {
      FieldAt(fields[1..], if i == 0 then 0 else i - 1);
    }
    if i > 0 {
      assert (head + tail)[8 * i..8 * i + 8] == tail[8 * (i - 1)..8 * (i - 1) + 8];
    }
  }

  // Writing.

  /** What a caller adds to an archive. */
  datatype Item =
    | Directory(name: Bytes, mode: nat, mtime: nat)
    | Link(name: Bytes, target: Bytes, mtime: nat)
    | File(name: Bytes, data: Bytes, mode: nat, mtime: nat)
  {
    function Payload(): Bytes {
      match this
      case Directory(_, _, _) => []
      case Link(_, target, _) => target
      case File(_, data, _, _) => data
    }

    function Mode(): nat {
      match this
      case Directory(_, mode, _) => DIRECTORY_FORMAT + mode % 0x1000
      case Link(_, _, _) => LINK_FORMAT + 0x1FF
      case File(_, _, mode, _) => FILE_FORMAT + mode % 0x1000
    }

    /** Only a file of a block or more is worth aligning. */
    predicate WantsBlock(blockAlign: bool) {
      File? && blockAlign && |data| >= BLOCK
    }
  }

  function NameSize(pos: nat, name: Bytes, aligned: bool): (size: nat)
    ensures size > |name|
  {
    var size := |name| + 1;
    if !aligned then size
    else
      var padded := Roundup(pos + HEADER + size, BLOCK) - (pos + HEADER);
      RoundupIsNext(pos + HEADER + size, BLOCK);
      if padded <= PATH_MAX then padded else size
  }

  /** A payload goes on a block boundary whenever its name fits in front of one, and otherwise, the
      name field being as long as the kernel takes already, nothing is added to it. */
  lemma PaddingStopsAtPathMax(pos: nat, name: Bytes)
    ensures |name| + 1 <= BLOCK - (pos + HEADER) % BLOCK ==>
              (pos + HEADER + NameSize(pos, name, true)) % BLOCK == 0 && NameSize(pos, name, true) <= PATH_MAX
    ensures |name| + 1 > BLOCK - (pos + HEADER) % BLOCK ==> NameSize(pos, name, true) == |name| + 1
    ensures |name| + 1 <= PATH_MAX ==> NameSize(pos, name, true) <= PATH_MAX
  {
    var end := pos + HEADER + |name| + 1;
    var boundary := pos + HEADER + (BLOCK - (pos + HEADER) % BLOCK);
    assert boundary % BLOCK == 0;
    RoundupIsNext(end, BLOCK);
  }

  function Clamped(mtime: nat, epoch: nat): nat {
    if mtime < epoch then mtime else epoch
  }

  function HeaderFields(ino: nat, item: Item, epoch: nat, nameSize: nat): seq<nat> {
    [ino, item.Mode(), 0, 0, 1, Clamped(item.mtime, epoch), |item.Payload()|, 0, 0, 0, 0, nameSize, 0]
  }

  function HeaderBytes(fields: seq<nat>): Bytes {
    MAGIC + FieldBytes(fields)
  }

  function NameField(name: Bytes, nameSize: nat): Bytes
    requires nameSize > |name|
  {
    name + Zeros(nameSize - |name|)
  }

  function Padded(pos: nat, data: Bytes): Bytes {
    data + Padding(pos + |data|)
  }

  /** What goes before an item's payload. */
  function FrontBytes(pos: nat, ino: nat, item: Item, epoch: nat, blockAlign: bool): Bytes {
    var nameSize := NameSize(pos, item.name, item.WantsBlock(blockAlign));
    Padded(pos, HeaderBytes(HeaderFields(ino, item, epoch, nameSize)) + NameField(item.name, nameSize))
  }

  /** The record an item becomes at a position of the archive. */
  function RecordBytes(pos: nat, ino: nat, item: Item, epoch: nat, blockAlign: bool): Bytes {
    var front := FrontBytes(pos, ino, item, epoch, blockAlign);
    front + Padded(pos + |front|, item.Payload())
  }

  function RecordsOf(items: seq<Item>, epoch: nat, blockAlign: bool): Bytes {
    if items == [] then []
    else
      var before := RecordsOf(items[..|items| - 1], epoch, blockAlign);
      before + RecordBytes(|before|, |items|, items[|items| - 1], epoch, blockAlign)
  }

  lemma RecordsNext(items: seq<Item>, item: Item, epoch: nat, blockAlign: bool)
    ensures var before := RecordsOf(items, epoch, blockAlign);
            RecordsOf(items + [item], epoch, blockAlign) == before + RecordBytes(|before|, |items| + 1, item, epoch, blockAlign)
  {
    assert (items + [item])[..|items|] == items;
  }

  /** No inode, one link, and everything else zero but the name's size. */
  const TRAILER_FIELDS: seq<nat> := [0, 0, 0, 0, 1, 0, 0, 0, 0, 0, 0, 11, 0]

  function TrailerBytes(pos: nat): Bytes {
    Padded(pos, HeaderBytes(TRAILER_FIELDS) + NameField(TRAILER, |TRAILER| + 1))
  }

  function Archive(items: seq<Item>, epoch: nat, blockAlign: bool): Bytes {
    var records := RecordsOf(items, epoch, blockAlign);
    records + TrailerBytes(|records|)
  }

  /** A writer streaming to a file. */
  class Writer {
    const epoch: nat
    const blockAlign: bool
    /** The file's contents so far. */
    var out: Bytes
    var pos: nat
    var ino: nat
    var closed: bool
    ghost var items: seq<Item>

    ghost predicate Valid()
      reads this
    {
      if closed then out == Archive(items, epoch, blockAlign)
      else out == RecordsOf(items, epoch, blockAlign) && pos == |out| && ino == |items|
    }

    constructor (epoch: nat, blockAlign: bool)
      ensures Valid() && !closed && items == [] && this.epoch == epoch && this.blockAlign == blockAlign
    {
      hide RecordBytes, TrailerBytes;
      this.epoch, this.blockAlign := epoch, blockAlign;
      out, pos, ino, closed, items := [], 0, 0, false, [];
    }

    method Write(data: Bytes)
      requires pos == |out|
      modifies this`out, this`pos
      ensures out == old(out) + data && pos == |out|
    {
      out := out + data;
      pos := pos + |data|;
    }

    method Pad()
      requires pos == |out|
      modifies this`out, this`pos
      ensures out == old(out) + Padding(old(pos)) && pos == |out|
    {
      RoundupIsNext(pos, 4);
      var pad := Roundup(pos, 4) - pos;
      if pad != 0 {
        Write(Zeros(pad));
      }
    }

    method WriteFields(fields: seq<nat>)
      requires pos == |out|
      modifies this`out, this`pos
      ensures out == old(out) + HeaderBytes(fields) && pos == |out|
    {
      hide Field;
      var text := [];
      for i := 0 to |fields|
        invariant text + FieldBytes(fields[i..]) == FieldBytes(fields)
        invariant out == old(out) && pos == |out|
      {
        assert fields[i..][1..] == fields[i + 1..];
        text := text + Field(fields[i]);
      }
      assert text == FieldBytes(fields);
      Write(MAGIC + text);
    }

    /** Header and name, the name padded so that the payload starts on a block if that is asked for. */
    method Header(item: Item, aligned: bool)
      requires !closed && pos == |out| && aligned == item.WantsBlock(blockAlign)
      modifies this`out, this`pos, this`ino
      ensures pos == |out| && ino == old(ino) + 1
      ensures out == old(out) + FrontBytes(old(pos), ino, item, epoch, blockAlign)
    {
      hide HeaderBytes, NameField, Padding, HeaderFields;
      ino := ino + 1;
      var nameSize := |item.name| + 1;
      if aligned {
        RoundupIsNext(pos + HEADER + nameSize, BLOCK);
        var padded := Roundup(pos + HEADER + nameSize, BLOCK) - (pos + HEADER);
        if padded <= PATH_MAX {
          nameSize := padded;
        }
      }
      assert nameSize == NameSize(pos, item.name, aligned);
      WriteNamed(HeaderFields(ino, item, epoch, nameSize), item.name, nameSize);
    }

    method WriteNamed(fields: seq<nat>, name: Bytes, nameSize: nat)
      requires pos == |out| && nameSize > |name|
      modifies this`out, this`pos
      ensures pos == |out|
      ensures out == old(out) + Padded(old(pos), HeaderBytes(fields) + NameField(name, nameSize))
    {
      hide HeaderBytes, NameField, Padding;
      ghost var before := out;
      WriteFields(fields);
      Write(NameField(name, nameSize));
      ghost var front := HeaderBytes(fields) + NameField(name, nameSize);
      assert out == before + front;
      Pad();
      assert out == before + (front + Padding(|before| + |front|));
    }

    method Add(item: Item)
      requires Valid() && !closed
      modifies this
      ensures Valid() && !closed && items == old(items) + [item]
    {
      hide FrontBytes, Padding, RecordsOf, Archive, Item.Payload, Item.WantsBlock;
      ghost var before := out;
      RecordsNext(items, item, epoch, blockAlign);
      Header(item, item.WantsBlock(blockAlign));
      ghost var front := FrontBytes(|before|, ino, item, epoch, blockAlign);
      Write(item.Payload());
      Pad();
      assert out == before + (front + Padded(|before| + |front|, item.Payload()));
      items := items + [item];
    }

    method AddDirectory(name: Bytes, mode: nat, mtime: nat)
      requires Valid() && !closed
      modifies this
      ensures Valid() && !closed && items == old(items) + [Directory(name, mode, mtime)]
    {
      Add(Directory(name, mode, mtime));
    }

    method AddLink(name: Bytes, target: Bytes, mtime: nat)
      requires Valid() && !closed
      modifies this
      ensures Valid() && !closed && items == old(items) + [Link(name, target, mtime)]
    {
      Add(Link(name, target, mtime));
    }

    method AddFile(name: Bytes, data: Bytes, mode: nat, mtime: nat)
      requires Valid() && !closed
      modifies this
      ensures Valid() && !closed && items == old(items) + [File(name, data, mode, mtime)]
    {
      Add(File(name, data, mode, mtime));
    }

    method Close()
      requires Valid()
      modifies this
      ensures Valid() && closed && items == old(items)
    {
      hide RecordsOf, Padded, HeaderBytes, NameField, RecordBytes;
      if !closed {
        WriteNamed(TRAILER_FIELDS, TRAILER, |TRAILER| + 1);
        closed := true;
      }
    }
  }

  // Reading.

  /** A decoded record, which says where its payload is rather than holding it. */
  datatype Entry = Entry(ino: nat, mode: nat, nlink: nat, devmajor: nat, devminor: nat, name: Bytes, size: nat, dataOff: nat,
                         target: Bytes)

  /** The records that could be read, and whether the archive ended as it should. */
  datatype Reading = Reading(entries: seq<Entry>, complete: bool)

  datatype Parsed = Bad | End | Next(entry: Entry, off: nat)

  /** A slice that stops where the source does. */
  function Slice(source: Bytes, from: nat, to: nat): Bytes
    requires from <= to
  {
    if to <= |source| then source[from..to] else if from <= |source| then source[from..] else []
  }

  function FieldIn(source: Bytes, off: nat, i: nat): Option<nat> {
    var digits := Slice(source, off + 6 + i * 8, off + 14 + i * 8);
    if digits == [] then None else Number(digits)
  }

  function BeforeNul(bytes: Bytes): Bytes {
    if bytes == [] || bytes[0] == 0 then [] else [bytes[0]] + BeforeNul(bytes[1..])
  }

  predicate IsLink(mode: nat) {
    mode / 0x1000 % 0x10 == 0xA
  }

  predicate FieldsParse(source: Bytes, off: nat) {
    forall i :: 0 <= i < FIELDS ==> FieldIn(source, off, i).Some?
  }

  function EntryOf(source: Bytes, start: nat, off: nat): Entry
    requires start <= off && FieldsParse(source, off)
  {
    var f := (i: nat) requires i < FIELDS => FieldIn(source, off, i).value;
    var nameOff := off + HEADER;
    var dataOff := Align(start, nameOff + f(11));
    RoundupIsNext(nameOff + f(11) - start, 4);
    Entry(f(0), f(1), f(4), f(7), f(8), BeforeNul(Slice(source, nameOff, nameOff + f(11))), f(6), dataOff,
          if IsLink(f(1)) then Slice(source, dataOff, dataOff + f(6)) else [])
  }

  function ParseAt(source: Bytes, start: nat, off: nat): (parsed: Parsed)
    requires start <= off
    ensures !parsed.Bad? ==> off < |source|
    ensures parsed.Next? ==> off < parsed.off
  {
    if Slice(source, off, off + 6) != MAGIC || !FieldsParse(source, off) then Bad
    else
      var entry := EntryOf(source, start, off);
      if entry.name == TRAILER then End
      else
        RoundupIsNext(off + HEADER + FieldIn(source, off, 11).value - start, 4);
        RoundupIsNext(entry.dataOff + entry.size - start, 4);
        Next(entry, Align(start, entry.dataOff + entry.size))
  }

  function ReadFrom(source: Bytes, start: nat, off: nat): Reading
    requires start <= off
    decreases if off < |source| then |source| - off else 0
  {
    match ParseAt(source, start, off)
    case Bad => Reading([], false)
    case End => Reading([], true)
    case Next(entry, next) =>
      var rest := ReadFrom(source, start, next);
      Reading([entry] + rest.entries, rest.complete)
  }

  method ParseFields(source: Bytes, off: nat) returns (fields: Option<seq<nat>>)
    ensures fields.Some? <==> FieldsParse(source, off)
    ensures fields.Some? ==>
              |fields.value| == FIELDS && forall i :: 0 <= i < FIELDS ==> fields.value[i] == FieldIn(source, off, i).value
  {
    var parsed := [];
    for i := 0 to FIELDS
      invariant |parsed| == i
      invariant forall j :: 0 <= j < i ==> FieldIn(source, off, j) == Some(parsed[j])
    {
      var field := FieldIn(source, off, i);
      if field.None? {
        return None;
      }
      parsed := parsed + [field.value];
    }
    return Some(parsed);
  }

  method ReadRecord(source: Bytes, start: nat, off: nat) returns (parsed: Parsed)
    requires start <= off
    ensures parsed == ParseAt(source, start, off)
  {
    hide FieldIn, BeforeNul, Number, Slice;
    if Slice(source, off, off + 6) != MAGIC {
      return Bad;
    }
    var fields := ParseFields(source, off);
    if fields.None? {
      return Bad;
    }
    var f := fields.value;
    var nameOff := off + HEADER;
    var name := BeforeNul(Slice(source, nameOff, nameOff + f[11]));
    RoundupIsNext(nameOff + f[11] - start, 4);
    var dataOff := Align(start, nameOff + f[11]);
    if name == TRAILER {
      return End;
    }
    var target := if IsLink(f[1]) then Slice(source, dataOff, dataOff + f[6]) else [];
    RoundupIsNext(dataOff + f[6] - start, 4);
    return Next(Entry(f[0], f[1], f[4], f[7], f[8], name, f[6], dataOff, target), Align(start, dataOff + f[6]));
  }

  /** Yield the records of an archive embedded at `start`. */
  method Read(source: Bytes, start: nat) returns (entries: seq<Entry>, complete: bool)
    ensures Reading(entries, complete) == ReadFrom(source, start, start)
  {
    hide ParseAt;
    entries := [];
    var off := start;
    ghost var whole := ReadFrom(source, start, start);
    assert [] + whole.entries == whole.entries;
    while true
      invariant start <= off
      invariant whole == Reading(entries + ReadFrom(source, start, off).entries, ReadFrom(source, start, off).complete)
      decreases if off < |source| then |source| - off else 0
    {
      var parsed := ReadRecord(source, start, off);
      match parsed {
        case Bad =>
          assert entries + [] == entries;
          return entries, false;
        case End =>
          assert entries + [] == entries;
          return entries, true;
        case Next(entry, next) =>
          ghost var rest := ReadFrom(source, start, next).entries;
          assert entries + ([entry] + rest) == entries + [entry] + rest;
          entries, off := entries + [entry], next;
      }
    }
  }

  // Reading what was written.

  /** What the format can hold: names without a NUL that are not the trailer's, and numbers of eight
      digits. */
  predicate Storable(item: Item, epoch: nat) {
    && 0 !in item.name && item.name != TRAILER && |item.name| + 1 < 0x1_0000_0000
    && |item.Payload()| < 0x1_0000_0000 && Clamped(item.mtime, epoch) < 0x1_0000_0000
  }

  /** What an item reads back as. */
  function EntryFor(start: nat, pos: nat, ino: nat, item: Item, epoch: nat, blockAlign: bool): Entry {
    Entry(ino, item.Mode(), 1, 0, 0, item.name, |item.Payload()|, start + pos + |FrontBytes(pos, ino, item, epoch, blockAlign)|,
          if item.Link? then item.target else [])
  }

  lemma {:induction false} BeforeNulOfField(name: Bytes, nameSize: nat)
    requires 0 !in name && nameSize > |name|
    ensures BeforeNul(NameField(name, nameSize)) == name
  {
    var field := NameField(name, nameSize);
    if name != [] {
      assert field[1..] == NameField(name[1..], nameSize - 1);
      BeforeNulOfField(name[1..], nameSize - 1);
      assert name == [name[0]] + name[1..];
    }
  }

  /** Fields read back from wherever a header is. */
  lemma FieldsReadBack(source: Bytes, off: nat, fields: seq<nat>)
    requires AllFit(fields) && |fields| == FIELDS
    requires off + |HeaderBytes(fields)| <= |source| && source[off..off + |HeaderBytes(fields)|] == HeaderBytes(fields)
    ensures |HeaderBytes(fields)| == HEADER && Slice(source, off, off + 6) == MAGIC
    ensures FieldsParse(source, off) && forall i :: 0 <= i < FIELDS ==> FieldIn(source, off, i) == Some(fields[i])
  {
    hide Field, Number, FieldBytes, FieldIn;
    MagicReadsBack(source, off, fields);
    hide HeaderBytes;
    forall i | 0 <= i < FIELDS
      ensures FieldIn(source, off, i) == Some(fields[i])
    {
      OneFieldReadsBack(source, off, fields, i);
    }
  }

  lemma HeadReadsBack(source: Bytes, off: nat, head: Bytes, rest: Bytes)
    requires off + |head + rest| <= |source| && source[off..off + |head + rest|] == head + rest
    ensures Slice(source, off, off + |head|) == head
  {
    assert (head + rest)[..|head|] == head;
    SubSlice(source, off, off + |head + rest|, 0, |head|);
  }

  lemma MagicReadsBack(source: Bytes, off: nat, fields: seq<nat>)
    requires AllFit(fields) && |fields| == FIELDS
    requires off + |HeaderBytes(fields)| <= |source| && source[off..off + |HeaderBytes(fields)|] == HeaderBytes(fields)
    ensures |HeaderBytes(fields)| == HEADER && Slice(source, off, off + 6) == MAGIC
  {
    FieldAt(fields, 0);
    hide Field, FieldBytes, Slice;
    HeadReadsBack(source, off, MAGIC, FieldBytes(fields));
  }

  lemma OneFieldReadsBack(source: Bytes, off: nat, fields: seq<nat>, i: nat)
    requires AllFit(fields) && |fields| == FIELDS && i < FIELDS
    requires off + |HeaderBytes(fields)| <= |source| && source[off..off + |HeaderBytes(fields)|] == HeaderBytes(fields)
    ensures FieldIn(source, off, i) == Some(fields[i])
  {
    hide Field, Number, FieldBytes;
    var header := HeaderBytes(fields);
    FieldAt(fields, i);
    FieldRoundTrip(fields[i]);
    assert header[6..HEADER] == FieldBytes(fields) && source[off..off + HEADER] == header;
    SubSlice(source, off, off + HEADER, 6 + i * 8, 14 + i * 8);
    SubSlice(header, 6, HEADER, 8 * i, 8 * i + 8);
  }

  lemma SubSlice(bytes: Bytes, from: nat, to: nat, a: nat, b: nat)
    requires from <= to <= |bytes| && a <= b <= to - from
    ensures bytes[from..to][a..b] == bytes[from + a..from + b]
  {
    var part := bytes[from..to];
    assert forall i :: 0 <= i < |part| ==> part[i] == bytes[from + i];
    assert forall i :: 0 <= i < b - a ==> part[a..b][i] == part[a + i];
  }

  /** What a source holds at an offset. */
  predicate Embeds(source: Bytes, off: nat, bytes: Bytes) {
    off + |bytes| <= |source| && source[off..off + |bytes|] == bytes
  }

  lemma EmbedsParts(source: Bytes, off: nat, a: Bytes, b: Bytes)
    requires Embeds(source, off, a + b)
    ensures Embeds(source, off, a) && Embeds(source, off + |a|, b)
  {
    assert (a + b)[..|a|] == a && (a + b)[|a|..] == b;
    assert source[off..off + |a + b|][..|a|] == source[off..off + |a|];
    assert source[off..off + |a + b|][|a|..] == source[off + |a|..off + |a| + |b|];
  }

  lemma EmbedsMiddle(before: Bytes, middle: Bytes, after: Bytes)
    ensures Embeds(before + middle + after, |before|, middle)
  {
  }

  lemma PaddedEnds(pos: nat, data: Bytes)
    ensures pos + |Padded(pos, data)| == Roundup(pos + |data|, 4)
  {
    RoundupIsNext(pos + |data|, 4);
  }

  lemma NameFieldSize(name: Bytes, nameSize: nat)
    requires nameSize > |name|
    ensures |NameField(name, nameSize)| == nameSize
  {
  }

  lemma EntryFromFields(source: Bytes, start: nat, pos: nat, fields: seq<nat>, name: Bytes)
    requires |fields| == FIELDS && FieldsParse(source, start + pos)
    requires forall i :: 0 <= i < FIELDS ==> FieldIn(source, start + pos, i) == Some(fields[i])
    requires BeforeNul(Slice(source, start + pos + HEADER, start + pos + HEADER + fields[11])) == name
    ensures Roundup(pos + HEADER + fields[11], 4) >= 0
    ensures var dataOff := start + Roundup(pos + HEADER + fields[11], 4);
            EntryOf(source, start, start + pos) ==
            Entry(fields[0], fields[1], fields[4], fields[7], fields[8], name, fields[6], dataOff,
                  if IsLink(fields[1]) then Slice(source, dataOff, dataOff + fields[6]) else [])
  {
    hide BeforeNul, Slice, FieldIn, IsLink;
    RoundupIsNext(pos + HEADER + fields[11], 4);
  }

  /** A header and the name after it, wherever they are embedded, read back as they were written. */
  lemma NamedHeaderReadsBack(source: Bytes, start: nat, pos: nat, fields: seq<nat>, name: Bytes)
    requires AllFit(fields) && |fields| == FIELDS && fields[11] > |name| && 0 !in name
    requires Embeds(source, start + pos, HeaderBytes(fields) + NameField(name, fields[11]))
    ensures |HeaderBytes(fields)| == HEADER && Slice(source, start + pos, start + pos + 6) == MAGIC
    ensures FieldsParse(source, start + pos)
    ensures forall i :: 0 <= i < FIELDS ==> FieldIn(source, start + pos, i) == Some(fields[i])
    ensures Roundup(pos + HEADER + fields[11], 4) >= 0
    ensures var dataOff := start + Roundup(pos + HEADER + fields[11], 4);
            EntryOf(source, start, start + pos) ==
            Entry(fields[0], fields[1], fields[4], fields[7], fields[8], name, fields[6], dataOff,
                  if IsLink(fields[1]) then Slice(source, dataOff, dataOff + fields[6]) else [])
  {
    hide HeaderBytes, FieldIn, BeforeNul, NameField, FieldsParse, IsLink, EntryOf, Roundup;
    var off := start + pos;
    EmbedsParts(source, off, HeaderBytes(fields), NameField(name, fields[11]));
    FieldsReadBack(source, off, fields);
    BeforeNulOfField(name, fields[11]);
    NameFieldSize(name, fields[11]);
    assert Slice(source, off + HEADER, off + HEADER + fields[11]) == NameField(name, fields[11]);
    EntryFromFields(source, start, pos, fields, name);
  }

  lemma FieldsFit(ino: nat, item: Item, epoch: nat, pos: nat, blockAlign: bool)
    requires Storable(item, epoch) && ino < 0x1_0000_0000
    ensures AllFit(HeaderFields(ino, item, epoch, NameSize(pos, item.name, item.WantsBlock(blockAlign))))
    ensures IsLink(item.Mode()) <==> item.Link?
  {
    PaddingStopsAtPathMax(pos, item.name);
  }

  /** Everything before an item's payload, wherever it is embedded, reads back. */
  lemma FrontReadsBack(source: Bytes, start: nat, pos: nat, ino: nat, item: Item, epoch: nat, blockAlign: bool)
    requires Storable(item, epoch) && ino < 0x1_0000_0000
    requires Embeds(source, start + pos, FrontBytes(pos, ino, item, epoch, blockAlign))
    ensures Slice(source, start + pos, start + pos + 6) == MAGIC && FieldsParse(source, start + pos)
    ensures var fields := HeaderFields(ino, item, epoch, NameSize(pos, item.name, item.WantsBlock(blockAlign)));
            forall i :: 0 <= i < FIELDS ==> FieldIn(source, start + pos, i) == Some(fields[i])
    ensures var dataOff := start + pos + |FrontBytes(pos, ino, item, epoch, blockAlign)|;
            && (dataOff - start) % 4 == 0
            && EntryOf(source, start, start + pos) ==
               Entry(ino, item.Mode(), 1, 0, 0, item.name, |item.Payload()|, dataOff,
                     if item.Link? then Slice(source, dataOff, dataOff + |item.Payload()|) else [])
  {
    hide HeaderBytes, NameField, FieldIn, Padding, EntryOf, Roundup, NameSize, IsLink, FieldsParse, Slice, Item.Payload, Item.Mode,
         Storable, AllFit;
    var nameSize := NameSize(pos, item.name, item.WantsBlock(blockAlign));
    var fields := HeaderFields(ino, item, epoch, nameSize);
    var named := HeaderBytes(fields) + NameField(item.name, nameSize);
    FieldsFit(ino, item, epoch, pos, blockAlign);
    EmbedsParts(source, start + pos, named, Padding(pos + |named|));
    hide Embeds;
    NameHasNoNul(item, epoch);
    NamedHeaderReadsBack(source, start, pos, fields, item.name);
    NameFieldSize(item.name, nameSize);
    PaddedEnds(pos, named);
    RoundupIsNext(pos + |named|, 4);
  }

  lemma LinkPayload(item: Item)
    ensures item.Link? ==> item.Payload() == item.target
  {
  }

  lemma SliceOfEmbedded(source: Bytes, off: nat, bytes: Bytes)
    requires Embeds(source, off, bytes)
    ensures Slice(source, off, off + |bytes|) == bytes
  {
  }

  lemma NameHasNoNul(item: Item, epoch: nat)
    requires Storable(item, epoch)
    ensures 0 !in item.name && item.name != TRAILER
  {
  }

  /** A record reads back as its item, and the next one starts where it ends. */
  lemma RecordReadsBack(source: Bytes, start: nat, pos: nat, ino: nat, item: Item, epoch: nat, blockAlign: bool)
    requires Storable(item, epoch) && ino < 0x1_0000_0000
    requires Embeds(source, start + pos, RecordBytes(pos, ino, item, epoch, blockAlign))
    ensures ParseAt(source, start, start + pos) ==
            Next(EntryFor(start, pos, ino, item, epoch, blockAlign), start + pos + |RecordBytes(pos, ino, item, epoch, blockAlign)|)
    ensures Embeds(source, EntryFor(start, pos, ino, item, epoch, blockAlign).dataOff, item.Payload())
  {
    hide FrontBytes, HeaderFields, FieldIn, Padding, EntryOf, Roundup, NameSize, FieldsParse, Item.Mode, Item.Payload, Storable;
    var front := FrontBytes(pos, ino, item, epoch, blockAlign);
    EmbedsParts(source, start + pos, front, Padded(pos + |front|, item.Payload()));
    EmbedsParts(source, start + pos + |front|, item.Payload(), Padding(pos + |front| + |item.Payload()|));
    FrontReadsBack(source, start, pos, ino, item, epoch, blockAlign);
    NameHasNoNul(item, epoch);
    PaddedEnds(pos + |front|, item.Payload());
    RoundupIsNext(pos + |front| + |item.Payload()|, 4);
    LinkPayload(item);
    SliceOfEmbedded(source, start + pos + |front|, item.Payload());
    hide Embeds, Slice, Padded;
  }

  /** Every item is owned by root, and dated no later than the epoch. */
  lemma OwnershipAndDates(source: Bytes, start: nat, pos: nat, ino: nat, item: Item, epoch: nat, blockAlign: bool)
    requires Storable(item, epoch) && ino < 0x1_0000_0000
    requires Embeds(source, start + pos, RecordBytes(pos, ino, item, epoch, blockAlign))
    ensures FieldIn(source, start + pos, 2) == Some(0) && FieldIn(source, start + pos, 3) == Some(0)
    ensures FieldIn(source, start + pos, 5).Some? && FieldIn(source, start + pos, 5).value <= epoch
    ensures item.mtime <= epoch ==> FieldIn(source, start + pos, 5).value == item.mtime
    ensures FieldIn(source, start + pos, 4) == Some(1)
    ensures FieldIn(source, start + pos, 7) == Some(0) && FieldIn(source, start + pos, 8) == Some(0)
    ensures FieldIn(source, start + pos, 9) == Some(0) && FieldIn(source, start + pos, 10) == Some(0)
    ensures FieldIn(source, start + pos, 12) == Some(0)
  {
    hide FrontBytes, Padded, FieldIn, Padding, EntryOf, NameSize, FieldsParse, Item.Mode, Storable, Slice;
    var front := FrontBytes(pos, ino, item, epoch, blockAlign);
    EmbedsParts(source, start + pos, front, Padded(pos + |front|, item.Payload()));
    FrontReadsBack(source, start, pos, ino, item, epoch, blockAlign);
    var fields := HeaderFields(ino, item, epoch, NameSize(pos, item.name, item.WantsBlock(blockAlign)));
    forall i | 0 <= i < FIELDS
      ensures FieldIn(source, start + pos, i) == Some(fields[i])
    {
    }
    assert FieldIn(source, start + pos, 2) == Some(fields[2]);
    assert FieldIn(source, start + pos, 3) == Some(fields[3]);
    assert FieldIn(source, start + pos, 5) == Some(fields[5]);
    assert FieldIn(source, start + pos, 4) == Some(fields[4]);
    assert FieldIn(source, start + pos, 7) == Some(fields[7]) && FieldIn(source, start + pos, 8) == Some(fields[8]);
    assert FieldIn(source, start + pos, 9) == Some(fields[9]) && FieldIn(source, start + pos, 10) == Some(fields[10]);
    assert FieldIn(source, start + pos, 12) == Some(fields[12]);
  }

  /** Every kind of item reads back as its own file type, with the permissions it was given: of a link,
      all of them. */
  lemma ModesTellKinds(item: Item)
    ensures item.Mode() / 0x1000 == (if item.Directory? then 4 else if item.File? then 8 else 10)
    ensures IsLink(item.Mode()) <==> item.Link?
    ensures item.Directory? ==> item.Mode() % 0x1000 == item.mode % 0x1000
    ensures item.File? ==> item.Mode() % 0x1000 == item.mode % 0x1000
    ensures item.Link? ==> item.Mode() % 0x1000 == 511
  {
  }

  /** What an archive of these items reads back as. */
  function EntriesFor(start: nat, items: seq<Item>, epoch: nat, blockAlign: bool): (entries: seq<Entry>)
    ensures |entries| == |items|
  {
    if items == [] then []
    else
      var front := items[..|items| - 1];
      EntriesFor(start, front, epoch, blockAlign)
      + [EntryFor(start, |RecordsOf(front, epoch, blockAlign)|, |items|, items[|items| - 1], epoch, blockAlign)]
  }

  lemma TrailerReadsBack(source: Bytes, start: nat, pos: nat)
    requires Embeds(source, start + pos, TrailerBytes(pos))
    ensures ParseAt(source, start, start + pos) == End
  {
    hide HeaderBytes, NameField, FieldIn, Padding, EntryOf, Roundup, IsLink, FieldsParse, Slice;
    var named := HeaderBytes(TRAILER_FIELDS) + NameField(TRAILER, |TRAILER| + 1);
    EmbedsParts(source, start + pos, named, Padding(pos + |named|));
    NamedHeaderReadsBack(source, start, pos, TRAILER_FIELDS, TRAILER);
  }

  /** Reading the archive up to the last few items leaves those to read. */
  lemma {:induction false} ReadsRecords(source: Bytes, start: nat, items: seq<Item>, epoch: nat, blockAlign: bool)
    requires Embeds(source, start, RecordsOf(items, epoch, blockAlign))
    requires |items| < 0x1_0000_0000 && forall i :: 0 <= i < |items| ==> Storable(items[i], epoch)
    ensures var rest := ReadFrom(source, start, start + |RecordsOf(items, epoch, blockAlign)|);
            ReadFrom(source, start, start) == Reading(EntriesFor(start, items, epoch, blockAlign) + rest.entries, rest.complete)
    ensures forall i :: 0 <= i < |items| ==>
              Embeds(source, EntriesFor(start, items, epoch, blockAlign)[i].dataOff, items[i].Payload())
  {
    hide ParseAt, RecordBytes, Storable, EntryFor, Embeds, Item.Payload;
    if items == [] {
      var rest := ReadFrom(source, start, start);
      assert [] + rest.entries == rest.entries;
    } else {
      var n := |items| - 1;
      var front, last := items[..n], items[n];
      var before := RecordsOf(front, epoch, blockAlign);
      EmbedsParts(source, start, before, RecordBytes(|before|, n + 1, last, epoch, blockAlign));
      ReadsRecords(source, start, front, epoch, blockAlign);
      RecordReadsBack(source, start, |before|, n + 1, last, epoch, blockAlign);
      OneMoreEntry(source, start, |before|, n + 1, last, EntriesFor(start, front, epoch, blockAlign), epoch, blockAlign);
    }
  }

  lemma OneMoreEntry(source: Bytes, start: nat, pos: nat, ino: nat, item: Item, entries: seq<Entry>, epoch: nat, blockAlign: bool)
    requires ParseAt(source, start, start + pos) ==
             Next(EntryFor(start, pos, ino, item, epoch, blockAlign), start + pos + |RecordBytes(pos, ino, item, epoch, blockAlign)|)
    requires var rest := ReadFrom(source, start, start + pos);
             ReadFrom(source, start, start) == Reading(entries + rest.entries, rest.complete)
    ensures var rest := ReadFrom(source, start, start + pos + |RecordBytes(pos, ino, item, epoch, blockAlign)|);
            ReadFrom(source, start, start) ==
            Reading(entries + [EntryFor(start, pos, ino, item, epoch, blockAlign)] + rest.entries, rest.complete)
  {
    hide ParseAt, RecordBytes, EntryFor;
    var entry := EntryFor(start, pos, ino, item, epoch, blockAlign);
    var rest := ReadFrom(source, start, start + pos + |RecordBytes(pos, ino, item, epoch, blockAlign)|).entries;
    assert entries + ([entry] + rest) == entries + [entry] + rest;
  }

  lemma ArchiveParts(before: Bytes, items: seq<Item>, after: Bytes, epoch: nat, blockAlign: bool)
    ensures var source, records := before + Archive(items, epoch, blockAlign) + after, RecordsOf(items, epoch, blockAlign);
            Embeds(source, |before|, records) && Embeds(source, |before| + |records|, TrailerBytes(|records|))
  {
    hide RecordsOf, TrailerBytes, Embeds;
    var records := RecordsOf(items, epoch, blockAlign);
    EmbedsMiddle(before, Archive(items, epoch, blockAlign), after);
    EmbedsParts(before + Archive(items, epoch, blockAlign) + after, |before|, records, TrailerBytes(|records|));
  }

  /** An archive reads back as exactly the items written, from anywhere in a larger file, and each
      entry says where its payload is. */
  lemma ReadInvertsWrite(before: Bytes, items: seq<Item>, after: Bytes, epoch: nat, blockAlign: bool)
    requires |items| < 0x1_0000_0000 && forall i :: 0 <= i < |items| ==> Storable(items[i], epoch)
    ensures var source := before + Archive(items, epoch, blockAlign) + after;
            var entries := EntriesFor(|before|, items, epoch, blockAlign);
            && ReadFrom(source, |before|, |before|) == Reading(entries, true)
            && forall i :: 0 <= i < |items| ==> Embeds(source, entries[i].dataOff, items[i].Payload())
  {
    hide *;
    var records := RecordsOf(items, epoch, blockAlign);
    var source := before + Archive(items, epoch, blockAlign) + after;
    ArchiveParts(before, items, after, epoch, blockAlign);
    ReadsRecords(source, |before|, items, epoch, blockAlign);
    TrailerReadsBack(source, |before|, |records|);
    StopsAtEnd(source, |before|, |before| + |records|, EntriesFor(|before|, items, epoch, blockAlign));
  }

  lemma StopsAtEnd(source: Bytes, start: nat, off: nat, entries: seq<Entry>)
    requires start <= off && ParseAt(source, start, off) == End
    ensures ReadFrom(source, start, off).complete && entries + ReadFrom(source, start, off).entries == entries
  {
  }

  lemma {:induction false} EntriesForAt(start: nat, items: seq<Item>, epoch: nat, blockAlign: bool, i: nat)
    requires i < |items|
    ensures EntriesFor(start, items, epoch, blockAlign)[i] ==
            EntryFor(start, |RecordsOf(items[..i], epoch, blockAlign)|, i + 1, items[i], epoch, blockAlign)
  {
    hide EntryFor, RecordsOf;
    var front := items[..|items| - 1];
    if i < |front| {
      EntriesForAt(start, front, epoch, blockAlign, i);
      assert front[..i] == items[..i];
    } else {
      assert front == items[..i];
    }
  }

  lemma FrontEnds(pos: nat, ino: nat, item: Item, epoch: nat, blockAlign: bool)
    requires Storable(item, epoch) && ino < 0x1_0000_0000
    ensures pos + |FrontBytes(pos, ino, item, epoch, blockAlign)| ==
            Roundup(pos + HEADER + NameSize(pos, item.name, item.WantsBlock(blockAlign)), 4)
  {
    hide HeaderBytes, NameField, Padded, Roundup, NameSize, Storable, AllFit, Item.WantsBlock;
    var nameSize := NameSize(pos, item.name, item.WantsBlock(blockAlign));
    var fields := HeaderFields(ino, item, epoch, nameSize);
    FieldsFit(ino, item, epoch, pos, blockAlign);
    HeaderSize(fields);
    NameFieldSize(item.name, nameSize);
    PaddedEnds(pos, HeaderBytes(fields) + NameField(item.name, nameSize));
  }

  /** A file worth aligning starts on a block of the archive, whatever was written before it, if its
      name leaves room in front of the next block. */
  lemma BlocksStartOnBlocks(start: nat, items: seq<Item>, epoch: nat, blockAlign: bool, i: nat)
    requires i < |items| < 0x1_0000_0000 && Storable(items[i], epoch)
    requires items[i].File? && blockAlign && |items[i].data| >= BLOCK
    requires |items[i].name| + 1 <= BLOCK - (|RecordsOf(items[..i], epoch, blockAlign)| + HEADER) % BLOCK
    ensures (EntriesFor(start, items, epoch, blockAlign)[i].dataOff - start) % BLOCK == 0
  {
    hide FrontBytes, NameSize, Roundup, Storable, RecordsOf, EntriesFor, Item.Mode, Item.Payload;
    var pos, item := |RecordsOf(items[..i], epoch, blockAlign)|, items[i];
    EntriesForAt(start, items, epoch, blockAlign, i);
    PaddingStopsAtPathMax(pos, item.name);
    FrontEnds(pos, i + 1, item, epoch, blockAlign);
    AlreadyAligned(pos + HEADER + NameSize(pos, item.name, true));
  }

  /** Nothing else is: before any other payload there is only the name, its terminator and padding to four. */
  lemma OthersAreNotAligned(start: nat, items: seq<Item>, epoch: nat, blockAlign: bool, i: nat)
    requires i < |items| < 0x1_0000_0000 && Storable(items[i], epoch)
    requires !(items[i].File? && blockAlign && |items[i].data| >= BLOCK)
    ensures EntriesFor(start, items, epoch, blockAlign)[i].dataOff - start ==
            Roundup(|RecordsOf(items[..i], epoch, blockAlign)| + HEADER + |items[i].name| + 1, 4)
  {
    hide FrontBytes, Roundup, Storable, RecordsOf, EntriesFor, Item.Mode, Item.Payload;
    var pos := |RecordsOf(items[..i], epoch, blockAlign)|;
    EntriesForAt(start, items, epoch, blockAlign, i);
    FrontEnds(pos, i + 1, items[i], epoch, blockAlign);
  }

  lemma AlreadyAligned(n: nat)
    requires n % BLOCK == 0
    ensures Roundup(n, 4) == n
  {
    var q: int, m: int := n / BLOCK, n;
    assert m == 4 * (1024 * q);
    assert -m == 4 * (-1024 * q);
  }

  lemma HeaderSize(fields: seq<nat>)
    requires AllFit(fields) && |fields| == FIELDS
    ensures |HeaderBytes(fields)| == HEADER
  {
    FieldAt(fields, 0);
  }
}
