/** The part of the protobuf wire format the cache speaks: varints and length-delimited fields. */
module Wire {
  import opened Bytes
  import opened Options
  import opened Utf8

  const VARINT := 0
  const FIXED64 := 1
  const LENGTH := 2
  const FIXED32 := 5

  /** A varint has at most ten bytes of seven bits. */
  const MAX_VARINT := 10

  datatype Decoded = Decoded(value: nat, length: nat)

  datatype Field = IntField(number: nat, integer: nat) | BlobField(number: nat, blob: Bytes)

  // Varints.

  /** The varint a byte string starts with, if it ends within `left` bytes. */
  function Varint(data: Bytes, left: nat): (decoded: Option<Decoded>)
    ensures decoded.Some? ==> 0 < decoded.value.length <= |data| && decoded.value.length <= left
  {
    if data == [] || left == 0 then None
    else if data[0] < 0x80 then Some(Decoded(data[0], 1))
    else
      match Varint(data[1..], left - 1)
      case None => None
      case Some(rest) => Some(Decoded(data[0] - 0x80 + 0x80 * rest.value, rest.length + 1))
  }

  function VarintBytes(value: nat): (data: Bytes)
    ensures data != []
  {
    if value < 0x80 then [value] else [value % 0x80 + 0x80] + VarintBytes(value / 0x80)
  }

  function Pow128(n: nat): (power: nat)
    ensures power > 0
  {
    if n == 0 then 1 else 0x80 * Pow128(n - 1)
  }

  /** A varint that fits in `left` bytes reads back as itself, and exactly its bytes are taken; one
      that does not is refused. */
  lemma {:induction false} VarintRoundTrip(value: nat, rest: Bytes, left: nat)
    ensures Varint(VarintBytes(value) + rest, left) ==
            if value < Pow128(left) && left > 0 then Some(Decoded(value, |VarintBytes(value)|)) else None
    decreases left
  {
    var data := VarintBytes(value);
    if left > 0 {
      assert (data + rest)[0] == data[0];
      assert (data + rest)[1..] == data[1..] + rest;
      if value >= 0x80 {
        VarintRoundTrip(value / 0x80, rest, left - 1);
        assert value < Pow128(left) <==> value / 0x80 < Pow128(left - 1);
        if left == 1 {
          assert Pow128(1) == 0x80 * Pow128(0);
        }
      } else {
        assert Pow128(left) >= 0x80;
      }
    }
  }

  /** What follows a varint does not change it. */
  lemma {:induction false} VarintPrefix(data: Bytes, rest: Bytes, left: nat)
    requires Varint(data, left).Some?
    ensures Varint(data + rest, left) == Varint(data, left)
  {
    assert (data + rest)[0] == data[0];
    assert (data + rest)[1..] == data[1..] + rest;
    if data[0] >= 0x80 {
      VarintPrefix(data[1..], rest, left - 1);
    }
  }

  /** One varint, and where it ended. */
  method ReadVarint(data: Bytes, start: nat) returns (decoded: Option<Decoded>)
    requires start <= |data|
    ensures decoded == Varint(data[start..], MAX_VARINT)
  {
    hide Varint, Shifted, Continued;
    var value: nat, shift: nat, at := 0, 0, start;
    NothingContinued(Varint(data[start..], MAX_VARINT));
    while true
      invariant start <= at <= |data| && shift == 7 * (at - start) && at - start <= MAX_VARINT
      invariant Varint(data[start..], MAX_VARINT) ==
                Continued(value, Shifted(shift), at - start, Varint(data[at..], MAX_VARINT - (at - start)))
      decreases |data| - at
    {
      if at >= |data| || shift > 63 {
        NothingLeft(data[at..], MAX_VARINT - (at - start), value, Shifted(shift), at - start);
        return None;
      }
      var byte := data[at];
      assert data[at..][1..] == data[at + 1..];
      ContinuedOnce(value, Shifted(shift), at - start, data[at..], MAX_VARINT - (at - start));
      value := value + byte % 0x80 * Shifted(shift);
      at := at + 1;
      if byte < 0x80 {
        return Some(Decoded(value, at - start));
      }
      ShiftedBySeven(shift);
      shift := shift + 7;
    }
  }

  lemma NothingContinued(rest: Option<Decoded>)
    ensures rest == Continued(0, Shifted(0), 0, rest)
  {
  }

  lemma NothingLeft(data: Bytes, left: nat, value: nat, scale: nat, length: nat)
    requires data == [] || left == 0
    ensures Continued(value, scale, length, Varint(data, left)) == None
  {
  }

  /** `1 << shift`. */
  function Shifted(shift: nat): nat {
    if shift == 0 then 1 else 2 * Shifted(shift - 1)
  }

  lemma ShiftedBySeven(shift: nat)
    ensures Shifted(shift + 7) == Shifted(shift) * 0x80
  {
    assert Shifted(shift + 2) == 2 * Shifted(shift + 1) == 4 * Shifted(shift);
    assert Shifted(shift + 4) == 2 * Shifted(shift + 3) == 4 * Shifted(shift + 2);
    assert Shifted(shift + 6) == 2 * Shifted(shift + 5) == 4 * Shifted(shift + 4);
  }

  /** A varint of which `length` bytes worth `value` have been read. */
  function Continued(value: nat, scale: nat, length: nat, rest: Option<Decoded>): Option<Decoded> {
    match rest
    case None => None
    case Some(more) => Some(Decoded(value + scale * more.value, length + more.length))
  }

  /** One more byte, of a value that goes on in what follows. */
  lemma ContinuedFurther(value: nat, scale: nat, length: nat, low: nat, rest: Option<Decoded>)
    ensures Continued(value, scale, length,
                      if rest.None? then None else Some(Decoded(low + 0x80 * rest.value.value, rest.value.length + 1))) ==
            Continued(value + low * scale, scale * 0x80, length + 1, rest)
  {
    if rest.Some? {
      Distributes(scale, low, rest.value.value);
    }
  }

  lemma VarintStep(data: Bytes, left: nat)
    requires data != [] && left > 0
    ensures Varint(data, left) ==
            if data[0] < 0x80 then Some(Decoded(data[0], 1))
            else
              var rest := Varint(data[1..], left - 1);
              if rest.None? then None else Some(Decoded(data[0] % 0x80 + 0x80 * rest.value.value, rest.value.length + 1))
  {
  }

  lemma ContinuedOnce(value: nat, scale: nat, length: nat, data: Bytes, left: nat)
    requires data != [] && left > 0
    ensures Continued(value, scale, length, Varint(data, left)) ==
            if data[0] < 0x80 then Some(Decoded(value + data[0] * scale, length + 1))
            else Continued(value + data[0] % 0x80 * scale, scale * 0x80, length + 1, Varint(data[1..], left - 1))
  {
    hide Varint;
    VarintStep(data, left);
    if data[0] >= 0x80 {
      hide Continued;
      ContinuedFurther(value, scale, length, data[0] % 0x80, Varint(data[1..], left - 1));
    }
  }

  lemma Distributes(scale: nat, low: nat, more: nat)
    ensures scale * (low + 0x80 * more) == low * scale + scale * 0x80 * more
  {
    assert scale * (0x80 * more) == scale * 0x80 * more;
  }

  method WriteVarint(value: nat) returns (out: Bytes)
    ensures out == VarintBytes(value)
  {
    out := [];
    var left := value;
    while true
      invariant out + VarintBytes(left) == VarintBytes(value)
      decreases left
    {
      var low := left % 0x80;
      left := left / 0x80;
      if left == 0 {
        return out + [low];
      }
      out := out + [low + 0x80];
    }
  }

  // Fields.

  /** One field at the front of a message: the field, unless it is a skipped fixed-width one, and how
      many bytes it takes. */
  datatype Front = Front(field: Option<Field>, length: nat)

  function FirstField(data: Bytes): (front: Option<Front>)
    ensures front.Some? ==> 0 < front.value.length <= |data|
  {
    match Varint(data, MAX_VARINT)
    case None => None
    case Some(tag) =>
      var number, kind, rest := tag.value / 8, tag.value % 8, data[tag.length..];
      if number == 0 then None
      else if kind == VARINT then
        match Varint(rest, MAX_VARINT)
        case None => None
        case Some(one) => Some(Front(Some(IntField(number, one.value)), tag.length + one.length))
      else if kind == LENGTH then
        match Varint(rest, MAX_VARINT)
        case None => None
        case Some(size) =>
          if size.length + size.value > |rest| then None
          else Some(Front(Some(BlobField(number, rest[size.length..size.length + size.value])),
                          tag.length + size.length + size.value))
      else
        var width := if kind == FIXED64 then 8 else if kind == FIXED32 then 4 else |rest| + 1;
        if width > |rest| then None else Some(Front(None, tag.length + width))
  }

  /** Every field of a message in order, or nothing if it is not one. */
  function Fields(data: Bytes): Option<seq<Field>>
    decreases |data|
  {
    if data == [] then Some([])
    else
      match FirstField(data)
      case None => None
      case Some(front) =>
        match Fields(data[front.length..])
        case None => None
        case Some(rest) => Some((if front.field.Some? then [front.field.value] else []) + rest)
  }

  lemma PrefixRest(data: Bytes, rest: Bytes, at: nat)
    requires at <= |data|
    ensures (data + rest)[at..] == data[at..] + rest
  {
  }

  lemma FirstFieldPrefix(data: Bytes, rest: Bytes)
    requires FirstField(data).Some?
    ensures FirstField(data + rest) == FirstField(data)
  {
    hide Varint, Pow128;
    VarintPrefix(data, rest, MAX_VARINT);
    var tag := Varint(data, MAX_VARINT).value;
    var tail := data[tag.length..];
    PrefixRest(data, rest, tag.length);
    var kind := tag.value % 8;
    if kind == VARINT || kind == LENGTH {
      VarintPrefix(tail, rest, MAX_VARINT);
      var size := Varint(tail, MAX_VARINT).value;
      if kind == LENGTH {
        assert (tail + rest)[size.length..size.length + size.value] == tail[size.length..size.length + size.value];
      }
    }
  }

  function Heading(front: Front): seq<Field> {
    if front.field.Some? then [front.field.value] else []
  }

  function Prepended(fields: seq<Field>, rest: Option<seq<Field>>): Option<seq<Field>> {
    if rest.Some? then Some(fields + rest.value) else None
  }

  lemma FieldsStep(data: Bytes)
    ensures data == [] ==> Fields(data) == Some([])
    ensures data != [] && FirstField(data).None? ==> Fields(data) == None
    ensures data != [] && FirstField(data).Some? ==>
              (var front := FirstField(data).value;
               Fields(data) == Prepended(Heading(front), Fields(data[front.length..])))
  {
  }

  lemma PrependTwice(a: seq<Field>, b: seq<Field>, rest: Option<seq<Field>>)
    ensures Prepended(a, Prepended(b, rest)) == Prepended(a + b, rest)
    ensures Prepended([], rest) == rest
  {
    if rest.Some? {
      assert a + (b + rest.value) == a + b + rest.value;
      assert [] + rest.value == rest.value;
    }
  }

  /** Messages written one after another hold the fields of the one and then of the other. */
  lemma {:induction false} FieldsOfConcatenation(a: Bytes, b: Bytes)
    requires Fields(a).Some?
    ensures Fields(a + b) == Prepended(Fields(a).value, Fields(b))
    decreases |a|
  {
    hide FirstField, Fields, Prepended, Heading;
    FieldsStep(a);
    if a == [] {
      assert a + b == b;
      PrependTwice([], [], Fields(b));
    } else {
      if FirstField(a).Some? {
        FirstFieldPrefix(a, b);
        var front := FirstField(a).value;
        FieldsStep(a + b);
        assert (a + b)[front.length..] == a[front.length..] + b;
        PrependedSome(Heading(front), Fields(a[front.length..]));
        FieldsOfConcatenation(a[front.length..], b);
        PrependTwice(Heading(front), Fields(a[front.length..]).value, Fields(b));
      }
    }
  }

  lemma PrependedSome(fields: seq<Field>, rest: Option<seq<Field>>)
    ensures Prepended(fields, rest).Some? <==> rest.Some?
    ensures rest.Some? ==> Prepended(fields, rest) == Some(fields + rest.value)
  {
  }

  method ReadFirst(data: Bytes, at: nat) returns (front: Option<Front>)
    requires at <= |data|
    ensures front == FirstField(data[at..])
  {
    hide Varint;
    var tag := ReadVarint(data, at);
    if tag.None? {
      return None;
    }
    var number, kind, after := tag.value.value / 8, tag.value.value % 8, at + tag.value.length;
    assert data[at..][tag.value.length..] == data[after..];
    if number == 0 {
      return None;
    }
    if kind == VARINT {
      var value := ReadVarint(data, after);
      if value.None? {
        return None;
      }
      return Some(Front(Some(IntField(number, value.value.value)), tag.value.length + value.value.length));
    }
    if kind == LENGTH {
      var length := ReadVarint(data, after);
      if length.None? || after + length.value.length + length.value.value > |data| {
        return None;
      }
      var from := after + length.value.length;
      var blob := data[from..from + length.value.value];
      assert data[after..][length.value.length..length.value.length + length.value.value] == blob;
      return Some(Front(Some(BlobField(number, blob)), tag.value.length + length.value.length + length.value.value));
    }
    if kind == FIXED64 || kind == FIXED32 {
      after := after + if kind == FIXED64 then 8 else 4;
      return if after > |data| then None else Some(Front(None, after - at));
    }
    return None;
  }

  /** Every field as its number and value, or nothing for bytes that are no message. */
  method ReadFields(data: Bytes) returns (found: Option<seq<Field>>)
    ensures found == Fields(data)
  {
    hide FirstField, Fields, Prepended, Heading;
    var at: nat, fields := 0, [];
    assert data[0..] == data;
    PrependTwice([], [], Fields(data));
    while at < |data|
      invariant at <= |data|
      invariant Fields(data) == Prepended(fields, Fields(data[at..]))
      decreases |data| - at
    {
      FieldsStep(data[at..]);
      PrependedSome(fields, Fields(data[at..]));
      var front := ReadFirst(data, at);
      if front.None? {
        return None;
      }
      assert data[at..][front.value.length..] == data[at + front.value.length..];
      PrependTwice(fields, Heading(front.value), Fields(data[at + front.value.length..]));
      fields := fields + Heading(front.value);
      at := at + front.value.length;
    }
    assert data[at..] == [];
    FieldsStep([]);
    PrependedSome(fields, Some([]));
    assert fields + [] == fields;
    return Some(fields);
  }

  // Writing fields.

  /** Numbers and lengths that a varint can hold. */
  predicate Fits(value: nat) {
    value < Pow128(MAX_VARINT)
  }

  lemma PowGrows(m: nat, n: nat)
    requires m <= n
    ensures Pow128(m) <= Pow128(n)
  {
    if m < n {
      PowGrows(m, n - 1);
    }
  }

  lemma SmallNumbersFit(value: nat)
    requires value < 0x80
    ensures Fits(value)
  {
    assert Pow128(1) == 0x80 * Pow128(0);
    PowGrows(1, MAX_VARINT);
  }

  function Tag(number: nat, kind: nat): Bytes {
    VarintBytes(number * 8 + kind)
  }

  /** A varint field, left out when it is zero. */
  function VarintField(number: nat, value: nat): Bytes {
    if value != 0 then Tag(number, VARINT) + VarintBytes(value) else []
  }

  function FlagField(number: nat, value: bool): Bytes {
    VarintField(number, if value then 1 else 0)
  }

  /** A nested message, written even when its body is empty. */
  function Submessage(number: nat, body: Bytes): Bytes {
    Tag(number, LENGTH) + VarintBytes(|body|) + body
  }

  /** A bytes field, left out when it is empty. */
  function BytesField(number: nat, value: Bytes): Bytes {
    if value != [] then Submessage(number, value) else []
  }

  function TextField(number: nat, value: string): Bytes
  {
    BytesField(number, Encoded(value))
  }

  /** A repeated numeric field the way proto3 writes one. */
  function PackedField(number: nat, values: seq<nat>): Bytes {
    BytesField(number, PackedVarints(values))
  }

  function PackedVarints(values: seq<nat>): Bytes {
    if values == [] then [] else VarintBytes(values[0]) + PackedVarints(values[1..])
  }

  /** Every varint in a packed field. */
  function UnpackVarints(data: Bytes): Option<seq<nat>>
    decreases |data|
  {
    if data == [] then Some([])
    else
      match Varint(data, MAX_VARINT)
      case None => None
      case Some(one) =>
        match UnpackVarints(data[one.length..])
        case None => None
        case Some(rest) => Some([one.value] + rest)
  }

  lemma {:induction false} PackedRoundTrip(values: seq<nat>)
    requires forall value :: value in values ==> Fits(value)
    ensures UnpackVarints(PackedVarints(values)) == Some(values)
  {
    if values != [] {
      var head, tail := VarintBytes(values[0]), PackedVarints(values[1..]);
      assert Fits(values[0]);
      VarintRoundTrip(values[0], tail, MAX_VARINT);
      assert PackedVarints(values) == head + tail && head + tail != [];
      assert (head + tail)[|head|..] == tail;
      PackedRoundTrip(values[1..]);
      assert [values[0]] + values[1..] == values;
    }
  }

  /** A field written out in full, defaults included. */
  function FieldBytes(field: Field): Bytes {
    match field
    case IntField(number, value) => Tag(number, VARINT) + VarintBytes(value)
    case BlobField(number, body) => Submessage(number, body)
  }

  function AllFieldBytes(fields: seq<Field>): Bytes {
    if fields == [] then [] else FieldBytes(fields[0]) + AllFieldBytes(fields[1..])
  }

  predicate FieldFits(field: Field) {
    0 < field.number && Fits(field.number * 8 + 7) && Fits(if field.IntField? then field.integer else |field.blob|)
  }

  lemma NumberFieldReads(field: Field, rest: Bytes)
    requires FieldFits(field) && field.IntField?
    ensures FirstField(FieldBytes(field) + rest) == Some(Front(Some(field), |FieldBytes(field)|))
  {
    hide Varint, VarintBytes, Pow128;
    var data := FieldBytes(field) + rest;
    var tag, value := VarintBytes(field.number * 8 + VARINT), VarintBytes(field.integer);
    assert data == tag + (value + rest);
    VarintRoundTrip(field.number * 8 + VARINT, value + rest, MAX_VARINT);
    assert data[|tag|..] == value + rest;
    VarintRoundTrip(field.integer, rest, MAX_VARINT);
  }

  lemma BlobFieldReads(field: Field, rest: Bytes)
    requires FieldFits(field) && field.BlobField?
    ensures FirstField(FieldBytes(field) + rest) == Some(Front(Some(field), |FieldBytes(field)|))
  {
    hide Varint, VarintBytes, Pow128;
    var data := FieldBytes(field) + rest;
    var tag, value := VarintBytes(field.number * 8 + LENGTH), VarintBytes(|field.blob|);
    assert data == tag + (value + (field.blob + rest));
    VarintRoundTrip(field.number * 8 + LENGTH, value + (field.blob + rest), MAX_VARINT);
    assert data[|tag|..] == value + (field.blob + rest);
    VarintRoundTrip(|field.blob|, field.blob + rest, MAX_VARINT);
    assert (value + (field.blob + rest))[|value|..|value| + |field.blob|] == field.blob;
  }

  lemma FieldRoundTrip(field: Field, rest: Bytes)
    requires FieldFits(field)
    ensures Fields(FieldBytes(field) + rest) == Prepended([field], Fields(rest))
  {
    hide Fields, Prepended, FieldBytes, FieldFits, FirstField;
    if field.IntField? {
      NumberFieldReads(field, rest);
    } else {
      BlobFieldReads(field, rest);
    }
    assert (FieldBytes(field) + rest)[|FieldBytes(field)|..] == rest;
    FieldsStep(FieldBytes(field) + rest);
  }

  /** Fields written one after another read back as themselves, whatever follows. */
  lemma {:induction false} FieldsRoundTrip(fields: seq<Field>, rest: Bytes)
    requires forall field :: field in fields ==> FieldFits(field)
    ensures Fields(AllFieldBytes(fields) + rest) == Prepended(fields, Fields(rest))
  {
    hide FieldBytes, Fields, Prepended, FieldFits;
    if fields == [] {
      assert AllFieldBytes(fields) + rest == rest;
      PrependTwice([], [], Fields(rest));
    } else {
      var tail := AllFieldBytes(fields[1..]) + rest;
      assert AllFieldBytes(fields) + rest == FieldBytes(fields[0]) + tail;
      FieldRoundTrip(fields[0], tail);
      FieldsRoundTrip(fields[1..], rest);
      PrependTwice([fields[0]], fields[1..], Fields(rest));
      assert [fields[0]] + fields[1..] == fields;
    }
  }

  lemma {:induction false} AllFieldBytesConcatenate(a: seq<Field>, b: seq<Field>)
    ensures AllFieldBytes(a + b) == AllFieldBytes(a) + AllFieldBytes(b)
  {
    if a == [] {
      assert a + b == b;
    } else {
      assert (a + b)[1..] == a[1..] + b;
      AllFieldBytesConcatenate(a[1..], b);
    }
  }

  // Reading a message by field number.

  /** The values of a field number, in order. */
  function Numbered(fields: seq<Field>, number: nat): seq<Field> {
    if fields == [] then []
    else (if fields[0].number == number then [fields[0]] else []) + Numbered(fields[1..], number)
  }

  function Ints(fields: seq<Field>, number: nat): seq<nat> {
    if fields == [] then []
    else (if fields[0].IntField? && fields[0].number == number then [fields[0].integer] else []) + Ints(fields[1..], number)
  }

  function Blobs(fields: seq<Field>, number: nat): seq<Bytes> {
    if fields == [] then []
    else (if fields[0].BlobField? && fields[0].number == number then [fields[0].blob] else []) + Blobs(fields[1..], number)
  }

  /** For a singular field the last value wins. */
  function Integer(fields: seq<Field>, number: nat): nat {
    var ints := Ints(fields, number);
    if ints == [] then 0 else ints[|ints| - 1]
  }

  function Flag(fields: seq<Field>, number: nat): bool {
    Integer(fields, number) != 0
  }

  function LastBlob(fields: seq<Field>, number: nat): Bytes {
    var blobs := Blobs(fields, number);
    if blobs == [] then [] else blobs[|blobs| - 1]
  }

  function Text(fields: seq<Field>, number: nat): string {
    Decode(LastBlob(fields, number))
  }

  lemma NoInts(number: nat)
    ensures Ints([], number) == []
  {
  }

  lemma FirstInts(fields: seq<Field>, number: nat)
    requires fields != []
    ensures Ints(fields, number) == Ints([fields[0]], number) + Ints(fields[1..], number)
  {
    var head := if fields[0].IntField? && fields[0].number == number then [fields[0].integer] else [];
    assert [fields[0]][1..] == [];
    assert Ints([fields[0]], number) == head + [] == head;
  }

  lemma {:induction false} ConcatenatedInts(a: seq<Field>, b: seq<Field>, number: nat)
    ensures Ints(a + b, number) == Ints(a, number) + Ints(b, number)
  {
    hide Ints;
    if a == [] {
      assert a + b == b;
      NoInts(number);
      assert [] + Ints(b, number) == Ints(b, number);
    } else {
      assert (a + b)[1..] == a[1..] + b;
      ConcatenatedInts(a[1..], b, number);
      var head := Ints([a[0]], number);
      FirstInts(a, number);
      FirstInts(a + b, number);
      assert head + (Ints(a[1..], number) + Ints(b, number)) == head + Ints(a[1..], number) + Ints(b, number);
    }
  }

  lemma NoBlobs(number: nat)
    ensures Blobs([], number) == []
  {
  }

  lemma FirstBlobs(fields: seq<Field>, number: nat)
    requires fields != []
    ensures Blobs(fields, number) == Blobs([fields[0]], number) + Blobs(fields[1..], number)
  {
    var head := if fields[0].BlobField? && fields[0].number == number then [fields[0].blob] else [];
    assert [fields[0]][1..] == [];
    assert Blobs([fields[0]], number) == head + [] == head;
  }

  lemma {:induction false} ConcatenatedBlobs(a: seq<Field>, b: seq<Field>, number: nat)
    ensures Blobs(a + b, number) == Blobs(a, number) + Blobs(b, number)
  {
    hide Blobs;
    if a == [] {
      assert a + b == b;
      NoBlobs(number);
      assert [] + Blobs(b, number) == Blobs(b, number);
    } else {
      assert (a + b)[1..] == a[1..] + b;
      ConcatenatedBlobs(a[1..], b, number);
      var head := Blobs([a[0]], number);
      FirstBlobs(a, number);
      FirstBlobs(a + b, number);
      assert head + (Blobs(a[1..], number) + Blobs(b, number)) == head + Blobs(a[1..], number) + Blobs(b, number);
    }
  }

  lemma NoNumbered(number: nat)
    ensures Numbered([], number) == []
  {
  }

  lemma FirstNumbered(fields: seq<Field>, number: nat)
    requires fields != []
    ensures Numbered(fields, number) == Numbered([fields[0]], number) + Numbered(fields[1..], number)
  {
    var head := if fields[0].number == number then [fields[0]] else [];
    assert [fields[0]][1..] == [];
    assert Numbered([fields[0]], number) == head + [] == head;
  }

  lemma {:induction false} ConcatenatedNumbered(a: seq<Field>, b: seq<Field>, number: nat)
    ensures Numbered(a + b, number) == Numbered(a, number) + Numbered(b, number)
  {
    hide Numbered;
    if a == [] {
      assert a + b == b;
      NoNumbered(number);
      assert [] + Numbered(b, number) == Numbered(b, number);
    } else {
      assert (a + b)[1..] == a[1..] + b;
      ConcatenatedNumbered(a[1..], b, number);
      var head := Numbered([a[0]], number);
      FirstNumbered(a, number);
      FirstNumbered(a + b, number);
      assert head + (Numbered(a[1..], number) + Numbered(b, number)) == head + Numbered(a[1..], number) + Numbered(b, number);
    }
  }

  lemma ConcatenatedValues(a: seq<Field>, b: seq<Field>, number: nat)
    ensures Ints(a + b, number) == Ints(a, number) + Ints(b, number)
    ensures Blobs(a + b, number) == Blobs(a, number) + Blobs(b, number)
    ensures Numbered(a + b, number) == Numbered(a, number) + Numbered(b, number)
  {
    hide Ints, Blobs, Numbered;
    ConcatenatedInts(a, b, number);
    ConcatenatedBlobs(a, b, number);
    ConcatenatedNumbered(a, b, number);
  }

  /** What an index of the first few fields holds. */
  ghost predicate Indexes(fields: seq<Field>, indexed: map<nat, seq<Field>>) {
    forall number: nat :: Numbered(fields, number) == if number in indexed then indexed[number] else []
  }

  lemma IndexesAnother(fields: seq<Field>, indexed: map<nat, seq<Field>>, field: Field)
    requires Indexes(fields, indexed)
    ensures Indexes(fields + [field],
                    indexed[field.number := (if field.number in indexed then indexed[field.number] else []) + [field]])
  {
    hide Numbered;
    forall number: nat
      ensures Numbered(fields + [field], number) == if number == field.number then Numbered(fields, number) + [field] else Numbered(fields, number)
    {
      ConcatenatedValues(fields, [field], number);
      OneNumbered(field, number);
      assert Numbered(fields, number) + [] == Numbered(fields, number);
    }
  }

  lemma OneNumbered(field: Field, number: nat)
    ensures Numbered([field], number) == if field.number == number then [field] else []
  {
    assert [field][1..] == [];
  }

  /** A parsed message: its values by field number, each list in the order the fields came. */
  method IndexFields(data: Bytes) returns (byNumber: Option<map<nat, seq<Field>>>)
    ensures byNumber.None? <==> Fields(data).None?
    ensures byNumber.Some? ==> Indexes(Fields(data).value, byNumber.value)
  {
    hide Indexes;
    var found := ReadFields(data);
    if found.None? {
      return None;
    }
    var fields := found.value;
    var indexed: map<nat, seq<Field>> := map[];
    assert Indexes(fields[..0], indexed) by { NothingIndexed(); }
    for i := 0 to |fields|
      invariant Indexes(fields[..i], indexed)
    {
      var number := fields[i].number;
      assert fields[..i + 1] == fields[..i] + [fields[i]];
      IndexesAnother(fields[..i], indexed, fields[i]);
      indexed := indexed[number := (if number in indexed then indexed[number] else []) + [fields[i]]];
    }
    assert fields[..|fields|] == fields;
    return Some(indexed);
  }

  lemma NothingIndexed()
    ensures Indexes([], map[])
  {
  }
}
