/** The messages of the Bazel Remote Execution API that a cache has to understand.

    Each message is parsed from the fields of a byte string and written as a concatenation of field
    writers. `None` stands for the parser's refusal of bytes that are no such message. */
module Reapi {
  import opened Bytes
  import opened Options
  import opened Utf8
  import opened Wire

  type Fieldset = seq<Field>

  // Digests.

  function DigestBytes(digest: Digest): Bytes
  {
    TextField(1, digest.hash) + VarintField(2, digest.size)
  }

  function DigestFrom(fields: Fieldset): Digest {
    Digest(Text(fields, 1), Integer(fields, 2))
  }

  function ParseDigest(data: Bytes): Option<Digest> {
    match Fields(data)
    case None => None
    case Some(fields) => Some(DigestFrom(fields))
  }

  /** The nested digest of a field number, if there is one; nothing if it does not parse. */
  function DigestOfChild(fields: Fieldset, number: nat): Option<Option<Digest>> {
    var bodies := Blobs(fields, number);
    if bodies == [] then Some(None)
    else
      match ParseDigest(bodies[|bodies| - 1])
      case None => None
      case Some(digest) => Some(Some(digest))
  }

  function ParseDigests(bodies: seq<Bytes>): Option<seq<Digest>> {
    if bodies == [] then Some([])
    else
      match (ParseDigest(bodies[0]), ParseDigests(bodies[1..]))
      case (Some(one), Some(rest)) => Some([one] + rest)
      case _ => None
  }

  /** The digests that each of these messages names in one of its fields, where it does. */
  function DigestsOfEach(bodies: seq<Bytes>, number: nat): Option<seq<Digest>> {
    if bodies == [] then Some([])
    else
      match (Fields(bodies[0]), DigestsOfEach(bodies[1..], number))
      case (Some(fields), Some(rest)) =>
        (match DigestOfChild(fields, number)
         case None => None
         case Some(None) => Some(rest)
         case Some(Some(digest)) => Some([digest] + rest))
      case _ => None
  }

  // Action results, kept as the bytes they arrived as.

  datatype ActionResult = ActionResult(raw: Bytes, files: seq<Digest>, trees: seq<Digest>,
                                       stdout: Option<Digest>, stderr: Option<Digest>)
  {
    /** Every digest this result names directly, tree contents aside. */
    function Named(): seq<Digest> {
      files + trees + OrNone(stdout) + OrNone(stderr)
    }
  }

  function OrNone(digest: Option<Digest>): seq<Digest> {
    if digest.Some? then [digest.value] else []
  }

  function ParseResult(data: Bytes): (result: Option<ActionResult>)
    ensures result.Some? ==> result.value.raw == data
  {
    match Fields(data)
    case None => None
    case Some(fields) =>
      match (DigestsOfEach(Blobs(fields, 2), 2), DigestsOfEach(Blobs(fields, 3), 3),
             DigestOfChild(fields, 6), DigestOfChild(fields, 8))
      case (Some(files), Some(trees), Some(stdout), Some(stderr)) => Some(ActionResult(data, files, trees, stdout, stderr))
      case _ => None
  }

  /** The digests of the files a directory lists. */
  function DirectoryFiles(bodies: seq<Bytes>): Option<seq<Digest>> {
    if bodies == [] then Some([])
    else
      match (Fields(bodies[0]), DirectoryFiles(bodies[1..]))
      case (Some(fields), Some(rest)) =>
        (match DigestsOfEach(Blobs(fields, 1), 2)
         case None => None
         case Some(files) => Some(files + rest))
      case _ => None
  }

  /** The digests of every file a Tree message lists, in its root and in its children. */
  function TreeFiles(data: Bytes): Option<seq<Digest>> {
    match Fields(data)
    case None => None
    case Some(fields) =>
      var roots := Blobs(fields, 1);
      DirectoryFiles((if roots == [] then [] else [roots[|roots| - 1]]) + Blobs(fields, 2))
  }

  // Requests and responses.

  datatype Status = Status(code: nat, message: string)

  const OK := 0

  function StatusBytes(status: Status): Bytes
  {
    VarintField(1, status.code) + TextField(2, status.message)
  }

  function ParseStatus(data: Bytes): Option<Status> {
    match Fields(data)
    case None => None
    case Some(fields) => Some(Status(Integer(fields, 1), Text(fields, 2)))
  }

  function RepeatedSubmessages(number: nat, bodies: seq<Bytes>): Bytes {
    if bodies == [] then [] else Submessage(number, bodies[0]) + RepeatedSubmessages(number, bodies[1..])
  }

  /** What FindMissingBlobs and BatchReadBlobs requests, and FindMissingBlobs responses, consist of. */
  function DigestListBytes(digests: seq<Digest>): Bytes
  {
    RepeatedSubmessages(2, seq(|digests|, i requires 0 <= i < |digests| => DigestBytes(digests[i])))
  }

  function ParseDigestList(data: Bytes): Option<seq<Digest>> {
    match Fields(data)
    case None => None
    case Some(fields) => ParseDigests(Blobs(fields, 2))
  }

  datatype UpdateActionResult = UpdateActionResult(action: Option<Digest>, result: Option<ActionResult>)

  function UpdateActionResultBytes(request: UpdateActionResult): Bytes
  {
    (if request.action.Some? then Submessage(2, DigestBytes(request.action.value)) else []) +
    (if request.result.Some? then Submessage(3, request.result.value.raw) else [])
  }

  function ParseUpdateActionResult(data: Bytes): Option<UpdateActionResult> {
    match Fields(data)
    case None => None
    case Some(fields) =>
      var results := Blobs(fields, 3);
      match DigestOfChild(fields, 2)
      case None => None
      case Some(action) =>
        if results == [] then Some(UpdateActionResult(action, None))
        else
          match ParseResult(results[|results| - 1])
          case None => None
          case Some(result) => Some(UpdateActionResult(action, Some(result)))
  }

  /** One blob in a batch, on the way in or out. */
  datatype BatchBlob = BatchBlob(digest: Option<Digest>, data: Bytes, status: Option<Status>)

  function DigestPart(digest: Option<Digest>): Bytes
  {
    if digest.Some? then Submessage(1, DigestBytes(digest.value)) else []
  }

  /** An entry of a BatchUpdateBlobs request. */
  function UploadBytes(blob: BatchBlob): Bytes
  {
    DigestPart(blob.digest) + BytesField(2, blob.data)
  }

  function ParseUpload(data: Bytes): Option<BatchBlob> {
    match Fields(data)
    case None => None
    case Some(fields) =>
      match DigestOfChild(fields, 1)
      case None => None
      case Some(digest) => Some(BatchBlob(digest, LastBlob(fields, 2), None))
  }

  /** An entry of a BatchReadBlobs response; a status left out is written as OK. */
  function AnswerBytes(blob: BatchBlob): Bytes
  {
    DigestPart(blob.digest) + BytesField(2, blob.data) +
    Submessage(3, StatusBytes(if blob.status.Some? then blob.status.value else Status(OK, "")))
  }

  function ParseAnswer(data: Bytes): Option<BatchBlob> {
    match Fields(data)
    case None => None
    case Some(fields) =>
      match (DigestOfChild(fields, 1), ParseStatus(LastBlob(fields, 3)))
      case (Some(digest), Some(status)) => Some(BatchBlob(digest, LastBlob(fields, 2), Some(status)))
      case _ => None
  }

  /** An entry of a BatchUpdateBlobs response: a blob without its bytes. */
  function ReceiptBytes(blob: BatchBlob): Bytes
  {
    DigestPart(blob.digest) + Submessage(2, StatusBytes(if blob.status.Some? then blob.status.value else Status(OK, "")))
  }

  function ParseReceipt(data: Bytes): Option<BatchBlob> {
    match Fields(data)
    case None => None
    case Some(fields) =>
      match (DigestOfChild(fields, 1), ParseStatus(LastBlob(fields, 2)))
      case (Some(digest), Some(status)) => Some(BatchBlob(digest, [], Some(status)))
      case _ => None
  }

  /** The three batches of blobs that are sent: what is uploaded, what came of that, what is read. */
  datatype Batch = Uploads | Receipts | Answers
  {
    function Number(): nat {
      if Uploads? then 2 else 1
    }

    function EntryBytes(blob: BatchBlob): Bytes
      {
      match this
      case Uploads => UploadBytes(blob)
      case Receipts => ReceiptBytes(blob)
      case Answers => AnswerBytes(blob)
    }

    function ParseEntry(data: Bytes): Option<BatchBlob> {
      match this
      case Uploads => ParseUpload(data)
      case Receipts => ParseReceipt(data)
      case Answers => ParseAnswer(data)
    }

    /** The blobs that this batch can carry whole. */
    predicate Carries(blob: BatchBlob) {
      && BlobFits(blob) && (blob.status.Some? <==> !Uploads?) && (Receipts? ==> blob.data == [])
      && Fits(|EntryBytes(blob)|)
    }
  }

  function BatchBytes(batch: Batch, blobs: seq<BatchBlob>): Bytes
  {
    RepeatedSubmessages(batch.Number(),
                        seq(|blobs|, i requires 0 <= i < |blobs| => batch.EntryBytes(blobs[i])))
  }

  function ParseEntries(batch: Batch, bodies: seq<Bytes>): Option<seq<BatchBlob>> {
    if bodies == [] then Some([])
    else
      match (batch.ParseEntry(bodies[0]), ParseEntries(batch, bodies[1..]))
      case (Some(one), Some(rest)) => Some([one] + rest)
      case _ => None
  }

  function ParseBatch(batch: Batch, data: Bytes): Option<seq<BatchBlob>> {
    match Fields(data)
    case None => None
    case Some(fields) => ParseEntries(batch, Blobs(fields, batch.Number()))
  }

  datatype WriteRequest = WriteRequest(resource: string, offset: nat, finish: bool, data: Bytes)

  function WriteRequestBytes(request: WriteRequest): Bytes
  {
    TextField(1, request.resource) + VarintField(2, request.offset) + FlagField(3, request.finish) +
    BytesField(10, request.data)
  }

  function ParseWriteRequest(data: Bytes): Option<WriteRequest> {
    match Fields(data)
    case None => None
    case Some(fields) =>
      Some(WriteRequest(Text(fields, 1), Integer(fields, 2), Flag(fields, 3), LastBlob(fields, 10)))
  }

  datatype ServerCapabilities = ServerCapabilities(maxBatch: nat, digestFunctions: seq<nat>)

  /** The cache half of the capabilities. */
  function CacheBytes(capabilities: ServerCapabilities): Bytes {
    PackedField(1, capabilities.digestFunctions) + Submessage(2, FlagField(1, true)) + VarintField(4, capabilities.maxBatch) +
    VarintField(5, 2)
  }

  function CapabilitiesBytes(capabilities: ServerCapabilities): Bytes {
    Submessage(1, CacheBytes(capabilities)) +
    Submessage(4, Version(2, 0)) + Submessage(5, Version(2, 3))
  }

  function Version(major: nat, minor: nat): Bytes {
    VarintField(1, major) + VarintField(2, minor)
  }

  function UnpackAll(blobs: seq<Bytes>): Option<seq<nat>> {
    if blobs == [] then Some([])
    else
      match (UnpackVarints(blobs[0]), UnpackAll(blobs[1..]))
      case (Some(one), Some(rest)) => Some(one + rest)
      case _ => None
  }

  function ParseCapabilities(data: Bytes): Option<ServerCapabilities> {
    match Fields(data)
    case None => None
    case Some(fields) =>
      match Fields(LastBlob(fields, 1))
      case None => None
      case Some(cache) =>
        match UnpackAll(Blobs(cache, 1))
        case None => None
        case Some(packed) => Some(ServerCapabilities(Integer(cache, 4), Ints(cache, 1) + packed))
  }

  // Round trips.

  /** Fields that a parser of these field numbers does not look at. */
  ghost predicate Unknown(extra: Bytes, numbers: set<nat>) {
    Fields(extra).Some? && forall field :: field in Fields(extra).value ==> field.number !in numbers
  }

  lemma {:induction false} UnknownValues(fields: Fieldset, number: nat)
    requires forall field :: field in fields ==> field.number != number
    ensures Ints(fields, number) == [] && Blobs(fields, number) == []
  {
    if fields != [] {
      UnknownValues(fields[1..], number);
    }
  }

  /** A message that was written field by field, with unknown fields after it: reading any of its own
      field numbers sees only what was written. */
  lemma Written(fields: Fieldset, extra: Bytes, numbers: set<nat>)
    requires Unknown(extra, numbers) && forall field :: field in fields ==> FieldFits(field)
    ensures Fields(AllFieldBytes(fields) + extra).Some?
    ensures forall number: nat :: number in numbers ==>
              Ints(Fields(AllFieldBytes(fields) + extra).value, number) == Ints(fields, number)
              && Blobs(Fields(AllFieldBytes(fields) + extra).value, number) == Blobs(fields, number)
  {
    hide FieldFits, Ints, Blobs, AllFieldBytes;
    FieldsRoundTrip(fields, extra);
    var more := Fields(extra).value;
    PrependedSome(fields, Fields(extra));
    forall number: nat | number in numbers
      ensures Ints(fields + more, number) == Ints(fields, number)
      ensures Blobs(fields + more, number) == Blobs(fields, number)
    {
      ConcatenatedValues(fields, more, number);
      UnknownValues(more, number);
      assert Ints(fields, number) + [] == Ints(fields, number);
      assert Blobs(fields, number) + [] == Blobs(fields, number);
    }
  }

  /** One writer call: an integer or a byte string left out at its default, or a nested message. */
  datatype Part = IntPart(number: nat, integer: nat) | BlobPart(number: nat, blob: Bytes) | BodyPart(number: nat, body: Bytes)

  function PartBytes(part: Part): Bytes {
    match part
    case IntPart(number, value) => VarintField(number, value)
    case BlobPart(number, value) => BytesField(number, value)
    case BodyPart(number, body) => Submessage(number, body)
  }

  function PartFields(part: Part): Fieldset {
    match part
    case IntPart(number, value) => if value != 0 then [IntField(number, value)] else []
    case BlobPart(number, value) => if value != [] then [BlobField(number, value)] else []
    case BodyPart(number, body) => [BlobField(number, body)]
  }

  function PartInts(part: Part, number: nat): seq<nat> {
    if part.IntPart? && part.number == number && part.integer != 0 then [part.integer] else []
  }

  function PartBlobs(part: Part, number: nat): seq<Bytes> {
    if part.number != number then []
    else
      match part
      case IntPart(_, _) => []
      case BlobPart(_, value) => if value != [] then [value] else []
      case BodyPart(_, body) => [body]
  }

  predicate PartFits(part: Part) {
    0 < part.number <= 10 &&
    match part
    case IntPart(_, value) => Fits(value)
    case BlobPart(_, value) => Fits(|value|)
    case BodyPart(_, body) => Fits(|body|)
  }

  function PartsBytes(parts: seq<Part>): Bytes {
    if parts == [] then [] else PartBytes(parts[0]) + PartsBytes(parts[1..])
  }

  function PartsFields(parts: seq<Part>): Fieldset {
    if parts == [] then [] else PartFields(parts[0]) + PartsFields(parts[1..])
  }

  function PartsInts(parts: seq<Part>, number: nat): seq<nat> {
    if parts == [] then [] else PartInts(parts[0], number) + PartsInts(parts[1..], number)
  }

  function PartsBlobs(parts: seq<Part>, number: nat): seq<Bytes> {
    if parts == [] then [] else PartBlobs(parts[0], number) + PartsBlobs(parts[1..], number)
  }

  lemma PartRead(part: Part)
    ensures AllFieldBytes(PartFields(part)) == PartBytes(part)
    ensures forall number: nat :: Ints(PartFields(part), number) == PartInts(part, number)
    ensures forall number: nat :: Blobs(PartFields(part), number) == PartBlobs(part, number)
    ensures PartFits(part) ==> forall field :: field in PartFields(part) ==> FieldFits(field)
  {
    hide Tag, VarintBytes;
    assert AllFieldBytes([]) == [];
    match part
    case IntPart(number, value) =>
      if PartFits(part) {
        SmallNumbersFit(number * 8 + 7);
      }
      assert AllFieldBytes([IntField(number, value)]) == FieldBytes(IntField(number, value)) + [];
    case BlobPart(number, value) =>
      if PartFits(part) {
        SmallNumbersFit(number * 8 + 7);
      }
      assert AllFieldBytes([BlobField(number, value)]) == FieldBytes(BlobField(number, value)) + [];
    case BodyPart(number, value) =>
      if PartFits(part) {
        SmallNumbersFit(number * 8 + 7);
      }
      assert AllFieldBytes([BlobField(number, value)]) == FieldBytes(BlobField(number, value)) + [];
  }

  lemma {:induction false} PartsReadAsFields(parts: seq<Part>)
    requires forall i :: 0 <= i < |parts| ==> PartFits(parts[i])
    ensures AllFieldBytes(PartsFields(parts)) == PartsBytes(parts)
    ensures forall number: nat :: Ints(PartsFields(parts), number) == PartsInts(parts, number)
    ensures forall number: nat :: Blobs(PartsFields(parts), number) == PartsBlobs(parts, number)
    ensures forall field :: field in PartsFields(parts) ==> FieldFits(field)
  {
    hide PartBytes, PartFields, PartInts, PartBlobs, FieldFits, AllFieldBytes, Ints, Blobs;
    if parts == [] {
      NoFields();
    } else {
      PartRead(parts[0]);
      PartsReadAsFields(parts[1..]);
      AllFieldBytesConcatenate(PartFields(parts[0]), PartsFields(parts[1..]));
      forall number: nat
        ensures Ints(PartsFields(parts), number) == PartsInts(parts, number)
        ensures Blobs(PartsFields(parts), number) == PartsBlobs(parts, number)
      {
        ConcatenatedValues(PartFields(parts[0]), PartsFields(parts[1..]), number);
      }
    }
  }

  lemma NoFields()
    ensures AllFieldBytes([]) == [] && forall number: nat :: Ints([], number) == [] && Blobs([], number) == []
  {
  }

  /** Whatever a message is written from, with unknown fields after it, is what its own field numbers
      read back as. */
  lemma PartsRoundTrip(parts: seq<Part>, extra: Bytes, numbers: set<nat>)
    requires Unknown(extra, numbers) && forall i :: 0 <= i < |parts| ==> PartFits(parts[i])
    ensures Fields(PartsBytes(parts) + extra).Some?
    ensures forall number: nat :: number in numbers ==>
              Ints(Fields(PartsBytes(parts) + extra).value, number) == PartsInts(parts, number)
              && Blobs(Fields(PartsBytes(parts) + extra).value, number) == PartsBlobs(parts, number)
  {
    hide PartsBytes, PartsInts, PartsBlobs, PartsFields, FieldFits, Ints, Blobs, AllFieldBytes, Fields, PartFits;
    PartsReadAsFields(parts);
    Written(PartsFields(parts), extra, numbers);
  }

  lemma UpToFour(a: Part, b: Part, c: Part, d: Part, number: nat)
    ensures PartsBytes([a]) == PartBytes(a) && PartsBytes([a, b]) == PartBytes(a) + PartBytes(b)
    ensures PartsBytes([a, b, c]) == PartBytes(a) + PartBytes(b) + PartBytes(c)
    ensures PartsBytes([a, b, c, d]) == PartBytes(a) + PartBytes(b) + PartBytes(c) + PartBytes(d)
    ensures PartsInts([a], number) == PartInts(a, number)
    ensures PartsInts([a, b], number) == PartInts(a, number) + PartInts(b, number)
    ensures PartsInts([a, b, c], number) == PartInts(a, number) + PartInts(b, number) + PartInts(c, number)
    ensures PartsInts([a, b, c, d], number) ==
            PartInts(a, number) + PartInts(b, number) + PartInts(c, number) + PartInts(d, number)
    ensures PartsBlobs([a], number) == PartBlobs(a, number)
    ensures PartsBlobs([a, b], number) == PartBlobs(a, number) + PartBlobs(b, number)
    ensures PartsBlobs([a, b, c], number) == PartBlobs(a, number) + PartBlobs(b, number) + PartBlobs(c, number)
    ensures PartsBlobs([a, b, c, d], number) ==
            PartBlobs(a, number) + PartBlobs(b, number) + PartBlobs(c, number) + PartBlobs(d, number)
  {
    hide PartBytes, PartInts, PartBlobs, PartsBytes, PartsInts, PartsBlobs;
    NoParts();
    assert [] + [a] == [a] && [a] + [b] == [a, b] && [a, b] + [c] == [a, b, c] && [a, b, c] + [d] == [a, b, c, d];
    OneMorePart([], a, number);
    OneMorePart([a], b, number);
    OneMorePart([a, b], c, number);
    OneMorePart([a, b, c], d, number);
  }

  lemma {:induction false} OneMorePart(parts: seq<Part>, part: Part, number: nat)
    ensures PartsBytes(parts + [part]) == PartsBytes(parts) + PartBytes(part)
    ensures PartsInts(parts + [part], number) == PartsInts(parts, number) + PartInts(part, number)
    ensures PartsBlobs(parts + [part], number) == PartsBlobs(parts, number) + PartBlobs(part, number)
  {
    hide PartBytes, PartInts, PartBlobs;
    if parts == [] {
      assert [] + [part] == [part] && [part][1..] == [];
    } else {
      assert (parts + [part])[1..] == parts[1..] + [part];
      OneMorePart(parts[1..], part, number);
      assert PartBytes(parts[0]) + (PartsBytes(parts[1..]) + PartBytes(part)) == PartsBytes(parts) + PartBytes(part);
      assert PartInts(parts[0], number) + (PartsInts(parts[1..], number) + PartInts(part, number)) ==
             PartsInts(parts, number) + PartInts(part, number);
      assert PartBlobs(parts[0], number) + (PartsBlobs(parts[1..], number) + PartBlobs(part, number)) ==
             PartsBlobs(parts, number) + PartBlobs(part, number);
    }
  }

  /** Digests whose hash and size a message can carry. */
  predicate DigestFits(digest: Digest) {
    Fits(|Encoded(digest.hash)|) && Fits(digest.size)
  }

  lemma DigestRoundTrip(digest: Digest, extra: Bytes)
    requires DigestFits(digest) && Unknown(extra, {1, 2})
    ensures ParseDigest(DigestBytes(digest) + extra) == Some(digest)
  {
    hide Fields, Fits, VarintBytes, Tag, Ints, Blobs, Decode, Encoded, PartsBytes, PartsInts, PartsBlobs;
    var hash, size := BlobPart(1, Encoded(digest.hash)), IntPart(2, digest.size);
    TextRoundTrip(digest.hash);
    PartsRoundTrip([hash, size], extra, {1, 2});
    UpToFour(hash, size, size, size, 1);
    UpToFour(hash, size, size, size, 2);
  }

  lemma NothingUnknown(numbers: set<nat>)
    ensures Unknown([], numbers)
  {
  }

  lemma DigestParses(digest: Digest)
    requires DigestFits(digest)
    ensures ParseDigest(DigestBytes(digest)) == Some(digest)
  {
    NothingUnknown({1, 2});
    DigestRoundTrip(digest, []);
    assert DigestBytes(digest) + [] == DigestBytes(digest);
  }

  lemma StatusParses(status: Status)
    requires Fits(status.code) && Fits(|Encoded(status.message)|)
    ensures ParseStatus(StatusBytes(status)) == Some(status)
  {
    hide Fields, Fits, VarintBytes, Tag, Ints, Blobs, Decode, Encoded, PartsBytes, PartsInts, PartsBlobs;
    NothingUnknown({1, 2});
    var code, message := IntPart(1, status.code), BlobPart(2, Encoded(status.message));
    TextRoundTrip(status.message);
    PartsRoundTrip([code, message], [], {1, 2});
    UpToFour(code, message, code, code, 1);
    UpToFour(code, message, code, code, 2);
    assert StatusBytes(status) + [] == StatusBytes(status);
  }

  function BodyParts(number: nat, bodies: seq<Bytes>): seq<Part> {
    if bodies == [] then [] else [BodyPart(number, bodies[0])] + BodyParts(number, bodies[1..])
  }

  lemma {:induction false} RepeatedAreParts(number: nat, bodies: seq<Bytes>, other: nat)
    requires 0 < number <= 10 && forall i :: 0 <= i < |bodies| ==> Fits(|bodies[i]|)
    ensures RepeatedSubmessages(number, bodies) == PartsBytes(BodyParts(number, bodies))
    ensures PartsBlobs(BodyParts(number, bodies), other) == if other == number then bodies else []
    ensures forall i :: 0 <= i < |BodyParts(number, bodies)| ==> PartFits(BodyParts(number, bodies)[i])
  {
    hide Submessage, Fits;
    if bodies != [] {
      RepeatedAreParts(number, bodies[1..], other);
      var parts := BodyParts(number, bodies);
      assert parts[0] == BodyPart(number, bodies[0]) && parts[1..] == BodyParts(number, bodies[1..]);
      assert [bodies[0]] + bodies[1..] == bodies;
    }
  }

  lemma {:induction false} DigestsParse(digests: seq<Digest>, bodies: seq<Bytes>)
    requires |bodies| == |digests|
    requires forall i :: 0 <= i < |digests| ==> DigestFits(digests[i]) && bodies[i] == DigestBytes(digests[i])
    ensures ParseDigests(bodies) == Some(digests)
  {
    hide DigestBytes, ParseDigest, DigestFits;
    if digests != [] {
      DigestParses(digests[0]);
      DigestsParse(digests[1..], bodies[1..]);
      assert [digests[0]] + digests[1..] == digests;
    }
  }

  /** A list of digests reads back as the list, with unknown fields after it. */
  lemma DigestListRoundTrip(digests: seq<Digest>, extra: Bytes)
    requires forall i :: 0 <= i < |digests| ==> DigestFits(digests[i]) && Fits(|DigestBytes(digests[i])|)
    requires Unknown(extra, {2})
    ensures ParseDigestList(DigestListBytes(digests) + extra) == Some(digests)
  {
    hide Fields, Fits, VarintBytes, Tag, Ints, Blobs, PartsBytes, PartsInts, PartsBlobs, DigestBytes, RepeatedSubmessages;
    var bodies := seq(|digests|, i requires 0 <= i < |digests| => DigestBytes(digests[i]));
    RepeatedAreParts(2, bodies, 2);
    PartsRoundTrip(BodyParts(2, bodies), extra, {2});
    DigestsParse(digests, bodies);
  }

  predicate BlobFits(blob: BatchBlob) {
    && (blob.digest.Some? ==> DigestFits(blob.digest.value) && Fits(|DigestBytes(blob.digest.value)|))
    && Fits(|blob.data|)
    && (blob.status.Some? ==>
          Fits(blob.status.value.code) && Fits(|Encoded(blob.status.value.message)|)
          && Fits(|StatusBytes(blob.status.value)|))
  }

  /** An entry of an upload reads back as itself: a missing digest stays missing. */
  lemma UploadRoundTrip(blob: BatchBlob, extra: Bytes)
    requires BlobFits(blob) && blob.status.None? && Unknown(extra, {1, 2})
    ensures ParseUpload(UploadBytes(blob) + extra) == Some(blob)
  {
    hide Fields, Fits, VarintBytes, Tag, Ints, Blobs, PartsBytes, PartsInts, PartsBlobs, DigestBytes, ParseDigest, Submessage;
    var data := BlobPart(2, blob.data);
    if blob.digest.Some? {
      var digest := BodyPart(1, DigestBytes(blob.digest.value));
      PartsRoundTrip([digest, data], extra, {1, 2});
      UpToFour(digest, data, data, data, 1);
      UpToFour(digest, data, data, data, 2);
      DigestParses(blob.digest.value);
    } else {
      PartsRoundTrip([data], extra, {1, 2});
      UpToFour(data, data, data, data, 1);
      UpToFour(data, data, data, data, 2);
      assert [] + BytesField(2, blob.data) == BytesField(2, blob.data);
    }
  }

  /** An answered blob reads back as itself, its status set. */
  lemma AnswerRoundTrip(blob: BatchBlob, extra: Bytes)
    requires BlobFits(blob) && blob.status.Some? && Unknown(extra, {1, 2, 3})
    ensures ParseAnswer(AnswerBytes(blob) + extra) == Some(blob)
  {
    hide Fields, Fits, VarintBytes, Tag, Ints, Blobs, PartsBytes, PartsInts, PartsBlobs, DigestBytes, ParseDigest,
         StatusBytes, ParseStatus, Submessage;
    var data, status := BlobPart(2, blob.data), BodyPart(3, StatusBytes(blob.status.value));
    StatusParses(blob.status.value);
    if blob.digest.Some? {
      var digest := BodyPart(1, DigestBytes(blob.digest.value));
      PartsRoundTrip([digest, data, status], extra, {1, 2, 3});
      UpToFour(digest, data, status, data, 1);
      UpToFour(digest, data, status, data, 2);
      UpToFour(digest, data, status, data, 3);
      DigestParses(blob.digest.value);
    } else {
      PartsRoundTrip([data, status], extra, {1, 2, 3});
      UpToFour(data, status, data, data, 1);
      UpToFour(data, status, data, data, 2);
      UpToFour(data, status, data, data, 3);
      assert [] + BytesField(2, blob.data) == BytesField(2, blob.data);
    }
  }

  /** An answered upload reads back as itself. */
  lemma ReceiptRoundTrip(blob: BatchBlob, extra: Bytes)
    requires BlobFits(blob) && blob.status.Some? && blob.data == [] && Unknown(extra, {1, 2})
    ensures ParseReceipt(ReceiptBytes(blob) + extra) == Some(blob)
  {
    hide Fields, Fits, VarintBytes, Tag, Ints, Blobs, PartsBytes, PartsInts, PartsBlobs, DigestBytes, ParseDigest,
         StatusBytes, ParseStatus, Submessage;
    var status := BodyPart(2, StatusBytes(blob.status.value));
    StatusParses(blob.status.value);
    if blob.digest.Some? {
      var digest := BodyPart(1, DigestBytes(blob.digest.value));
      PartsRoundTrip([digest, status], extra, {1, 2});
      UpToFour(digest, status, status, status, 1);
      UpToFour(digest, status, status, status, 2);
      DigestParses(blob.digest.value);
    } else {
      PartsRoundTrip([status], extra, {1, 2});
      UpToFour(status, status, status, status, 1);
      UpToFour(status, status, status, status, 2);
      assert [] + PartBytes(status) == PartBytes(status);
    }
  }

  lemma EntryParses(batch: Batch, blob: BatchBlob)
    requires batch.Carries(blob)
    ensures batch.ParseEntry(batch.EntryBytes(blob)) == Some(blob)
  {
    hide Fields, DigestBytes, ParseUpload, ParseReceipt, ParseAnswer, UploadBytes, ReceiptBytes, AnswerBytes, Fits, StatusBytes;
    var body := batch.EntryBytes(blob);
    NothingUnknown({1, 2});
    NothingUnknown({1, 2, 3});
    assert body + [] == body;
    match batch
    case Uploads => UploadRoundTrip(blob, []);
    case Receipts => ReceiptRoundTrip(blob, []);
    case Answers => AnswerRoundTrip(blob, []);
  }

  lemma {:induction false} EntriesParse(batch: Batch, blobs: seq<BatchBlob>, bodies: seq<Bytes>)
    requires |bodies| == |blobs|
    requires forall i :: 0 <= i < |blobs| ==> batch.Carries(blobs[i]) && bodies[i] == batch.EntryBytes(blobs[i])
    ensures ParseEntries(batch, bodies) == Some(blobs)
  {
    hide UploadBytes, ReceiptBytes, AnswerBytes, ParseUpload, ParseReceipt, ParseAnswer, BlobFits;
    if blobs != [] {
      EntryParses(batch, blobs[0]);
      EntriesParse(batch, blobs[1..], bodies[1..]);
      assert [blobs[0]] + blobs[1..] == blobs;
    }
  }

  /** A batch of blobs reads back as the batch: every blob in its place, with unknown fields after it. */
  lemma BatchRoundTrip(batch: Batch, blobs: seq<BatchBlob>, extra: Bytes)
    requires forall i :: 0 <= i < |blobs| ==> batch.Carries(blobs[i])
    requires Unknown(extra, {batch.Number()})
    ensures ParseBatch(batch, BatchBytes(batch, blobs) + extra) == Some(blobs)
  {
    hide Fields, Fits, VarintBytes, Tag, Ints, Blobs, PartsBytes, PartsInts, PartsBlobs, RepeatedSubmessages, BlobFits, ParseEntries;
    var number := batch.Number();
    var bodies := seq(|blobs|, i requires 0 <= i < |blobs| => batch.EntryBytes(blobs[i]));
    forall i | 0 <= i < |bodies|
      ensures Fits(|bodies[i]|)
    {
      assert batch.Carries(blobs[i]);
    }
    RepeatedAreParts(number, bodies, number);
    PartsRoundTrip(BodyParts(number, bodies), extra, {number});
    EntriesParse(batch, blobs, bodies);
  }

  /** An upload of a result carries the result's own bytes through. */
  lemma UpdateActionResultRoundTrip(request: UpdateActionResult, extra: Bytes)
    requires request.action.Some? ==> DigestFits(request.action.value) && Fits(|DigestBytes(request.action.value)|)
    requires request.result.Some? ==>
               Fits(|request.result.value.raw|) && ParseResult(request.result.value.raw) == request.result
    requires Unknown(extra, {2, 3})
    ensures ParseUpdateActionResult(UpdateActionResultBytes(request) + extra) == Some(request)
  {
    hide Fields, Fits, VarintBytes, Tag, Ints, Blobs, PartsBytes, PartsInts, PartsBlobs, DigestBytes, ParseDigest,
         ParseResult, Submessage;
    var a := if request.action.Some? then BodyPart(2, DigestBytes(request.action.value)) else IntPart(1, 0);
    var b := if request.result.Some? then BodyPart(3, request.result.value.raw) else IntPart(1, 0);
    var parts := (if request.action.Some? then [a] else []) + (if request.result.Some? then [b] else []);
    PartsRoundTrip(parts, extra, {2, 3});
    if request.action.Some? {
      DigestParses(request.action.value);
      UpToFour(a, b, b, b, 2);
      UpToFour(a, b, b, b, 3);
      assert parts == if request.result.Some? then [a, b] else [a];
    } else if request.result.Some? {
      UpToFour(b, b, b, b, 2);
      UpToFour(b, b, b, b, 3);
      assert parts == [b];
    } else {
      NoParts();
    }
    assert UpdateActionResultBytes(request) == PartsBytes(parts);
  }

  lemma NoParts()
    ensures PartsBytes([]) == []
    ensures forall number: nat :: PartsInts([], number) == [] && PartsBlobs([], number) == []
  {
  }

  /** Of four writer calls with numbers of their own, each number reads back what its call wrote. */
  lemma EachReadsBack(a: Part, b: Part, c: Part, d: Part, which: Part, extra: Bytes, numbers: set<nat>)
    requires PartFits(a) && PartFits(b) && PartFits(c) && PartFits(d)
    requires a.number != b.number && a.number != c.number && a.number != d.number
    requires b.number != c.number && b.number != d.number && c.number != d.number
    requires which == a || which == b || which == c || which == d
    requires Unknown(extra, numbers) && which.number in numbers
    ensures PartsBytes([a, b, c, d]) == PartBytes(a) + PartBytes(b) + PartBytes(c) + PartBytes(d)
    ensures Fields(PartsBytes([a, b, c, d]) + extra).Some?
    ensures var fields := Fields(PartsBytes([a, b, c, d]) + extra).value;
            Ints(fields, which.number) == PartInts(which, which.number) && Blobs(fields, which.number) == PartBlobs(which, which.number)
  {
    hide Fields, Ints, Blobs, PartsBytes, PartsInts, PartsBlobs, PartBytes, PartFits, Unknown;
    PartsRoundTrip([a, b, c, d], extra, numbers);
    UpToFour(a, b, c, d, which.number);
  }

  lemma WriteRequestRoundTrip(request: WriteRequest, extra: Bytes)
    requires Fits(|Encoded(request.resource)|) && Fits(request.offset) && Fits(|request.data|)
    requires Unknown(extra, {1, 2, 3, 10})
    ensures ParseWriteRequest(WriteRequestBytes(request) + extra) == Some(request)
  {
    hide Fields, VarintBytes, Tag, Ints, Blobs, PartsBytes, PartsInts, PartsBlobs, Submessage, Encoded, Decode, Pow128,
         Unknown, VarintField, BytesField;
    var a, b := BlobPart(1, Encoded(request.resource)), IntPart(2, request.offset);
    var c, d := IntPart(3, if request.finish then 1 else 0), BlobPart(10, request.data);
    TextRoundTrip(request.resource);
    SmallNumbersFit(1);
    EachReadsBack(a, b, c, d, a, extra, {1, 2, 3, 10});
    EachReadsBack(a, b, c, d, b, extra, {1, 2, 3, 10});
    EachReadsBack(a, b, c, d, c, extra, {1, 2, 3, 10});
    EachReadsBack(a, b, c, d, d, extra, {1, 2, 3, 10});
  }

  /** They say that versions 2.0 to 2.3 are spoken. */
  lemma CapabilitiesNameVersions(capabilities: ServerCapabilities, extra: Bytes)
    requires Fits(|CacheBytes(capabilities)|) && Unknown(extra, {4, 5})
    ensures var fields := Fields(CapabilitiesBytes(capabilities) + extra);
            fields.Some? && Blobs(fields.value, 4) == [Version(2, 0)] && Blobs(fields.value, 5) == [Version(2, 3)]
  {
    hide Fields, Ints, Blobs, PartsBytes, PartsInts, PartsBlobs, Submessage, Fits, Version, CacheBytes;
    VersionFits(2, 0);
    VersionFits(2, 3);
    var a, b, c := BodyPart(1, CacheBytes(capabilities)), BodyPart(4, Version(2, 0)), BodyPart(5, Version(2, 3));
    PartsRoundTrip([a, b, c], extra, {4, 5});
    UpToFour(a, b, c, c, 4);
    UpToFour(a, b, c, c, 5);
  }

  /** A version reads back as its two numbers. */
  lemma VersionReadsBack(major: nat, minor: nat)
    requires Fits(major) && Fits(minor)
    ensures var fields := Fields(Version(major, minor));
            fields.Some? && Integer(fields.value, 1) == major && Integer(fields.value, 2) == minor
  {
    hide Fields, VarintField, Ints, Blobs, PartsBytes, PartsInts, PartsBlobs, Fits;
    NothingUnknown({1, 2});
    var a, b := IntPart(1, major), IntPart(2, minor);
    PartsRoundTrip([a, b], [], {1, 2});
    UpToFour(a, b, a, a, 1);
    UpToFour(a, b, a, a, 2);
    assert Version(major, minor) + [] == Version(major, minor);
  }

  /** The digest functions may come packed, in one field or several, or one by one, or both: all are read, the
      single ones first. */
  lemma FunctionsInAnyForm(data: Bytes, cache: Fieldset, a: seq<nat>, b: seq<nat>)
    requires Fields(data).Some? && Fields(LastBlob(Fields(data).value, 1)) == Some(cache)
    requires Blobs(cache, 1) == [PackedVarints(a), PackedVarints(b)] && forall value :: value in a + b ==> Fits(value)
    ensures ParseCapabilities(data) == Some(ServerCapabilities(Integer(cache, 4), Ints(cache, 1) + (a + b)))
  {
    hide Fields, PackedVarints, UnpackVarints, Fits;
    PackedRoundTrip(a);
    PackedRoundTrip(b);
    assert [PackedVarints(a), PackedVarints(b)][1..] == [PackedVarints(b)] && [PackedVarints(b)][1..] == [];
    assert UnpackAll([]) == Some([]) && UnpackAll([PackedVarints(b)]) == Some(b + []) && b + [] == b;
    assert UnpackAll(Blobs(cache, 1)) == Some(a + b);
  }

  lemma VersionFits(major: nat, minor: nat)
    requires major < 0x80 && minor < 0x80
    ensures Fits(|Version(major, minor)|)
  {
    assert VarintBytes(1 * 8) == [8] && VarintBytes(2 * 8) == [16];
    assert |VarintBytes(major)| == 1 && |VarintBytes(minor)| == 1;
    SmallNumbersFit(|Version(major, minor)|);
  }

  /** What the cache advertises reads back as the batch limit and the digest functions, packed or
      not. */
  lemma CacheReadsBack(capabilities: ServerCapabilities)
    requires Fits(capabilities.maxBatch) && Fits(|PackedVarints(capabilities.digestFunctions)|)
    requires forall value :: value in capabilities.digestFunctions ==> Fits(value)
    ensures Fields(CacheBytes(capabilities)).Some?
    ensures var cache := Fields(CacheBytes(capabilities)).value;
            && Integer(cache, 4) == capabilities.maxBatch && Ints(cache, 1) == []
            && UnpackAll(Blobs(cache, 1)) == Some(capabilities.digestFunctions)
  {
    hide Fields, VarintBytes, Tag, Ints, Blobs, PartsBytes, PartsInts, PartsBlobs, Submessage, Pow128, Fits, PackedVarints, UnpackVarints,
         UnpackAll;
    var functions := PackedVarints(capabilities.digestFunctions);
    SmallNumbersFit(2);
    EnabledFits();
    var a, b := BlobPart(1, functions), BodyPart(2, FlagField(1, true));
    var c, d := IntPart(4, capabilities.maxBatch), IntPart(5, 2);
    NothingUnknown({1, 4});
    PartsRoundTrip([a, b, c, d], [], {1, 4});
    UpToFour(a, b, c, d, 1);
    UpToFour(a, b, c, d, 4);
    assert CacheBytes(capabilities) + [] == PartsBytes([a, b, c, d]);
    assert CacheBytes(capabilities) + [] == CacheBytes(capabilities);
    PackedRoundTrip(capabilities.digestFunctions);
    UnpackOne(functions, capabilities.digestFunctions);
    NoVarints(capabilities.digestFunctions);
    var cache := Fields(CacheBytes(capabilities)).value;
    assert Blobs(cache, 1) == if functions == [] then [] else [functions];
  }

  lemma CapabilitiesRoundTrip(capabilities: ServerCapabilities, extra: Bytes)
    requires Fits(capabilities.maxBatch) && Unknown(extra, {1})
    requires forall value :: value in capabilities.digestFunctions ==> Fits(value)
    requires Fits(|PackedVarints(capabilities.digestFunctions)|)
    requires Fits(|CacheBytes(capabilities)|)
    ensures ParseCapabilities(CapabilitiesBytes(capabilities) + extra) == Some(capabilities)
  {
    hide Fields, VarintBytes, Tag, Ints, Blobs, PartsBytes, PartsInts, PartsBlobs, Submessage, Pow128, Fits, PackedVarints, UnpackVarints,
         Version, VarintField, FlagField;
    var cache := CacheBytes(capabilities);
    VersionFits(2, 0);
    VersionFits(2, 3);
    var outer := [BodyPart(1, cache), BodyPart(4, Version(2, 0)), BodyPart(5, Version(2, 3))];
    PartsRoundTrip(outer, extra, {1});
    UpToFour(outer[0], outer[1], outer[2], outer[2], 1);
    CacheReadsBack(capabilities);
    assert [] + capabilities.digestFunctions == capabilities.digestFunctions;
    assert CapabilitiesBytes(capabilities) == PartsBytes(outer);
  }

  lemma EnabledFits()
    ensures Fits(|FlagField(1, true)|)
  {
    assert VarintBytes(8) == [8] && VarintBytes(1) == [1];
    SmallNumbersFit(2);
  }

  lemma UnpackOne(blob: Bytes, values: seq<nat>)
    requires UnpackVarints(blob) == Some(values)
    ensures UnpackAll([blob]) == Some(values) && UnpackAll([]) == Some([])
  {
    assert [blob][1..] == [] && values + [] == values;
  }

  lemma NoVarints(values: seq<nat>)
    ensures PackedVarints(values) == [] ==> values == []
  {
  }
}
