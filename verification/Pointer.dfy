/** The pointer a bucket holds under an action, and what it says a bundle must hold. */
module Pointer {
  import opened Bundle
  import opened BundleName
  import opened Bytes
  import opened Options
  import opened Reapi
  import opened Signing
  import opened Sorting
  import opened Utf8
  import opened Wire

  datatype Pointer = Pointer(bundle: string, result: Bytes)

  function AcPack(pointer: Pointer): Bytes
  {
    TextField(1, pointer.bundle) + BytesField(2, pointer.result)
  }

  /** Split a stored object, refusing one that does not name a bundle. */
  function AcUnpack(data: Bytes): (pointer: Option<Pointer>)
    ensures pointer.Some? ==> IsSha256Hex(pointer.value.bundle)
  {
    match Fields(data)
    case None => None
    case Some(fields) =>
      var bundle := Text(fields, 1);
      if !IsSha256Hex(bundle) then None else Some(Pointer(bundle, LastBlob(fields, 2)))
  }

  /** A pointer reads back as itself, whatever later fields are added after it. */
  lemma AcUnpackInvertsPack(pointer: Pointer, extra: Bytes)
    requires IsSha256Hex(pointer.bundle) && Fits(|pointer.result|) && Unknown(extra, {1, 2})
    ensures AcUnpack(AcPack(pointer) + extra) == Some(pointer)
  {
    hide Fields, VarintBytes, Tag, Ints, Blobs, Decode, Encoded, PartsBytes, PartsInts, PartsBlobs, Pow128, Submessage;
    TextRoundTrip(pointer.bundle);
    HexIsAscii(pointer.bundle);
    AsciiIsBytes(pointer.bundle);
    SmallNumbersFit(64);
    var bundle, result := BlobPart(1, Encoded(pointer.bundle)), BlobPart(2, pointer.result);
    PartsRoundTrip([bundle, result], extra, {1, 2});
    UpToFour(bundle, result, bundle, bundle, 1);
    UpToFour(bundle, result, bundle, bundle, 2);
  }

  lemma AcUnpackInvertsAcPack(pointer: Pointer)
    requires IsSha256Hex(pointer.bundle) && Fits(|pointer.result|)
    ensures AcUnpack(AcPack(pointer)) == Some(pointer)
  {
    NothingUnknown({1, 2});
    AcUnpackInvertsPack(pointer, []);
    assert AcPack(pointer) + [] == AcPack(pointer);
  }

  // What a result names.

  /** Resolving a result reads the trees it names. One that is missing leaves it unresolved; one that
      does not parse, or a name that is no digest where names are checked, is refused. */
  datatype Resolution = Refused | Unresolved | Resolved(digests: seq<Digest>)

  function ResolveTrees(blobs: map<string, Bytes>, trees: seq<Digest>, checked: bool): Resolution {
    if trees == [] then Resolved([])
    else if checked && !IsSha256Hex(trees[0].hash) then Refused
    else if trees[0].hash !in blobs then Unresolved
    else
      match TreeFiles(blobs[trees[0].hash])
      case None => Refused
      case Some(files) =>
        match ResolveTrees(blobs, trees[1..], checked)
        case Resolved(rest) => Resolved(files + rest)
        case other => other
  }

  /** Every blob an action result names, through its trees too. */
  function Referenced(blobs: map<string, Bytes>, result: ActionResult, checked: bool): Resolution {
    match ResolveTrees(blobs, result.trees, checked)
    case Resolved(files) => Resolved(result.Named() + files)
    case other => other
  }

  /** Only the trees' own bytes matter. */
  lemma {:induction false} SameTreesSameFiles(a: map<string, Bytes>, b: map<string, Bytes>, trees: seq<Digest>, checked: bool)
    requires forall i :: 0 <= i < |trees| ==>
               (trees[i].hash in a <==> trees[i].hash in b) && (trees[i].hash in a ==> a[trees[i].hash] == b[trees[i].hash])
    ensures ResolveTrees(a, trees, checked) == ResolveTrees(b, trees, checked)
  {
    if trees != [] {
      SameTreesSameFiles(a, b, trees[1..], checked);
    }
  }

  lemma {:induction false} CheckedWhenHex(blobs: map<string, Bytes>, trees: seq<Digest>)
    requires forall i :: 0 <= i < |trees| ==> IsSha256Hex(trees[i].hash)
    ensures ResolveTrees(blobs, trees, true) == ResolveTrees(blobs, trees, false)
  {
    hide IsSha256Hex;
    if trees != [] {
      CheckedWhenHex(blobs, trees[1..]);
    }
  }

  /** What the result names, once the bundle is shown to be exactly that: it resolves out of the bundle
      itself, nothing is missing or to spare, and the set makes the name the bundle is stored under. */
  ghost predicate Proves(sha: Bytes -> string, pointer: Pointer, result: ActionResult, members: map<string, Bytes>) {
    var resolution := Referenced(members, result, false);
    && resolution.Resolved?
    && HashesOf(resolution.digests) == members.Keys
    && HexHashes(Elements(resolution.digests))
    && NameOf(sha, Elements(resolution.digests)) == pointer.bundle
  }

  method Proven(sha: Bytes -> string, pointer: Pointer, result: ActionResult, members: map<string, Bytes>)
    returns (blobs: Option<seq<Digest>>)
    requires forall name :: name in members ==> IsSha256Hex(name)
    ensures blobs.Some? <==> Proves(sha, pointer, result, members)
    ensures blobs.Some? ==> Referenced(members, result, false) == Resolved(blobs.value)
  {
    hide IsSha256Hex, NameOf, NamedBytes, Referenced;
    var resolution := Referenced(members, result, false);
    if !resolution.Resolved? {
      return None;
    }
    var digests := resolution.digests;
    if HashesOf(digests) != members.Keys {
      return None;
    }
    forall digest | digest in Elements(digests)
      ensures IsSha256Hex(digest.hash)
    {
      assert digest.hash in HashesOf(digests);
    }
    var derived := BundleNameOf(sha, digests);
    return if derived == pointer.bundle then Some(digests) else None;
  }

  // What a stored pointer is worth.

  /** A pointer this shim may serve, and the result it holds. With no verifier, unsigned bytes pass
      and signed ones are refused. */
  function Trusted(unwrap: Option<(string, Bytes) -> Option<Bytes>>, action: string, stored: Bytes): Option<(Pointer, ActionResult)> {
    var payload := if unwrap.Some? then unwrap.value(action, stored) else if MAGIC <= stored then None else Some(stored);
    if payload.None? then None
    else
      match AcUnpack(payload.value)
      case None => None
      case Some(pointer) =>
        match ParseResult(pointer.result)
        case None => None
        case Some(result) => Some((pointer, result))
  }

  /** Without keys whatever looks signed is refused; with keys, whatever they do not verify. */
  lemma SignedNeedsKeys(unwrap: Option<(string, Bytes) -> Option<Bytes>>, action: string, stored: Bytes)
    ensures unwrap.None? && MAGIC <= stored ==> Trusted(unwrap, action, stored).None?
    ensures unwrap.Some? && unwrap.value(action, stored).None? ==> Trusted(unwrap, action, stored).None?
  {
    hide AcUnpack, ParseResult;
  }

  /** A packed pointer never looks signed, so a reader without keys takes it as it is. */
  lemma PackedPointerIsUnsigned(pointer: Pointer)
    requires pointer.bundle != ""
    ensures !(MAGIC <= AcPack(pointer))
  {
    assert Tag(1, LENGTH)[0] == 10;
    assert AcPack(pointer)[0] == 10;
  }
}
