/** Action results: looking them up in the store and the bucket, and publishing them. */
module ActionCaching {
  import opened Bundle
  import opened BundleName
  import opened Bytes
  import opened Options
  import opened Pointer
  import opened Reapi
  import opened Shim
  import opened Signing
  import opened Sorting
  import opened Store
  import opened Sums
  import opened Wire

  type Wrapper = (string, Bytes) -> Option<Bytes>

  /** What looking a pointer up comes to; `Raised` is an error that fails the call. */
  datatype Lookup = Nothing | Raised | Found(pointer: Pointer, result: ActionResult)

  datatype Outcome = Invalid | Failed | Miss | Hit(result: ActionResult, blobs: seq<Digest>)

  /** What a client is told about a result it uploads. */
  datatype Answer = BadRequest | NotAccepting | NotStorable | StoredOnly | PublishFailed | Published

  /** What becomes of the requests a publication makes: asking after the bundle, uploading it, and
      writing the pointer. */
  datatype Network = Network(refresh: Reply, upload: Reply, point: Reply)

  datatype Preparation = NotStored | Rejected | Ready(payload: Bytes, bundle: string, blobs: seq<Digest>)

  // Trees, read one at a time.

  function FilesOfTrees(trees: seq<Bytes>): Option<seq<Digest>> {
    if trees == [] then Some([])
    else
      match (TreeFiles(trees[0]), FilesOfTrees(trees[1..]))
      case (Some(files), Some(rest)) => Some(files + rest)
      case _ => None
  }

  /** These are the blobs a result names, through trees that were read under their own hashes. */
  ghost predicate Names(sha: Bytes -> string, result: ActionResult, blobs: seq<Digest>) {
    exists trees: seq<Bytes> ::
      && |trees| == |result.trees|
      && (forall i :: 0 <= i < |trees| ==> sha(trees[i]) == result.trees[i].hash)
      && FilesOfTrees(trees).Some? && blobs == result.Named() + FilesOfTrees(trees).value
  }

  /** These files are those of the first of these trees, each read under its own hash. */
  ghost predicate TreesRead(sha: Bytes -> string, trees: seq<Digest>, read: seq<Bytes>, files: seq<Digest>) {
    && |read| <= |trees| && (forall i :: 0 <= i < |read| ==> sha(read[i]) == trees[i].hash)
    && FilesOfTrees(read) == Some(files)
  }

  /** A tree that was come to, those before it read, has no digest for a name, or bytes of its name that are
      no tree. */
  ghost predicate TreeRefused(sha: Bytes -> string, result: ActionResult) {
    exists read, files :: TreesRead(sha, result.trees, read, files) && |read| < |result.trees|
      && (!IsSha256Hex(result.trees[|read|].hash)
          || exists data: Bytes :: sha(data) == result.trees[|read|].hash && TreeFiles(data).None?)
  }

  /** A tree that was come to, those before it read, is not here, or has rotted. */
  ghost predicate TreeLacking(sha: Bytes -> string, files: Files, result: ActionResult) {
    exists read, named :: TreesRead(sha, result.trees, read, named) && |read| < |result.trees|
      && IsSha256Hex(result.trees[|read|].hash) && !Intact(sha, files, result.trees[|read|])
  }

  /** Something in a result that is neither missing nor there: a name that is no digest, or a tree that is
      none. */
  ghost predicate Malformed(sha: Bytes -> string, result: ActionResult) {
    TreeRefused(sha, result) || exists blobs :: Names(sha, result, blobs) && !AllHexDigests(blobs)
  }

  /** Some blob that a result names is not here. */
  ghost predicate Lacking(sha: Bytes -> string, files: Files, result: ActionResult) {
    TreeLacking(sha, files, result) || exists blobs :: Names(sha, result, blobs) && AllHexDigests(blobs) && !AllHere(files, blobs)
  }

  /** Every tree that has a digest for a name is here, and has not rotted. */
  predicate TreesIntact(sha: Bytes -> string, files: Files, result: ActionResult) {
    forall i :: 0 <= i < |result.trees| && IsSha256Hex(result.trees[i].hash) ==> Intact(sha, files, result.trees[i])
  }

  function AfterFiles(files: seq<Digest>, rest: Resolution): Resolution {
    if rest.Resolved? then Resolved(files + rest.digests) else rest
  }

  lemma ResolveStep(blobs: map<string, Bytes>, trees: seq<Digest>, i: nat, files: seq<Digest>)
    requires i <= |trees|
    ensures i == |trees| ==> AfterFiles(files, ResolveTrees(blobs, trees[i..], true)) == Resolved(files)
    ensures i < |trees| ==>
              AfterFiles(files, ResolveTrees(blobs, trees[i..], true)) ==
              if !IsSha256Hex(trees[i].hash) then Refused
              else if trees[i].hash !in blobs then Unresolved
              else if TreeFiles(blobs[trees[i].hash]).None? then Refused
              else AfterFiles(files + TreeFiles(blobs[trees[i].hash]).value, ResolveTrees(blobs, trees[i + 1..], true))
  {
    hide TreeFiles, IsSha256Hex;
    if i < |trees| {
      assert trees[i..][1..] == trees[i + 1..];
      var rest := ResolveTrees(blobs, trees[i + 1..], true);
      if rest.Resolved? && trees[i].hash in blobs && TreeFiles(blobs[trees[i].hash]).Some? {
        var more := TreeFiles(blobs[trees[i].hash]).value;
        assert files + (more + rest.digests) == files + more + rest.digests;
      }
    } else {
      assert files + [] == files;
    }
  }

  lemma {:induction false} OneMoreTree(trees: seq<Bytes>, tree: Bytes)
    ensures FilesOfTrees(trees).Some? && TreeFiles(tree).Some? ==>
              FilesOfTrees(trees + [tree]) == Some(FilesOfTrees(trees).value + TreeFiles(tree).value)
  {
    hide TreeFiles;
    if trees == [] {
      assert ([] + [tree])[1..] == [];
      if TreeFiles(tree).Some? {
        assert TreeFiles(tree).value + [] == [] + TreeFiles(tree).value;
      }
    } else {
      assert (trees + [tree])[1..] == trees[1..] + [tree];
      OneMoreTree(trees[1..], tree);
      if FilesOfTrees(trees).Some? && TreeFiles(tree).Some? {
        var a, b, c := TreeFiles(trees[0]).value, FilesOfTrees(trees[1..]).value, TreeFiles(tree).value;
        assert a + (b + c) == a + b + c;
      }
    }
  }

  // What a bucket has to offer under an action.

  datatype Offer = Offer(pointer: Pointer, result: ActionResult, members: map<string, Bytes>, digests: seq<Digest>)

  ghost function Offered(sha: Bytes -> string, unwrap: Option<Wrapper>, maxBytes: nat, bucket: Bucket, action: string): Option<Offer>
    reads bucket
  {
    match bucket.Serve(PointerKey(action), SMALL_OBJECT)
    case Got(stored) =>
      (match Trusted(unwrap, action, stored)
       case None => None
       case Some((pointer, result)) =>
         match Fetched(sha, bucket.Serve(BundleKey(pointer.bundle), maxBytes))
         case None => None
         case Some(members) =>
           if Proves(sha, pointer, result, members)
           then Some(Offer(pointer, result, members, Referenced(members, result, false).digests)) else None)
    case _ => None
  }

  /** The result's sizes are those of the bundle's members, and what a store already holds under their
      names, and hashes to them, is those members. */
  ghost predicate Deliverable(sha: Bytes -> string, offer: Offer, files: Files) {
    && (forall digest :: digest in offer.digests ==>
          digest.hash in offer.members && |offer.members[digest.hash]| == digest.size)
    && AgreesWith(sha, files, offer.members)
  }

  /** Every blob the offer names is here at its size, and reading it gives the bundle's bytes unless
      the file has rotted since. */
  predicate Delivered(sha: Bytes -> string, files: Files, offer: Offer) {
    forall digest :: digest in offer.digests ==>
      && Here(files, digest) && digest.hash in offer.members
      && (sha(files[digest.hash].data) == digest.hash ==> files[digest.hash].data == offer.members[digest.hash])
  }

  lemma DeliveredIsHere(sha: Bytes -> string, files: Files, offer: Offer)
    requires Delivered(sha, files, offer)
    ensures AllHere(files, offer.digests)
  {
    assert forall i :: 0 <= i < |offer.digests| ==> offer.digests[i] in offer.digests;
  }

  lemma ProvenDigestsAreHex(sha: Bytes -> string, pointer: Pointer, result: ActionResult, members: map<string, Bytes>)
    requires Proves(sha, pointer, result, members)
    ensures AllHexDigests(Referenced(members, result, false).digests)
    ensures forall i :: 0 <= i < |result.trees| ==>
              IsSha256Hex(result.trees[i].hash) && result.trees[i].hash in members
              && result.trees[i] in Referenced(members, result, false).digests
  {
    hide IsSha256Hex, NameOf, ResolveTrees;
    var digests := Referenced(members, result, false).digests;
    assert forall i :: 0 <= i < |digests| ==> digests[i] in Elements(digests);
    forall i | 0 <= i < |result.trees|
      ensures result.trees[i] in digests
    {
      var at := |result.files| + i;
      assert digests[at] == result.trees[i];
    }
    assert forall digest :: digest in digests ==> digest.hash in HashesOf(digests) && digest in Elements(digests);
  }

  lemma {:induction false} PartialTrees(members: map<string, Bytes>, local: map<string, Bytes>, trees: seq<Digest>)
    requires ResolveTrees(members, trees, false).Resolved?
    requires forall i :: 0 <= i < |trees| ==> IsSha256Hex(trees[i].hash)
    requires forall i :: 0 <= i < |trees| && trees[i].hash in local && trees[i].hash in members ==>
               local[trees[i].hash] == members[trees[i].hash]
    ensures ResolveTrees(local, trees, true) in {Unresolved, ResolveTrees(members, trees, false)}
  {
    hide IsSha256Hex, TreeFiles;
    if trees != [] {
      PartialTrees(members, local, trees[1..]);
    }
  }

  /** A store whose own copies agree with the offer resolves the result as the offer does, or not at
      all. */
  lemma LocalResolution(offer: Offer, sha: Bytes -> string, files: Files)
    requires Proves(sha, offer.pointer, offer.result, offer.members)
    requires offer.digests == Referenced(offer.members, offer.result, false).digests
    requires Deliverable(sha, offer, files)
    ensures Referenced(Readable(sha, files), offer.result, true) in {Unresolved, Resolved(offer.digests)}
  {
    hide IsSha256Hex, NameOf, ResolveTrees;
    ProvenDigestsAreHex(sha, offer.pointer, offer.result, offer.members);
    PartialTrees(offer.members, Readable(sha, files), offer.result.trees);
  }

  lemma HereIsDelivered(sha: Bytes -> string, offer: Offer, files: Files)
    requires Deliverable(sha, offer, files) && AllHere(files, offer.digests)
    ensures Delivered(sha, files, offer)
  {
    forall digest | digest in offer.digests
      ensures Here(files, digest)
    {
      var i :| 0 <= i < |offer.digests| && offer.digests[i] == digest;
    }
  }

  /** What a pointer object in the bucket says, if a reader trusts it. */
  function PointerServed(unwrap: Option<Wrapper>, bucket: Bucket, action: string): Option<(Pointer, ActionResult)>
    reads bucket
  {
    match bucket.Serve(PointerKey(action), SMALL_OBJECT)
    case Got(stored) => Trusted(unwrap, action, stored)
    case _ => None
  }

  /** A result a store can back by itself: resolved out of what can be read of it, with every blob here
      at its size. */
  function Backed(sha: Bytes -> string, files: Files, result: ActionResult): Resolution {
    match Referenced(Readable(sha, files), result, true)
    case Resolved(digests) =>
      if !AllHexDigests(digests) then Refused else if AllHere(files, digests) then Resolved(digests) else Unresolved
    case other => other
  }

  predicate AllIntact(sha: Bytes -> string, files: Files, digests: seq<Digest>) {
    forall i :: 0 <= i < |digests| ==> Intact(sha, files, digests[i])
  }

  /** Every one of these can be read. */
  predicate AllReadable(sha: Bytes -> string, files: Files, digests: seq<Digest>) {
    forall i :: 0 <= i < |digests| ==> digests[i].hash in Readable(sha, files)
  }

  /** Reading loses no file but those that no longer hash to their names, and changes none. */
  ghost predicate LosesOnlyRot(sha: Bytes -> string, before: Files, after: Files) {
    && (forall hash :: hash in after ==> hash in before && after[hash].data == before[hash].data)
    && (forall hash :: hash in before && hash !in after ==> sha(before[hash].data) != hash)
  }

  /** What reading does to a store: only rot goes, and the index says so. */
  ghost predicate OnlyRead(sha: Bytes -> string, files: Files, rows: Rows, after: Files, left: Rows, now: nat) {
    LosesOnlyRot(sha, files, after) && left == ForgetRows(rows, files.Keys - after.Keys, now)
  }

  lemma SameIsOnlyRead(sha: Bytes -> string, files: Files, rows: Rows, after: Files, now: nat, sizeOf: string -> nat)
    requires SameBytes(files, after)
    ensures OnlyRead(sha, files, rows, after, rows, now)
  {
    ForgetNothing(rows, now, sizeOf);
    assert files.Keys - after.Keys == {};
  }

  /** A store whose files are all intact loses nothing to reading. */
  lemma NothingToLose(sha: Bytes -> string, sizeOf: string -> nat, files: Files, rows: Rows, after: Files, left: Rows, now: nat)
    requires GenuineFiles(files, sha, sizeOf) && OnlyRead(sha, files, rows, after, left, now)
    ensures SameBytes(files, after) && left == rows
  {
    ForgetNothing(rows, now, sizeOf);
    assert files.Keys - after.Keys == {};
  }

  lemma OneLost(sha: Bytes -> string, first: Files, rows: Rows, before: Files, after: Files, digest: Digest, now: nat)
    requires SameBytes(first, before) && SameBytes(before - {digest.hash}, after)
    requires digest.hash in before ==> sha(before[digest.hash].data) != digest.hash
    requires before.Keys == Present(rows)
    ensures OnlyRead(sha, first, rows, after, ForgetRows(rows, {digest.hash}, now), now)
  {
    assert first.Keys - after.Keys == {digest.hash} * first.Keys;
  }

  /** Someone this reader trusts said this is the action's result: the store's own copy or the
      bucket's. */
  ghost predicate Vouched(unwrap: Option<Wrapper>, results: Results, bucket: Bucket?, action: string, result: ActionResult)
    reads bucket
  {
    || (action in results && Trusted(unwrap, action, results[action].pointer).Some?
        && Trusted(unwrap, action, results[action].pointer).value.1 == result)
    || (bucket != null && PointerServed(unwrap, bucket, action).Some?
        && PointerServed(unwrap, bucket, action).value.1 == result)
  }

  /** What a store's own kept pointer says of an action, if a reader trusts it. */
  function Remembered(unwrap: Option<Wrapper>, results: Results, action: string): Option<(Pointer, ActionResult)> {
    if action in results then Trusted(unwrap, action, results[action].pointer) else None
  }

  lemma {:induction false} ResolvedTreesAreRead(blobs: map<string, Bytes>, trees: seq<Digest>)
    requires ResolveTrees(blobs, trees, true).Resolved?
    ensures forall i :: 0 <= i < |trees| ==> trees[i].hash in blobs
  {
    hide IsSha256Hex, TreeFiles;
    if trees != [] {
      ResolvedTreesAreRead(blobs, trees[1..]);
    }
  }

  lemma IntactIsReadable(sha: Bytes -> string, files: Files, digests: seq<Digest>)
    requires AllIntact(sha, files, digests)
    ensures AllReadable(sha, files, digests)
  {
  }

  lemma StaysIntact(sha: Bytes -> string, before: Files, after: Files, result: ActionResult, i: nat)
    requires TreesIntact(sha, before, result) && SameBytes(before, after) && i < |result.trees|
    ensures var tree := result.trees[i];
            IsSha256Hex(tree.hash) ==>
              && Intact(sha, after, tree) && tree.hash in Readable(sha, before) && tree.hash in after
              && after[tree.hash].data == Readable(sha, before)[tree.hash]
  {
    hide IsSha256Hex;
  }

  lemma AllTreesIntact(sha: Bytes -> string, files: Files, result: ActionResult)
    requires AllHexDigests(result.trees)
    ensures TreesIntact(sha, files, result) <==> AllIntact(sha, files, result.trees)
  {
    hide IsSha256Hex;
  }

  lemma RefusedHere(sha: Bytes -> string, result: ActionResult, read: seq<Bytes>, files: seq<Digest>, data: Bytes)
    requires TreesRead(sha, result.trees, read, files) && |read| < |result.trees|
    requires var tree := result.trees[|read|]; IsSha256Hex(tree.hash) ==> sha(data) == tree.hash && TreeFiles(data).None?
    ensures TreeRefused(sha, result)
  {
    hide IsSha256Hex, TreeFiles, TreesRead;
  }

  lemma LackingHere(sha: Bytes -> string, here: Files, result: ActionResult, read: seq<Bytes>, files: seq<Digest>)
    requires TreesRead(sha, result.trees, read, files) && |read| < |result.trees|
    requires IsSha256Hex(result.trees[|read|].hash) && !Intact(sha, here, result.trees[|read|])
    ensures TreeLacking(sha, here, result)
  {
    hide IsSha256Hex, TreesRead;
  }

  lemma BackedIsHere(sha: Bytes -> string, files: Files, result: ActionResult)
    requires Backed(sha, files, result).Resolved?
    ensures var digests := Backed(sha, files, result).digests;
            && Referenced(Readable(sha, files), result, true) == Resolved(digests)
            && AllHexDigests(digests) && AllHere(files, digests)
            && AllHexDigests(result.trees) && AllIntact(sha, files, result.trees)
  {
    hide IsSha256Hex, ResolveTrees, Here;
    var digests, trees := Backed(sha, files, result).digests, result.trees;
    ResolvedTreesAreRead(Readable(sha, files), trees);
    forall i | 0 <= i < |trees|
      ensures trees[i] == digests[|result.files| + i]
    {
    }
  }

  lemma DeliveredResolves(offer: Offer, sha: Bytes -> string, files: Files)
    requires Proves(sha, offer.pointer, offer.result, offer.members)
    requires offer.digests == Referenced(offer.members, offer.result, false).digests
    requires Delivered(sha, files, offer) && AllReadable(sha, files, offer.result.trees)
    ensures Referenced(Readable(sha, files), offer.result, true) == Resolved(offer.digests)
    ensures AllHexDigests(offer.digests) && AllHexDigests(offer.result.trees)
    ensures AllHere(files, offer.digests) && AllIntact(sha, files, offer.result.trees)
  {
    hide IsSha256Hex, NameOf, ResolveTrees, Here;
    ProvenDigestsAreHex(sha, offer.pointer, offer.result, offer.members);
    DeliveredIsHere(sha, files, offer);
    var trees, bytes := offer.result.trees, Readable(sha, files);
    forall i | 0 <= i < |trees|
      ensures trees[i].hash in bytes && bytes[trees[i].hash] == offer.members[trees[i].hash]
      ensures Intact(sha, files, trees[i])
    {
      HereHasBytes(files, trees[i]);
    }
    SameTreesSameFiles(bytes, offer.members, trees, false);
    CheckedWhenHex(bytes, trees);
  }

  lemma DeliveredIsBacked(offer: Offer, sha: Bytes -> string, files: Files)
    requires Proves(sha, offer.pointer, offer.result, offer.members)
    requires offer.digests == Referenced(offer.members, offer.result, false).digests
    requires Delivered(sha, files, offer) && AllReadable(sha, files, offer.result.trees)
    ensures Backed(sha, files, offer.result) == Resolved(offer.digests)
  {
    hide Proves, Referenced, Delivered, AllReadable, Readable;
    DeliveredResolves(offer, sha, files);
  }

  lemma SameBytesBackAlike(sha: Bytes -> string, a: Files, b: Files, result: ActionResult)
    requires SameBytes(a, b)
    ensures Backed(sha, a, result) == Backed(sha, b, result)
  {
    hide Referenced, AllHexDigests;
    SameBytesSameReadable(sha, a, b);
    if Referenced(Readable(sha, a), result, true).Resolved? {
      SameBytesSameHere(a, b, Referenced(Readable(sha, a), result, true).digests);
    }
  }

  /** A store that could be delivered an offer backs its result exactly as the offer does, or does
      not hold all of it. */
  lemma OfferedIsBacked(offer: Offer, sha: Bytes -> string, files: Files)
    requires Proves(sha, offer.pointer, offer.result, offer.members)
    requires offer.digests == Referenced(offer.members, offer.result, false).digests
    requires Deliverable(sha, offer, files)
    ensures Backed(sha, files, offer.result) in {Unresolved, Resolved(offer.digests)}
    ensures Backed(sha, files, offer.result).Resolved? ==>
              Delivered(sha, files, offer) && AllReadable(sha, files, offer.result.trees)
  {
    hide IsSha256Hex, NameOf, Referenced, Here;
    LocalResolution(offer, sha, files);
    ProvenDigestsAreHex(sha, offer.pointer, offer.result, offer.members);
    if Backed(sha, files, offer.result).Resolved? {
      BackedIsHere(sha, files, offer.result);
      IntactIsReadable(sha, files, offer.result.trees);
      HereIsDelivered(sha, offer, files);
    }
  }

  // Publishing.

  /** The pointer for a result, in the form that goes into the store and the bucket: signed, if this
      shim signs. */
  function Payload(wrap: Option<Wrapper>, action: string, pointer: Pointer): Option<Bytes>
  {
    var packed := AcPack(pointer);
    if wrap.None? then Some(packed) else wrap.value(action, packed)
  }

  /** A shim that signs at all has a certificate to sign this with. */
  ghost predicate Signs(wrap: Option<Wrapper>, action: string) {
    wrap.Some? ==> forall payload :: wrap.value(action, payload).Some?
  }

  /** The blobs a bundle for these digests is made of. */
  function MembersHere(files: Files, digests: seq<Digest>): map<string, Bytes> {
    map hash | hash in HashesOf(digests) && hash in files :: files[hash].data
  }

  lemma HexDigestsHaveHexHashes(digests: seq<Digest>)
    requires AllHexDigests(digests)
    ensures HexHashes(Elements(digests))
    ensures forall hash :: hash in HashesOf(digests) ==> IsSha256Hex(hash)
  {
    hide IsSha256Hex;
    forall digest | digest in digests
      ensures IsSha256Hex(digest.hash)
    {
      var i :| 0 <= i < |digests| && digests[i] == digest;
    }
  }

  /** A bundle the bucket already holds is used as it is, unless it was seen not to match its name. */
  predicate Shared(objects: map<string, Bytes>, bundle: string, tainted: set<string>) {
    BundleKey(bundle) in objects && bundle !in tainted
  }

  /** The bucket's objects once a bundle is there. */
  ghost function BundlePublished(objects: map<string, Bytes>, files: Files, bundle: string, blobs: seq<Digest>, tainted: set<string>)
    : map<string, Bytes>
    requires AllHexDigests(blobs)
  {
    HexDigestsHaveHexHashes(blobs);
    if Shared(objects, bundle, tainted) then objects
    else objects[BundleKey(bundle) := Packed(MembersHere(files, blobs))]
  }

  /** Whether a publisher gets an answer that says the bucket holds the bundle. */
  predicate BundleStands(objects: map<string, Bytes>, sha: Bytes -> string, files: Files, bundle: string, blobs: seq<Digest>,
                         tainted: set<string>, network: Network) {
    && (bundle !in tainted ==> network.refresh.Answered?)
    && (Shared(objects, bundle, tainted) || (AllReadable(sha, files, blobs) && network.upload.Answered?))
  }

  /** Whether an upload of the bundle is carried out, with or without an answer. */
  predicate BundleUploads(objects: map<string, Bytes>, sha: Bytes -> string, files: Files, bundle: string, blobs: seq<Digest>,
                          tainted: set<string>, network: Network) {
    && (bundle !in tainted ==> network.refresh.Answered?)
    && !Shared(objects, bundle, tainted) && AllReadable(sha, files, blobs) && !network.upload.Lost?
  }

  /** The bucket's objects after the bundle's half of a publication. */
  ghost function AfterBundle(objects: map<string, Bytes>, sha: Bytes -> string, files: Files, bundle: string, blobs: seq<Digest>,
                             tainted: set<string>, network: Network): map<string, Bytes>
    requires AllHexDigests(blobs)
  {
    if BundleUploads(objects, sha, files, bundle, blobs, tainted, network)
    then BundlePublished(objects, files, bundle, blobs, tainted) else objects
  }

  /** The bucket's objects after a publication, however its requests turned out. */
  ghost function AfterPublish(objects: map<string, Bytes>, sha: Bytes -> string, files: Files, action: string, payload: Bytes,
                              bundle: string, blobs: seq<Digest>, tainted: set<string>, network: Network): map<string, Bytes>
    requires AllHexDigests(blobs)
  {
    var after := AfterBundle(objects, sha, files, bundle, blobs, tainted, network);
    if BundleStands(objects, sha, files, bundle, blobs, tainted, network) && !network.point.Lost?
    then after[PointerKey(action) := payload] else after
  }

  /** Bundle first, always. Whatever becomes of the requests: a pointer is written only over a bundle that
      is there, an object of any other name is left alone, and so is a bundle that may be shared. A
      publication whose pointer is not written leaves the objects as they were, or with the bundle and
      nothing else new. */
  lemma PublishingIsSafe(objects: map<string, Bytes>, sha: Bytes -> string, files: Files, action: string, payload: Bytes,
                         bundle: string, blobs: seq<Digest>, tainted: set<string>, network: Network)
    requires AllHexDigests(blobs)
    ensures var after := AfterPublish(objects, sha, files, action, payload, bundle, blobs, tainted, network);
            var stands := BundleStands(objects, sha, files, bundle, blobs, tainted, network);
            var published := BundlePublished(objects, files, bundle, blobs, tainted);
            && (stands && !network.point.Lost? ==> after == published[PointerKey(action) := payload])
            && (stands && network.point.Lost? ==> after == published)
            && (!stands ==> after == objects || (network.upload.Unheard? && after == published))
            && (PointerKey(action) in after && (PointerKey(action) in objects ==> after[PointerKey(action)] != objects[PointerKey(action)]) ==>
                  stands && after[PointerKey(action)] == payload && BundleKey(bundle) in after)
            && (stands ==> BundleKey(bundle) in after)
            && objects.Keys <= after.Keys
            && (forall key :: key in after && key != PointerKey(action) && (key != BundleKey(bundle) || Shared(objects, bundle, tainted)) ==>
                  key in objects && after[key] == objects[key])
  {
    hide Packed, AllReadable;
    KeysApart(action, bundle, bundle);
    HexDigestsHaveHexHashes(blobs);
    hide PointerKey, BundleKey;
  }

  lemma KeysApart(action: string, a: string, b: string)
    ensures PointerKey(action) != BundleKey(a)
    ensures BundleKey(a) == BundleKey(b) ==> a == b
  {
    assert PointerKey(action)[0] == 'a' && BundleKey(a)[0] == 'b';
    assert BundleKey(a)[7..] == a && BundleKey(b)[7..] == b;
  }

  /** What can be read makes a bundle of genuine members. */
  lemma MembersAreGenuine(files: Files, sha: Bytes -> string, sizeOf: string -> nat, digests: seq<Digest>)
    requires AllReadable(sha, files, digests) && SizedFiles(files, sha, sizeOf) && SmallFiles(files) && NamesBytes(sha)
    ensures GenuineMembers(MembersHere(files, digests), sha, sizeOf)
    ensures forall hash :: hash in MembersHere(files, digests) ==> sizeOf(hash) < Pow256(8)
  {
    hide IsSha256Hex, Pow256;
    forall digest | digest in digests
      ensures digest.hash in Readable(sha, files)
    {
      var i :| 0 <= i < |digests| && digests[i] == digest;
    }
  }

  /** Uploading a bundle of genuine members leaves one size for each hash. */
  lemma StillOneSize(objects: map<string, Bytes>, sha: Bytes -> string, sizeOf: string -> nat, bundle: string, members: map<string, Bytes>)
    requires OneSizePerHash(objects, sha, sizeOf) && GenuineMembers(members, sha, sizeOf)
    requires forall hash :: hash in members ==> sizeOf(hash) < Pow256(8)
    ensures OneSizePerHash(objects[BundleKey(bundle) := Packed(members)], sha, sizeOf)
  {
    hide IsSha256Hex, Pow256, Unpack, ByHash, BundleKey, Packed;
    PackedBundleUnpacks(sha, members);
    var after := objects[BundleKey(bundle) := Packed(members)];
    forall name | BundleKey(name) in after && Unpack(sha, after[BundleKey(name)]).Some?
      ensures SizedMembers(Unpack(sha, after[BundleKey(name)]).value, sizeOf)
    {
      KeysApart("", name, bundle);
    }
  }

  lemma PointersAreNoBundles(objects: map<string, Bytes>, sha: Bytes -> string, sizeOf: string -> nat, action: string, payload: Bytes)
    requires OneSizePerHash(objects, sha, sizeOf)
    ensures OneSizePerHash(objects[PointerKey(action) := payload], sha, sizeOf)
  {
    hide Unpack, BundleKey, PointerKey;
    var after := objects[PointerKey(action) := payload];
    forall name | BundleKey(name) in after && Unpack(sha, after[BundleKey(name)]).Some?
      ensures SizedMembers(Unpack(sha, after[BundleKey(name)]).value, sizeOf)
    {
      KeysApart(action, name, name);
    }
  }

  /** No file is too big for a bundle's length field. */
  predicate SmallFiles(files: Files) {
    forall hash :: hash in files ==> |files[hash].data| < Pow256(8)
  }

  /** Only the files' bytes matter to a publication. */
  lemma SamePublication(objects: map<string, Bytes>, sha: Bytes -> string, a: Files, b: Files, action: string, payload: Bytes,
                        bundle: string, blobs: seq<Digest>, tainted: set<string>, network: Network)
    requires AllHexDigests(blobs) && SameBytes(a, b)
    ensures BundleStands(objects, sha, a, bundle, blobs, tainted, network) == BundleStands(objects, sha, b, bundle, blobs, tainted, network)
    ensures AfterPublish(objects, sha, a, action, payload, bundle, blobs, tainted, network)
            == AfterPublish(objects, sha, b, action, payload, bundle, blobs, tainted, network)
    ensures AllReadable(sha, a, blobs) == AllReadable(sha, b, blobs)
  {
    hide Packed, AllHexDigests, PointerKey, BundleKey;
    SameBytesSameReadable(sha, a, b);
    assert MembersHere(a, blobs) == MembersHere(b, blobs);
  }

  lemma NoneIsAnyBundle(a: Rows, b: Rows, bundle: Option<string>)
    requires KeepsProvenance(a, b, {}, None)
    ensures KeepsProvenance(a, b, {}, bundle)
  {
  }

  lemma OnlyReadKeepsProvenance(sha: Bytes -> string, files: Files, rows: Rows, after: Files, left: Rows, now: nat)
    requires OnlyRead(sha, files, rows, after, left, now)
    ensures KeepsProvenance(rows, left, {}, None) && left.Keys == rows.Keys
  {
    ForgettingKeepsProvenance(rows, files.Keys - after.Keys, now);
  }

  lemma NoneThenProvenance(a: Rows, b: Rows, c: Rows, batch: set<string>, bundle: string)
    requires KeepsProvenance(a, b, {}, None) && KeepsProvenance(b, c, batch, Some(bundle))
    ensures KeepsProvenance(a, c, batch, Some(bundle))
  {
  }

  lemma SameBytesAsBefore(files: Files)
    ensures SameBytes(files, files)
  {
  }

  class ActionCache {
    const local: Local
    /** Signs a pointer for an action; nothing when the signer cannot. */
    const wrap: Option<Wrapper>
    /** Verifies a stored pointer for an action; nothing when it is refused. */
    const unwrap: Option<Wrapper>

    /** Whether this shim may write to the bucket. */
    const writes: bool

    constructor (local: Local, wrap: Option<Wrapper>, unwrap: Option<Wrapper>, writes: bool)
      ensures this.local == local && this.wrap == wrap && this.unwrap == unwrap && this.writes == writes
    {
      this.local, this.wrap, this.unwrap, this.writes := local, wrap, unwrap, writes;
    }

    ghost predicate Valid()
      reads this, local, local.store, local.bucket
    {
      local.Valid()
    }

    /** Resolve a result out of the store alone. */
    method ResolveFromStore(result: ActionResult, now: nat) returns (resolution: Resolution)
      requires Valid()
      modifies local.store
      ensures Valid() && (old(local.store.Genuine()) ==> local.store.Genuine())
      ensures resolution == Referenced(Readable(local.store.sha, old(local.store.files)), result, true)
      ensures OnlyRead(local.store.sha, old(local.store.files), old(local.store.rows), local.store.files, local.store.rows, now)
      ensures !resolution.Unresolved? ==>
                SameBytes(old(local.store.files), local.store.files) && local.store.rows == old(local.store.rows)
      ensures local.store.results == old(local.store.results)
    {
      hide GenuineFiles, SizedFiles, Present, Sized, OneSizePerHash, IsSha256Hex, NamesBytes, TreeFiles, ResolveTrees, ForgetRows, OnlyRead;
      var store := local.store;
      ghost var files0 := store.files;
      ghost var blobs := Readable(store.sha, files0);
      var files := [];
      assert result.trees[0..] == result.trees;
      StartResolving(ResolveTrees(blobs, result.trees, true));
      for i := 0 to |result.trees|
        invariant Valid() && (old(store.Genuine()) ==> store.Genuine())
        invariant SameBytes(files0, store.files)
        invariant store.rows == old(store.rows) && store.results == old(store.results)
        invariant ResolveTrees(blobs, result.trees, true) == AfterFiles(files, ResolveTrees(blobs, result.trees[i..], true))
      {
        ResolveStep(blobs, result.trees, i, files);
        SameIsOnlyRead(store.sha, files0, store.rows, store.files, now, store.sizeOf);
        ghost var before := store.files;
        ForgetNothing(store.rows, now, store.sizeOf);
        var data := store.ReadBlob(result.trees[i], now);
        match data {
          case NoDigest => return Refused;
          case Missing =>
            OneLost(store.sha, files0, old(store.rows), before, store.files, result.trees[i], now);
            return Unresolved;
          case Content(tree) =>
            SameIsOnlyRead(store.sha, files0, store.rows, store.files, now, store.sizeOf);
            var more := TreeFiles(tree);
            if more.None? {
              return Refused;
            }
            files := files + more.value;
        }
      }
      SameIsOnlyRead(store.sha, files0, store.rows, store.files, now, store.sizeOf);
      ResolveStep(blobs, result.trees, |result.trees|, files);
      return Resolved(result.Named() + files);
    }

    /** What can be had back although it was evicted: the index attributes all of it to one bundle, which
        the bucket serves with every one of these, and has room for its rows. */
    ghost predicate Recoverable(rows: Rows, results: Results, files: Files, source: string, digests: seq<Digest>)
      reads local.bucket
    {
      local.bucket != null
      && var fetched := Fetched(local.store.sha, local.ServedBundle(source));
      HasRoom(rows, {}, results, {}, local.store.maxRows)
      && Refillable(rows, fetched, source, digests) && AgreesWith(local.store.sha, files, fetched.value)
    }

    lemma StillRecoverable(rows: Rows, results: Results, files: Files, after: Rows, left: Results, changed: Files, source: string,
                           digests: seq<Digest>)
      requires Recoverable(rows, results, files, source, digests)
      requires KeepsProvenance(rows, after, {}, None) && SameIndex(rows, results, after, left, local.store.maxRows)
      requires AgreesWith(local.store.sha, changed, Fetched(local.store.sha, local.ServedBundle(source)).value)
      ensures Recoverable(after, left, changed, source, digests)
    {
      hide AgreesWith, Fetched;
    }

    /** Resolve a result through the local half, fetching the bundles its trees came in if need be. */
    method ResolveThroughLocal(result: ActionResult, ghost source: string, now: nat) returns (resolution: Resolution)
      requires Valid()
      modifies local, local.store
      ensures Valid() && (old(local.store.Genuine()) ==> local.store.Genuine())
      ensures resolution.Resolved? ==> Names(local.store.sha, result, resolution.digests)
      ensures resolution.Refused? ==> TreeRefused(local.store.sha, result)
      ensures resolution.Unresolved? ==> TreeLacking(local.store.sha, local.store.files, result)
      ensures KeepsProvenance(old(local.store.rows), local.store.rows, {}, None)
      ensures FewerResults(old(local.store.results), local.store.results)
      ensures TreesIntact(local.store.sha, old(local.store.files), result) ==>
                resolution == Referenced(Readable(local.store.sha, old(local.store.files)), result, true)
                && SameBytes(old(local.store.files), local.store.files)
                && local.store.rows == old(local.store.rows) && local.store.results == old(local.store.results)
      ensures SameIndex(old(local.store.rows), old(local.store.results), local.store.rows, local.store.results, local.store.maxRows)
      ensures AllHexDigests(result.trees)
              && Recoverable(old(local.store.rows), old(local.store.results), old(local.store.files), source, result.trees) ==>
                var members := Fetched(local.store.sha, local.ServedBundle(source)).value;
                resolution == Referenced(members, result, true) && AgreesWith(local.store.sha, local.store.files, members)
    {
      hide GenuineFiles, SizedFiles, Present, Sized, OneSizePerHash, IsSha256Hex, NamesBytes, TreeFiles, ResolveTrees,
           KeepsProvenance, FewerResults, FilesOfTrees, Here, Fetched, Refillable, AgreesWith, SameIndex, HasRoom,
           Recoverable, Names, Intact, AllIntact, Readable, SameBytes, AfterFiles, Referenced, AllHere, ActionResult.Named, TreesRead,
           TreesIntact, TreeRefused, TreeLacking;
      var store := local.store;
      ghost var intact := TreesIntact(store.sha, store.files, result);
      ghost var backed := AllHexDigests(result.trees) && Recoverable(store.rows, store.results, store.files, source, result.trees);
      ghost var fetched := if local.bucket == null then None else Fetched(store.sha, local.ServedBundle(source));
      if backed {
        RecoverableMeans(store.rows, store.results, store.files, source, result.trees);
        RefillableIsFetched(store.rows, fetched, source, result.trees);
      }
      ghost var blobs := if backed then fetched.value else Readable(store.sha, store.files);
      var files := [];
      ghost var read := [];
      assert result.trees[0..] == result.trees;
      if intact && backed {
        AllTreesIntact(store.sha, store.files, result);
        SameEitherWay(store.sha, store.files, fetched.value, result);
      }
      ReferencedMeans(blobs, result);
      StartResolving(ResolveTrees(blobs, result.trees, true));
      SameProvenance(store.rows);
      SameResults(store.results);
      SameIndexAtFirst(store.rows, store.results, store.maxRows);
      SameBytesAsBefore(store.files);
      NoTrees(store.sha, result.trees);
      for i := 0 to |result.trees|
        invariant Valid() && (old(store.Genuine()) ==> store.Genuine())
        invariant |read| == i && TreesRead(store.sha, result.trees, read, files)
        invariant KeepsProvenance(old(store.rows), store.rows, {}, None)
        invariant FewerResults(old(store.results), store.results)
        invariant SameIndex(old(store.rows), old(store.results), store.rows, store.results, store.maxRows)
        invariant intact ==>
                    && SameBytes(old(store.files), store.files)
                    && store.rows == old(store.rows) && store.results == old(store.results)
        invariant backed ==> Recoverable(store.rows, store.results, store.files, source, result.trees)
        invariant intact || backed ==>
                    ResolveTrees(blobs, result.trees, true) == AfterFiles(files, ResolveTrees(blobs, result.trees[i..], true))
      {
        ResolveStep(blobs, result.trees, i, files);
        if intact {
          StaysIntact(store.sha, old(store.files), store.files, result, i);
        }
        if backed {
          RecoverableMeans(store.rows, store.results, store.files, source, result.trees);
          OneRefillable(store.rows, Fetched(store.sha, local.ServedBundle(source)), source, result.trees, i);
        }
        ghost var rows1, results1, files1 := store.rows, store.results, store.files;
        var data := local.Blob(result.trees[i], source, now);
        ProvenanceChains(old(store.rows), rows1, store.rows);
        ResultsChain(old(store.results), results1, store.results);
        SameIndexChain(old(store.rows), old(store.results), rows1, results1, store.rows, store.results, store.maxRows);
        if intact {
          SameBytesChain(old(store.files), files1, store.files);
        }
        match data {
          case NoDigest =>
            RefusedHere(store.sha, result, read, files, []);
            return Refused;
          case Missing =>
            LackingHere(store.sha, store.files, result, read, files);
            return Unresolved;
          case Content(tree) =>
            if backed {
              StillRecoverable(rows1, results1, files1, store.rows, store.results, store.files, source, result.trees);
            }
            var more := TreeFiles(tree);
            if more.None? {
              RefusedHere(store.sha, result, read, files, tree);
              return Refused;
            }
            NextTreeRead(store.sha, result.trees, read, files, tree);
            files, read := files + more.value, read + [tree];
        }
      }
      ResolveStep(blobs, result.trees, |result.trees|, files);
      NamesThroughTrees(store.sha, result, read, files);
      if backed {
        RecoverableMeans(store.rows, store.results, store.files, source, result.trees);
      }
      return Resolved(result.Named() + files);
    }

    /** Resolve a result out of the store, if every blob it names is there. */
    method ResolveHere(result: ActionResult, now: nat) returns (resolution: Resolution)
      requires Valid()
      modifies local.store
      ensures Valid() && (old(local.store.Genuine()) ==> local.store.Genuine())
      ensures resolution == Backed(local.store.sha, old(local.store.files), result)
      ensures OnlyRead(local.store.sha, old(local.store.files), old(local.store.rows), local.store.files, local.store.rows, now)
      ensures resolution.Resolved? ==>
                SameBytes(old(local.store.files), local.store.files) && local.store.rows == old(local.store.rows)
      ensures local.store.results == old(local.store.results)
    {
      hide AllHexDigests, AllHere, Referenced, SameBytes, GenuineFiles, SizedFiles, Present, Sized, OneSizePerHash, IsSha256Hex,
           NamesBytes, OnlyRead;
      var store := local.store;
      ghost var files0 := store.files;
      resolution := ResolveFromStore(result, now);
      ghost var files1 := store.files;
      if resolution.Resolved? {
        SameBytesSameHere(files0, files1, resolution.digests);
        var missing := local.Absent(resolution.digests, now);
        SameBytesChain(files0, files1, store.files);
        SameIsOnlyRead(store.sha, files0, store.rows, store.files, now, store.sizeOf);
        match missing {
          case None => return Refused;
          case Some(some) => return if some == [] then resolution else Unresolved;
        }
      }
    }

    /** Keep a pointer, and have the blobs it names remember their bundle. */
    method Keep(action: string, stored: Bytes, blobs: seq<Digest>, bundle: string, now: nat)
      requires Valid() && AllHere(local.store.files, blobs)
      modifies local.store`rows, local.store`results
      ensures Valid() && (old(local.store.Genuine()) ==> local.store.Genuine())
      ensures KeepsProvenance(old(local.store.rows), local.store.rows, HashesOf(blobs), Some(bundle))
      ensures FewerResults(old(local.store.results)[action := Kept(stored, now)], local.store.results)
      ensures HasRoom(old(local.store.rows), HashesOf(blobs), old(local.store.results), {action}, local.store.maxRows) ==>
                local.store.results == old(local.store.results)[action := Kept(stored, now)]
                && local.store.rows == AttributeAll(old(local.store.rows), blobs, bundle, now)
    {
      hide FewerResults, AllHere, GenuineFiles, SizedFiles, Present, Sized, OneSizePerHash, IsSha256Hex, NamesBytes, HashesOf, HasRoom,
           AttributeAll, AfterEviction;
      var store := local.store;
      HereHasRows(store.rows, store.files, blobs);
      ghost var rows0, results0 := store.rows, store.results[action := Kept(stored, now)];
      store.PutResult(action, stored, now);
      ghost var rows1, results1 := store.rows, store.results;
      HereHasRows(rows1, store.files, blobs);
      store.RememberAll(blobs, bundle, now);
      ResultsChain(results0, results1, store.results);
      if HasRoom(rows0, HashesOf(blobs), old(store.results), {action}, store.maxRows) {
        RoomToKeep(rows0, old(store.results), rows1, results1, store.rows, store.results, action, Kept(stored, now), blobs, bundle, now,
                   store.maxRows);
      }
    }

    /** Take in a proven bundle, and keep the pointer that names it. */
    method TakeIn(action: string, stored: Bytes, bundle: string, members: map<string, Bytes>, now: nat)
      requires Valid() && GenuineMembers(members, local.store.sha, local.store.sizeOf)
      requires Sum(members.Keys, local.store.sizeOf) <= local.store.maxBytes
      modifies local.store
      ensures Valid() && (old(local.store.Genuine()) ==> local.store.Genuine())
      ensures KeepsProvenance(old(local.store.rows), local.store.rows, members.Keys, Some(bundle))
      ensures forall hash :: hash in members ==> hash in local.store.files && local.store.files[hash].data == members[hash]
      ensures FewerResults(old(local.store.results)[action := Kept(stored, now)], local.store.results)
      ensures HasRoom(old(local.store.rows), members.Keys, old(local.store.results), {action}, local.store.maxRows) ==>
                local.store.results == old(local.store.results)[action := Kept(stored, now)]
    {
      hide KeepsProvenance, FewerResults, FewerOthers, GenuineFiles, SizedFiles, Present, Sized, OneSizePerHash, IsSha256Hex, HasRoom,
           AfterEviction, Added, GenuineMembers, Sum, NamesBytes;
      var store := local.store;
      ghost var rows0, results0 := store.rows, store.results;
      local.Admit(members, bundle, now);
      ghost var rows1, results1 := store.rows, store.results;
      store.PutResult(action, stored, now);
      ProvenanceThenNone(rows0, rows1, store.rows, members.Keys, Some(bundle));
      ResultsThenOne(results0, results1, store.results, action, Kept(stored, now));
      AdmittedWithRoom(rows0, results0, rows1, results1, store.rows, store.results, members.Keys, action, Kept(stored, now), store.maxRows);
    }

    /** Fetch the whole bundle a pointer names, and take it in only if it is proven. */
    method FetchWhole(action: string, stored: Bytes, pointer: Pointer, result: ActionResult, now: nat) returns (found: bool)
      requires Valid() && local.bucket != null
      modifies local`tainted, local.store
      ensures Valid() && (old(local.store.Genuine()) ==> local.store.Genuine())
      ensures var members := Fetched(local.store.sha, local.bucket.Serve(BundleKey(pointer.bundle), local.store.maxBytes));
              && (found <==> members.Some? && Proves(local.store.sha, pointer, result, members.value))
              && (found ==>
                    && KeepsProvenance(old(local.store.rows), local.store.rows, members.value.Keys, Some(pointer.bundle))
                    && (forall hash :: hash in members.value ==>
                          hash in local.store.files && local.store.files[hash].data == members.value[hash]))
      ensures var came := local.bucket.Serve(BundleKey(pointer.bundle), local.store.maxBytes).Got?;
              local.tainted == old(local.tainted) + if came && !found then {pointer.bundle} else {}
      ensures !found ==> local.store.files == old(local.store.files) && local.store.rows == old(local.store.rows)
                         && local.store.results == old(local.store.results)
      ensures found ==> FewerResults(old(local.store.results)[action := Kept(stored, now)], local.store.results)
      ensures var members := Fetched(local.store.sha, local.bucket.Serve(BundleKey(pointer.bundle), local.store.maxBytes));
              found && HasRoom(old(local.store.rows), members.value.Keys, old(local.store.results), {action}, local.store.maxRows) ==>
                local.store.results == old(local.store.results)[action := Kept(stored, now)]
    {
      hide KeepsProvenance, FewerResults, FewerOthers, GenuineFiles, SizedFiles, Present, Sized, OneSizePerHash, IsSha256Hex, Fetched,
           Proves, HasRoom, AfterEviction, Unreadable;
      var store := local.store;
      local.FetchedFits(pointer.bundle);
      FetchedCame(store.sha, local.ServedBundle(pointer.bundle));
      var members := local.FetchBundle(pointer.bundle);
      if members.None? {
        return false;
      }
      var blobs := Proven(store.sha, pointer, result, members.value);
      if blobs.None? {
        local.Refuse(pointer.bundle);
        return false;
      }
      TakeIn(action, stored, pointer.bundle, members.value, now);
      return true;
    }

    /** The bundle that a lookup asks for, gets, and finds not to be what its name or the result says. */
    ghost function Disproved(files: Files, action: string): set<string>
      requires local.bucket != null
      reads local.bucket
    {
      match PointerServed(unwrap, local.bucket, action)
      case None => {}
      case Some((pointer, result)) =>
        if && Backed(local.store.sha, files, result).Unresolved?
           && local.bucket.Serve(BundleKey(pointer.bundle), local.store.maxBytes).Got?
           && Offered(local.store.sha, unwrap, local.store.maxBytes, local.bucket, action).None?
        then {pointer.bundle} else {}
    }

    /** The blobs that a lookup in the bucket attributes to the bundle their pointer names: those already
        here, or else the members of a bundle that is proven. */
    ghost function Learnt(files: Files, action: string): set<string>
      requires local.bucket != null
      reads local.bucket
    {
      match PointerServed(unwrap, local.bucket, action)
      case None => {}
      case Some((pointer, result)) =>
        match Backed(local.store.sha, files, result)
        case Refused => {}
        case Resolved(digests) => HashesOf(digests)
        case Unresolved =>
          var offered := Offered(local.store.sha, unwrap, local.store.maxBytes, local.bucket, action);
          if offered.Some? then offered.value.members.Keys else {}
    }

    ghost function LearntFrom(action: string): Option<string>
      requires local.bucket != null
      reads local.bucket
    {
      match PointerServed(unwrap, local.bucket, action)
      case None => None
      case Some((pointer, _)) => Some(pointer.bundle)
    }

    /** Read a result and everything it names from the bucket, or nothing, which leaves it a miss. */
    method Fetch(action: string, now: nat) returns (found: Lookup)
      requires Valid() && local.bucket != null
      modifies local`tainted, local.store
      ensures Valid() && (old(local.store.Genuine()) ==> local.store.Genuine())
      ensures found.Found? ==> PointerServed(unwrap, local.bucket, action) == Some((found.pointer, found.result))
      ensures var served := PointerServed(unwrap, local.bucket, action);
              && (found.Raised? <==>
                    served.Some? && Backed(local.store.sha, old(local.store.files), served.value.1).Refused?)
              && (found.Found? <==>
                    served.Some?
                    && (|| Backed(local.store.sha, old(local.store.files), served.value.1).Resolved?
                        || (Backed(local.store.sha, old(local.store.files), served.value.1).Unresolved?
                            && Offered(local.store.sha, unwrap, local.store.maxBytes, local.bucket, action).Some?)))
      ensures found.Found? && Backed(local.store.sha, old(local.store.files), found.result).Resolved? ==>
                SameBytes(old(local.store.files), local.store.files)
      ensures !found.Found? ==>
                && OnlyRead(local.store.sha, old(local.store.files), old(local.store.rows), local.store.files, local.store.rows, now)
                && local.store.results == old(local.store.results)
      ensures local.tainted == old(local.tainted) + Disproved(old(local.store.files), action)
      ensures KeepsProvenance(old(local.store.rows), local.store.rows, Learnt(old(local.store.files), action), LearntFrom(action))
      ensures found.Found? && PointerKey(action) in local.bucket.objects
              && HasRoom(old(local.store.rows), Learnt(old(local.store.files), action), old(local.store.results), {action},
                         local.store.maxRows) ==>
                local.store.results == old(local.store.results)[action := Kept(local.bucket.objects[PointerKey(action)], now)]
      ensures var offered := Offered(local.store.sha, unwrap, local.store.maxBytes, local.bucket, action);
              offered.Some? && Deliverable(local.store.sha, offered.value, old(local.store.files)) ==>
                && found == Found(offered.value.pointer, offered.value.result)
                && Delivered(local.store.sha, local.store.files, offered.value)
                && AllReadable(local.store.sha, local.store.files, offered.value.result.trees)
    {
      hide KeepsProvenance, FewerResults, FewerOthers, GenuineFiles, SizedFiles, Present, Sized, OneSizePerHash, IsSha256Hex, Fetched,
           Proves, Trusted, Referenced, NamesBytes, Here, AllHexDigests, HasRoom, AttributeAll, OnlyRead, AllReadable, Backed, Deliverable,
           Delivered, GenuineMembers;
      var store := local.store;
      ghost var files0, rows0, results0 := store.files, store.rows, store.results;
      ghost var offered := Offered(store.sha, unwrap, store.maxBytes, local.bucket, action);
      ghost var deliverable := offered.Some? && Deliverable(store.sha, offered.value, files0);
      SameIsOnlyRead(store.sha, files0, rows0, files0, now, store.sizeOf);
      SameProvenance(rows0);
      NoneIsAnyBundle(rows0, rows0, LearntFrom(action));
      var served := local.bucket.Serve(PointerKey(action), SMALL_OBJECT);
      if !served.Got? {
        return Nothing;
      }
      var trusted := Trusted(unwrap, action, served.data);
      if trusted.None? {
        return Nothing;
      }
      var (pointer, result) := trusted.value;
      if deliverable {
        OfferedIsBacked(offered.value, store.sha, files0);
      }
      var here := ResolveHere(result, now);
      ghost var files1, rows1 := store.files, store.rows;
      OnlyReadKeepsProvenance(store.sha, files0, rows0, files1, rows1, now);
      NoneIsAnyBundle(rows0, rows1, Some(pointer.bundle));
      match here {
        case Refused =>
          return Raised;
        case Resolved(blobs) =>
          BackedIsHere(store.sha, files0, result);
          SameBytesSameHere(files0, files1, blobs);
          Keep(action, served.data, blobs, pointer.bundle, now);
          if deliverable {
            StillDelivered(store.sha, offered.value, files0, files1);
          }
          return Found(pointer, result);
        case Unresolved =>
          local.FetchedFits(pointer.bundle);
          var whole := FetchWhole(action, served.data, pointer, result, now);
          if whole {
            NoneThenProvenance(rows0, rows1, store.rows, offered.value.members.Keys, pointer.bundle);
            SameKeysSameRoom(rows0, rows1, offered.value.members.Keys, results0, {action}, store.maxRows);
          }
          if deliverable {
            AdmittedIsDelivered(offered.value, store.sha, store.sizeOf, files0, store.files);
          }
          return if whole then Found(pointer, result) else Nothing;
      }
    }

    /** A result whose blobs may have been evicted, but whose bundle the bucket still serves. */
    ghost predicate Restorable(rows: Rows, results: Results, files: Files, pointer: Pointer, result: ActionResult)
      reads local.bucket
    {
      local.bucket != null
      && var fetched := Fetched(local.store.sha, local.ServedBundle(pointer.bundle));
      fetched.Some? && Proves(local.store.sha, pointer, result, fetched.value)
      && Recoverable(rows, results, files, pointer.bundle, Referenced(fetched.value, result, false).digests)
    }

    lemma RecoverableMeans(rows: Rows, results: Results, files: Files, source: string, digests: seq<Digest>)
      requires Recoverable(rows, results, files, source, digests)
      ensures local.bucket != null
      ensures var fetched := Fetched(local.store.sha, local.ServedBundle(source));
              fetched.Some? && Refillable(rows, fetched, source, digests) && AgreesWith(local.store.sha, files, fetched.value)
    {
    }

    lemma RestorableResolves(rows: Rows, results: Results, files: Files, pointer: Pointer, result: ActionResult)
      requires Restorable(rows, results, files, pointer, result)
      ensures AllHexDigests(result.trees) && Recoverable(rows, results, files, pointer.bundle, result.trees)
      ensures var members := Fetched(local.store.sha, local.ServedBundle(pointer.bundle)).value;
              var resolution := Referenced(members, result, true);
              && resolution == Referenced(members, result, false) && resolution.Resolved? && AllHexDigests(resolution.digests)
              && Recoverable(rows, results, files, pointer.bundle, resolution.digests)
    {
      hide Fetched, ResolveTrees, IsSha256Hex, NameOf, AgreesWith, HasRoom, Attributed;
      var members := Fetched(local.store.sha, local.ServedBundle(pointer.bundle)).value;
      var digests, trees := Referenced(members, result, false).digests, result.trees;
      ProvenDigestsAreHex(local.store.sha, pointer, result, members);
      forall i | 0 <= i < |trees|
        ensures trees[i] == digests[|result.files| + i]
      {
      }
      CheckedWhenHex(members, trees);
    }

    /** The result a lookup is about: the kept one, if its pointer is trusted, or else the bucket's. */
    function LookedUp(results: Results, action: string): Option<ActionResult>
      reads local.bucket
    {
      match Remembered(unwrap, results, action)
      case Some((_, result)) => Some(result)
      case None =>
        if local.bucket == null then None
        else
          match PointerServed(unwrap, local.bucket, action)
          case Some((_, result)) => Some(result)
          case None => None
    }

    /** The bucket's result is not here, and its bundle is not there either, or does not prove it. */
    ghost predicate Unbacked(results: Results, files: Files, action: string)
      reads local.bucket
    {
      && Remembered(unwrap, results, action).None? && local.bucket != null && PointerServed(unwrap, local.bucket, action).Some?
      && Backed(local.store.sha, files, PointerServed(unwrap, local.bucket, action).value.1).Unresolved?
      && Offered(local.store.sha, unwrap, local.store.maxBytes, local.bucket, action).None?
    }

    /** Back a result that was looked up: a hit once every blob it names is here, and otherwise a miss. */
    method Back(pointer: Pointer, result: ActionResult, now: nat) returns (outcome: Outcome)
      requires Valid()
      modifies local, local.store
      ensures Valid() && (old(local.store.Genuine()) ==> local.store.Genuine())
      ensures outcome.Failed? || outcome.Miss? || outcome.Hit?
      ensures outcome.Failed? ==> Malformed(local.store.sha, result)
      ensures outcome.Miss? ==> Lacking(local.store.sha, local.store.files, result)
      ensures outcome.Hit? ==>
                && outcome.result == result
                && Names(local.store.sha, result, outcome.blobs) && AllHere(local.store.files, outcome.blobs)
      ensures KeepsProvenance(old(local.store.rows), local.store.rows, {}, None)
      ensures TreesIntact(local.store.sha, old(local.store.files), result) ==>
                (outcome.Failed? <==> Backed(local.store.sha, old(local.store.files), result).Refused?)
      ensures Backed(local.store.sha, old(local.store.files), result).Resolved? ==>
                && outcome == Hit(result, Backed(local.store.sha, old(local.store.files), result).digests)
                && SameBytes(old(local.store.files), local.store.files) && local.store.rows == old(local.store.rows)
      ensures Restorable(old(local.store.rows), old(local.store.results), old(local.store.files), pointer, result) ==>
                var members := Fetched(local.store.sha, local.ServedBundle(pointer.bundle)).value;
                var digests := Referenced(members, result, false).digests;
                && outcome == Hit(result, digests) && AllHere(local.store.files, digests)
                && AgreesWith(local.store.sha, local.store.files, members)
    {
      hide KeepsProvenance, FewerResults, GenuineFiles, SizedFiles, Present, Sized, OneSizePerHash, IsSha256Hex, Fetched, Proves,
           Referenced, NamesBytes, Here, AllHexDigests, Names, AllHere, SameBytes, Refillable, AgreesWith, SameIndex, HasRoom, Recoverable,
           Restorable, Refilled, AllIntact, Readable, TreesIntact, TreeRefused, TreeLacking;
      var store, source := local.store, pointer.bundle;
      ghost var rows0, results0, files0 := store.rows, store.results, store.files;
      ghost var here := Backed(store.sha, files0, result).Resolved?;
      ghost var restores := Restorable(rows0, results0, files0, pointer, result);
      if here {
        BackedIsHere(store.sha, files0, result);
        AllTreesIntact(store.sha, files0, result);
      }
      if restores {
        RestorableResolves(rows0, results0, files0, pointer, result);
      }
      var resolution := ResolveThroughLocal(result, source, now);
      if resolution.Refused? {
        return Failed;
      }
      if resolution.Unresolved? {
        return Miss;
      }
      ghost var rows1, files1 := store.rows, store.files;
      if TreesIntact(store.sha, files0, result) {
        SameBytesSameHere(files0, files1, resolution.digests);
      }
      if restores {
        StillRecoverable(rows0, results0, files0, rows1, store.results, files1, source, resolution.digests);
        RecoverableMeans(rows1, store.results, files1, source, resolution.digests);
      }
      var all := local.Ensure(resolution.digests, source, now);
      ProvenanceChains(rows0, rows1, store.rows);
      if restores {
        RefilledAgrees(files1, resolution.digests, Fetched(store.sha, local.ServedBundle(source)), store.files,
                       Attributed(rows1, source), store.sha);
      }
      if here {
        SameBytesChain(files0, files1, store.files);
      }
      if all.None? {
        return Failed;
      }
      return if all.value then Hit(result, resolution.digests) else Miss;
    }

    /** Answer a lookup. A hit is a result someone trusted vouches for, with every blob it names here;
        what the bucket offers is served, unless a pointer is kept here already. */
    method Get(action: string, now: nat) returns (outcome: Outcome)
      requires Valid()
      modifies local, local.store
      ensures Valid() && (old(local.store.Genuine()) ==> local.store.Genuine())
      ensures outcome.Invalid? <==> !IsSha256Hex(action)
      ensures outcome.Hit? ==>
                && Vouched(unwrap, old(local.store.results), local.bucket, action, outcome.result)
                && Names(local.store.sha, outcome.result, outcome.blobs) && AllHere(local.store.files, outcome.blobs)
      ensures IsSha256Hex(action) && local.bucket != null
              && (action in old(local.store.results) ==> Trusted(unwrap, action, old(local.store.results)[action].pointer).None?) ==>
                var offered := Offered(local.store.sha, unwrap, local.store.maxBytes, local.bucket, action);
                offered.Some? && Deliverable(local.store.sha, offered.value, old(local.store.files)) ==>
                  && outcome == Hit(offered.value.result, offered.value.digests)
                  && Delivered(local.store.sha, local.store.files, offered.value)
      ensures var kept := Remembered(unwrap, old(local.store.results), action);
              IsSha256Hex(action) && kept.Some?
              && Restorable(old(local.store.rows), old(local.store.results), old(local.store.files), kept.value.0, kept.value.1) ==>
                var members := Fetched(local.store.sha, local.ServedBundle(kept.value.0.bundle)).value;
                var digests := Referenced(members, kept.value.1, false).digests;
                && outcome == Hit(kept.value.1, digests) && AllHere(local.store.files, digests)
                && AgreesWith(local.store.sha, local.store.files, members)
      ensures var kept := Remembered(unwrap, old(local.store.results), action);
              IsSha256Hex(action) && kept.Some? && Backed(local.store.sha, old(local.store.files), kept.value.1).Resolved? ==>
                && outcome == Hit(kept.value.1, Backed(local.store.sha, old(local.store.files), kept.value.1).digests)
                && SameBytes(old(local.store.files), local.store.files) && local.store.rows == old(local.store.rows)
      ensures IsSha256Hex(action) && Remembered(unwrap, old(local.store.results), action).None? ==>
                if local.bucket == null || PointerServed(unwrap, local.bucket, action).None? then outcome.Miss?
                else
                  var result := PointerServed(unwrap, local.bucket, action).value.1;
                  match Backed(local.store.sha, old(local.store.files), result)
                  case Refused => outcome.Failed?
                  case Unresolved =>
                    Offered(local.store.sha, unwrap, local.store.maxBytes, local.bucket, action).None? ==> outcome.Miss?
                  case Resolved(digests) =>
                    && outcome == Hit(result, digests) && SameBytes(old(local.store.files), local.store.files)
      ensures var result := LookedUp(old(local.store.results), action);
              IsSha256Hex(action) && result.Some?
              && (Remembered(unwrap, old(local.store.results), action).Some?
                  || !Backed(local.store.sha, old(local.store.files), result.value).Refused?) ==>
                && (outcome.Failed? ==> Malformed(local.store.sha, result.value))
                && (outcome.Miss? ==> Unbacked(old(local.store.results), old(local.store.files), action)
                                      || Lacking(local.store.sha, local.store.files, result.value))
                && (outcome.Hit? ==> outcome.result == result.value)
      ensures var kept := Remembered(unwrap, old(local.store.results), action);
              IsSha256Hex(action) && kept.Some? && TreesIntact(local.store.sha, old(local.store.files), kept.value.1) ==>
                (outcome.Failed? <==> Backed(local.store.sha, old(local.store.files), kept.value.1).Refused?)
      ensures var looksUp := IsSha256Hex(action) && Remembered(unwrap, old(local.store.results), action).None? && local.bucket != null;
              KeepsProvenance(old(local.store.rows), local.store.rows,
                              if looksUp then Learnt(old(local.store.files), action) else {},
                              if looksUp then LearntFrom(action) else None)
    {
      hide KeepsProvenance, FewerResults, FewerOthers, GenuineFiles, SizedFiles, Present, Sized, OneSizePerHash, IsSha256Hex, Fetched,
           Proves, Trusted, Referenced, NamesBytes, Here, AllHexDigests, Names, AllHere, SameBytes, Deliverable, Delivered, Backed,
           PointerServed, AgreesWith, HasRoom, Restorable, OnlyRead, AllReadable, TreesIntact, Malformed, Lacking, Readable;
      var store := local.store;
      ghost var rows0, files0 := store.rows, store.files;
      ghost var looksUp := IsSha256Hex(action) && Remembered(unwrap, store.results, action).None? && local.bucket != null;
      ghost var batch := if looksUp then Learnt(store.files, action) else {};
      ghost var bundle := if looksUp then LearntFrom(action) else None;
      SameProvenance(rows0);
      if !IsSha256Hex(action) {
        return Invalid;
      }
      ghost var offered :=
        if local.bucket == null then None else Offered(store.sha, unwrap, store.maxBytes, local.bucket, action);
      var found := KeptPointer(action);
      ghost var kept := found.Found?;
      if found.Nothing? && local.bucket != null {
        found := Fetch(action, now);
      }
      if found.Nothing? {
        return Miss;
      }
      if found.Raised? {
        return Failed;
      }
      ghost var offers := !kept && offered.Some? && Deliverable(store.sha, offered.value, files0);
      ghost var files1, rows1 := store.files, store.rows;
      if offers {
        DeliveredIsBacked(offered.value, store.sha, files1);
      }
      if Backed(store.sha, files0, found.result).Resolved? {
        SameBytesAsBefore(files0);
        SameBytesBackAlike(store.sha, files0, files1, found.result);
      }
      outcome := Back(found.pointer, found.result, now);
      ProvenanceThenNone(rows0, rows1, store.rows, batch, bundle);
      if offers {
        StillDelivered(store.sha, offered.value, files1, store.files);
      }
      if Backed(store.sha, files0, found.result).Resolved? {
        SameBytesChain(files0, files1, store.files);
      }
    }

    /** What a store would keep and publish for a result: its pointer, the bundle's name, and the blobs. */
    ghost function Prepared(files: Files, action: string, result: ActionResult): Preparation
    {
      match Backed(local.store.sha, files, result)
      case Refused => Rejected
      case Unresolved => NotStored
      case Resolved(blobs) =>
        var bundle := NameOf(local.store.sha, Elements(blobs));
        var payload := Payload(wrap, action, Pointer(bundle, result.raw));
        if payload.None? then NotStored else Ready(payload.value, bundle, blobs)
    }

    /** A preparation that is ready names exactly the blobs that back the result, by the name they make. */
    lemma PreparedIsBacked(files: Files, action: string, result: ActionResult)
      requires NamesBytes(local.store.sha)
      ensures var prepared := Prepared(files, action, result);
              && (prepared.Rejected? <==> Backed(local.store.sha, files, result).Refused?)
              && (Backed(local.store.sha, files, result).Resolved? && Signs(wrap, action) ==> prepared.Ready?)
              && (prepared.Ready? ==>
                    && Backed(local.store.sha, files, result) == Resolved(prepared.blobs)
                    && AllHexDigests(prepared.blobs) && AllHere(files, prepared.blobs)
                    && HexHashes(Elements(prepared.blobs)) && prepared.bundle == NameOf(local.store.sha, Elements(prepared.blobs))
                    && IsSha256Hex(prepared.bundle)
                    && Payload(wrap, action, Pointer(prepared.bundle, result.raw)) == Some(prepared.payload))
    {
      hide IsSha256Hex, AcPack, NamedBytes, Referenced, AllHere, AllHexDigests;
      if Backed(local.store.sha, files, result).Resolved? {
        HexDigestsHaveHexHashes(Backed(local.store.sha, files, result).digests);
      }
    }

    /** The pointer for a result a client handed over, and the blobs it names. Nothing is kept when
        its outputs are not all here, or it cannot be signed. */
    method Prepare(action: string, result: ActionResult, now: nat) returns (prepared: Preparation)
      requires Valid()
      modifies local.store
      ensures Valid() && (old(local.store.Genuine()) ==> local.store.Genuine())
      ensures OnlyRead(local.store.sha, old(local.store.files), old(local.store.rows), local.store.files, local.store.rows, now)
      ensures prepared.Ready? ==> SameBytes(old(local.store.files), local.store.files) && local.store.rows == old(local.store.rows)
      ensures local.store.results == old(local.store.results)
      ensures prepared == Prepared(old(local.store.files), action, result)
    {
      hide GenuineFiles, SizedFiles, Present, Sized, OneSizePerHash, IsSha256Hex, SameBytes, AllHere, Referenced, AcPack, NamedBytes,
           OnlyRead, Backed, Payload;
      var resolution := ResolveHere(result, now);
      match resolution {
        case Refused => return Rejected;
        case Unresolved => return NotStored;
        case Resolved(blobs) =>
          BackedIsHere(local.store.sha, old(local.store.files), result);
          HexDigestsHaveHexHashes(blobs);
          var bundle := BundleNameOf(local.store.sha, blobs);
          var payload := Payload(wrap, action, Pointer(bundle, result.raw));
          return if payload.None? then NotStored else Ready(payload.value, bundle, blobs);
      }
    }

    /** Read every blob a bundle needs out of the store, unless one of them cannot be read. */
    method Gather(blobs: seq<Digest>, now: nat) returns (members: Option<map<string, Bytes>>)
      requires Valid() && AllHexDigests(blobs)
      modifies local.store
      ensures Valid() && (old(local.store.Genuine()) ==> local.store.Genuine())
      ensures OnlyRead(local.store.sha, old(local.store.files), old(local.store.rows), local.store.files, local.store.rows, now)
      ensures local.store.results == old(local.store.results)
      ensures members.Some? <==> AllReadable(local.store.sha, old(local.store.files), blobs)
      ensures members.Some? ==>
                && members.value == MembersHere(old(local.store.files), blobs) && members.value.Keys == HashesOf(blobs)
                && SameBytes(old(local.store.files), local.store.files) && local.store.rows == old(local.store.rows)
    {
      hide GenuineFiles, SizedFiles, Present, Sized, OneSizePerHash, IsSha256Hex, ForgetRows, NamesBytes, MembersHere, HashesOf, OnlyRead,
           Readable, SameBytes;
      var store := local.store;
      ghost var files0 := store.files;
      var gathered := map[];
      NothingGathered(files0, blobs);
      SameBytesAsBefore(files0);
      for i := 0 to |blobs|
        invariant Valid() && (old(store.Genuine()) ==> store.Genuine())
        invariant SameBytes(files0, store.files)
        invariant store.rows == old(store.rows) && store.results == old(store.results)
        invariant gathered == MembersHere(files0, blobs[..i]) && gathered.Keys == HashesOf(blobs[..i])
        invariant forall j :: 0 <= j < i ==> blobs[j].hash in Readable(store.sha, files0)
      {
        ghost var before := store.files;
        ForgetNothing(store.rows, now, store.sizeOf);
        var data := store.ReadBlob(blobs[i], now);
        SameRead(store.sha, files0, before, blobs[i]);
        if !data.Content? {
          OneLost(store.sha, files0, old(store.rows), before, store.files, blobs[i], now);
          return None;
        }
        OneMoreGathered(files0, before, store.files, blobs, i, data.data);
        gathered := gathered[blobs[i].hash := data.data];
      }
      assert blobs[..|blobs|] == blobs;
      SameIsOnlyRead(store.sha, files0, store.rows, store.files, now, store.sizeOf);
      return Some(gathered);
    }

    /** Have the bucket hold the bundle: today's date for one it already has, unless that was seen not
        to match its name, and otherwise a new upload. */
    method PublishBundle(bundle: string, blobs: seq<Digest>, network: Network, now: nat) returns (done: bool)
      requires Valid() && local.bucket != null && AllHexDigests(blobs) && SmallFiles(local.store.files)
      modifies local`tainted, local.store, local.bucket`objects
      ensures Valid() && (old(local.store.Genuine()) ==> local.store.Genuine())
      ensures done <==> BundleStands(old(local.bucket.objects), local.store.sha, old(local.store.files), bundle, blobs,
                                     old(local.tainted), network)
      ensures local.bucket.objects == AfterBundle(old(local.bucket.objects), local.store.sha, old(local.store.files), bundle, blobs,
                                                  old(local.tainted), network)
      ensures local.tainted == old(local.tainted) - if done then {bundle} else {}
      ensures OnlyRead(local.store.sha, old(local.store.files), old(local.store.rows), local.store.files, local.store.rows, now)
      ensures done || AllReadable(local.store.sha, old(local.store.files), blobs) ==>
                SameBytes(old(local.store.files), local.store.files) && local.store.rows == old(local.store.rows)
      ensures local.store.results == old(local.store.results)
    {
      hide GenuineFiles, SizedFiles, Present, Sized, OneSizePerHash, IsSha256Hex, Packed, NamesBytes, AllHere, MembersHere, SameBytes,
           Pow256, AllReadable, OnlyRead, SmallFiles;
      HexDigestsHaveHexHashes(blobs);
      SameBytesAsBefore(local.store.files);
      SameIsOnlyRead(local.store.sha, local.store.files, local.store.rows, local.store.files, now, local.store.sizeOf);
      var shared := Some(false);
      if bundle !in local.tainted {
        shared := local.bucket.Refresh(BundleKey(bundle), network.refresh);
      }
      if shared.None? {
        return false;
      }
      if shared.value {
        return true;
      }
      ghost var objects0, files0 := local.bucket.objects, local.store.files;
      var members := Gather(blobs, now);
      if members.None? {
        return false;
      }
      MembersAreGenuine(files0, local.store.sha, local.store.sizeOf, blobs);
      var packed := Pack(members.value);
      StillOneSize(objects0, local.store.sha, local.store.sizeOf, bundle, members.value);
      done := local.bucket.Put(BundleKey(bundle), packed, network.upload);
      if done {
        local.tainted := local.tainted - {bundle};
      }
    }

    /** Write one bundle holding every blob the result names, then the pointer to it. What `PublishingIsSafe`
        says of the objects afterwards holds of the bucket. */
    method Publish(action: string, payload: Bytes, bundle: string, blobs: seq<Digest>, network: Network, now: nat) returns (done: bool)
      requires Valid() && local.bucket != null && AllHexDigests(blobs)
      requires AllHere(local.store.files, blobs) && SmallFiles(local.store.files)
      modifies local`tainted, local.store, local.bucket`objects
      ensures Valid() && (old(local.store.Genuine()) ==> local.store.Genuine())
      ensures var stands := BundleStands(old(local.bucket.objects), local.store.sha, old(local.store.files), bundle, blobs,
                                         old(local.tainted), network);
              && (done <==> stands && network.point.Answered?)
              && local.tainted == old(local.tainted) - if stands then {bundle} else {}
      ensures local.bucket.objects == AfterPublish(old(local.bucket.objects), local.store.sha, old(local.store.files), action, payload,
                                                   bundle, blobs, old(local.tainted), network)
      ensures done || AllReadable(local.store.sha, old(local.store.files), blobs) ==> SameBytes(old(local.store.files), local.store.files)
      ensures if done then KeepsProvenance(old(local.store.rows), local.store.rows, HashesOf(blobs), Some(bundle))
                           && AfterEviction(AttributeAll(old(local.store.rows), blobs, bundle, now), old(local.store.results),
                                            local.store.maxRows, local.store.rows, local.store.results)
              else OnlyRead(local.store.sha, old(local.store.files), old(local.store.rows), local.store.files, local.store.rows, now)
                   && local.store.results == old(local.store.results)
    {
      hide GenuineFiles, SizedFiles, Present, Sized, OneSizePerHash, IsSha256Hex, NamesBytes, AllHere, BundlePublished, SameBytes,
           KeepsProvenance, Pow256, AfterEviction, AttributeAll, HashesOf, OnlyRead, AllReadable, BundleStands, AfterBundle, SmallFiles;
      HereHasRows(local.store.rows, local.store.files, blobs);
      done := PublishBundle(bundle, blobs, network, now);
      if done {
        PointersAreNoBundles(local.bucket.objects, local.store.sha, local.store.sizeOf, action, payload);
        done := local.bucket.Put(PointerKey(action), payload, network.point);
        if done {
          local.store.RememberAll(blobs, bundle, now);
        }
      }
    }

    /** Keep the pointer to a result, and publish it if this shim writes to the bucket. */
    method KeepAndPublish(action: string, payload: Bytes, bundle: string, blobs: seq<Digest>, network: Network, now: nat)
      returns (answer: Answer)
      requires Valid() && AllHere(local.store.files, blobs) && AllHexDigests(blobs) && SmallFiles(local.store.files)
      modifies local`tainted, local.store
      modifies if local.bucket == null then {} else {local.bucket}
      ensures Valid() && (old(local.store.Genuine()) ==> local.store.Genuine())
      ensures answer in {StoredOnly, PublishFailed, Published}
      ensures answer.StoredOnly? <==> local.bucket == null || !writes
      ensures local.bucket != null ==>
                && local.bucket.down == old(local.bucket.down)
                && if writes then
                     var stands := BundleStands(old(local.bucket.objects), local.store.sha, old(local.store.files), bundle, blobs,
                                                old(local.tainted), network);
                     && (answer.Published? <==> stands && network.point.Answered?)
                     && local.tainted == old(local.tainted) - (if stands then {bundle} else {})
                     && local.bucket.objects ==
                        AfterPublish(old(local.bucket.objects), local.store.sha, old(local.store.files), action, payload, bundle, blobs,
                                     old(local.tainted), network)
                   else local.bucket.objects == old(local.bucket.objects) && local.tainted == old(local.tainted)
      ensures LosesOnlyRot(local.store.sha, old(local.store.files), local.store.files)
      ensures !answer.PublishFailed? || AllReadable(local.store.sha, old(local.store.files), blobs) ==>
                SameBytes(old(local.store.files), local.store.files)
      ensures KeepsProvenance(old(local.store.rows), local.store.rows, if answer.Published? then HashesOf(blobs) else {}, Some(bundle))
      ensures HasRoom(old(local.store.rows), HashesOf(blobs), old(local.store.results), {action}, local.store.maxRows) ==>
                local.store.results == old(local.store.results)[action := Kept(payload, now)]
    {
      hide GenuineFiles, SizedFiles, Present, Sized, OneSizePerHash, IsSha256Hex, NamesBytes, AllHere, BundlePublished, SameBytes,
           KeepsProvenance, Pow256, FewerResults, AllHexDigests, HasRoom, AfterEviction, AttributeAll, HashesOf, OnlyRead, LosesOnlyRot,
           AllReadable, BundleStands, AfterPublish, SmallFiles;
      var store := local.store;
      ghost var rows0, results0, files0 := store.rows, store.results, store.files;
      store.PutResult(action, payload, now);
      ghost var rows1, results1 := store.rows, store.results;
      KeptWithRoom(rows0, results0, rows1, results1, action, Kept(payload, now), HashesOf(blobs), store.maxRows);
      NoneIsAnyBundle(rows0, rows1, Some(bundle));
      SameBytesAsBefore(files0);
      if local.bucket == null || !writes {
        SameLosesNothing(store.sha, files0, store.files);
        return StoredOnly;
      }
      var done := Publish(action, payload, bundle, blobs, network, now);
      if done {
        SameLosesNothing(store.sha, files0, store.files);
        KeptAndRemembered(rows0, results0, rows1, results1, store.rows, store.results, action, Kept(payload, now), blobs, bundle,
                          now, store.maxRows);
        return Published;
      }
      OnlyReadLosesRot(store.sha, files0, rows1, store.files, store.rows, now);
      OnlyReadKeepsProvenance(store.sha, files0, rows1, store.files, store.rows, now);
      ProvenanceChains(rows0, rows1, store.rows);
      NoneIsAnyBundle(rows0, store.rows, Some(bundle));
      return PublishFailed;
    }

    /** Whether uploads are taken at all: a reader that has an authority to trust takes none. */
    predicate Accepting() {
      unwrap.None? || wrap.Some?
    }

    /** Store a result a client built, and publish it if this shim writes to the bucket. */
    method Update(action: string, result: ActionResult, network: Network, now: nat) returns (answer: Answer)
      requires Valid() && SmallFiles(local.store.files)
      modifies local`tainted, local.store
      modifies if local.bucket == null then {} else {local.bucket}
      ensures Valid() && (old(local.store.Genuine()) ==> local.store.Genuine())
      ensures answer.BadRequest? <==>
                !IsSha256Hex(action) || ((unwrap.None? || wrap.Some?) && Backed(local.store.sha, old(local.store.files), result).Refused?)
      ensures answer.NotAccepting? <==> IsSha256Hex(action) && !(unwrap.None? || wrap.Some?)
      ensures var prepared := Prepared(old(local.store.files), action, result);
              var kept := IsSha256Hex(action) && (unwrap.None? || wrap.Some?) && prepared.Ready?;
              && (answer in {StoredOnly, PublishFailed, Published} <==> kept)
              && (kept ==>
                    && (answer.StoredOnly? <==> local.bucket == null || !writes)
                    && (HasRoom(old(local.store.rows), HashesOf(prepared.blobs), old(local.store.results), {action}, local.store.maxRows) ==>
                          local.store.results == old(local.store.results)[action := Kept(prepared.payload, now)])
                    && KeepsProvenance(old(local.store.rows), local.store.rows,
                                       if answer.Published? then HashesOf(prepared.blobs) else {}, Some(prepared.bundle)))
              && (!kept ==> local.store.results == old(local.store.results)
                            && KeepsProvenance(old(local.store.rows), local.store.rows, {}, None))
      ensures local.bucket != null ==>
                && local.bucket.down == old(local.bucket.down)
                && var prepared := Prepared(old(local.store.files), action, result);
                if IsSha256Hex(action) && (unwrap.None? || wrap.Some?) && prepared.Ready? && writes then
                  AllHexDigests(prepared.blobs)
                  && var stands := BundleStands(old(local.bucket.objects), local.store.sha, old(local.store.files), prepared.bundle,
                                                prepared.blobs, old(local.tainted), network);
                  && (answer.Published? <==> stands && network.point.Answered?)
                  && local.tainted == old(local.tainted) - (if stands then {prepared.bundle} else {})
                  && local.bucket.objects ==
                     AfterPublish(old(local.bucket.objects), local.store.sha, old(local.store.files), action, prepared.payload,
                                  prepared.bundle, prepared.blobs, old(local.tainted), network)
                else local.bucket.objects == old(local.bucket.objects) && local.tainted == old(local.tainted)
      ensures LosesOnlyRot(local.store.sha, old(local.store.files), local.store.files)
      ensures answer.Published? ==> SameBytes(old(local.store.files), local.store.files)
    {
      hide GenuineFiles, SizedFiles, Present, Sized, OneSizePerHash, IsSha256Hex, NamesBytes, AllHere, BundlePublished, SameBytes,
           KeepsProvenance, Pow256, Payload, NamedBytes, Referenced, FewerResults, AllHexDigests, HasRoom, AfterEviction, AttributeAll,
           HashesOf, OnlyRead, LosesOnlyRot, AllReadable, BundleStands, AfterPublish, Backed, Prepared, SmallFiles;
      var store := local.store;
      ghost var files0, rows0 := store.files, store.rows;
      SameBytesAsBefore(files0);
      SameLosesNothing(store.sha, files0, files0);
      SameProvenance(rows0);
      PreparedIsBacked(files0, action, result);
      if !IsSha256Hex(action) {
        return BadRequest;
      }
      if !Accepting() {
        return NotAccepting;
      }
      var prepared := Prepare(action, result, now);
      ghost var files1 := store.files;
      OnlyReadLosesRot(store.sha, files0, rows0, files1, store.rows, now);
      OnlyReadKeepsProvenance(store.sha, files0, rows0, files1, store.rows, now);
      match prepared {
        case Rejected => return BadRequest;
        case NotStored => return NotStorable;
        case Ready(payload, bundle, blobs) =>
          SameBytesSameHere(files0, files1, blobs);
          StillSmall(files0, files1);
          if local.bucket != null {
            SamePublication(local.bucket.objects, store.sha, files0, files1, action, payload, bundle, blobs, local.tainted, network);
          }
          answer := KeepAndPublish(action, payload, bundle, blobs, network, now);
          SameThenLosesRot(store.sha, files0, files1, store.files);
          if answer.Published? {
            SameBytesChain(files0, files1, store.files);
          }
      }
    }

    /** What the store holds for this action, verified as if it had just come from the bucket. */
    method KeptPointer(action: string) returns (found: Lookup)
      modifies local.store`results
      ensures !found.Raised?
      ensures found.Found? ==>
                && action in old(local.store.results)
                && Trusted(unwrap, action, old(local.store.results)[action].pointer) == Some((found.pointer, found.result))
      ensures found.Nothing? <==>
                action !in old(local.store.results)
                || Trusted(unwrap, action, old(local.store.results)[action].pointer).None?
      ensures local.store.results == if found.Nothing? then old(local.store.results) - {action} else old(local.store.results)
    {
      hide Trusted;
      var stored := local.store.Result(action);
      if stored.None? {
        return Nothing;
      }
      match Trusted(unwrap, action, stored.value) {
        case Some(pair) =>
          return Found(pair.0, pair.1);
        case None =>
          local.store.DropResult(action);
          return Nothing;
      }
    }
  }

  lemma RefilledAgrees(before: Files, needed: seq<Digest>, fetched: Option<map<string, Bytes>>, after: Files, known: set<string>,
                       sha: Bytes -> string)
    requires fetched.Some? && Refilled(before, needed, fetched, after, known, sha) && AgreesWith(sha, before, fetched.value)
    ensures AgreesWith(sha, after, fetched.value)
  {
  }

  lemma RefillableIsFetched(rows: Rows, fetched: Option<map<string, Bytes>>, name: string, digests: seq<Digest>)
    ensures Refillable(rows, fetched, name, digests) ==>
              fetched.Some? && forall i :: 0 <= i < |digests| ==> digests[i].hash in fetched.value
  {
  }

  /** Blobs that are all intact resolve as the bundle they agree with does. */
  lemma SameEitherWay(sha: Bytes -> string, files: Files, members: map<string, Bytes>, result: ActionResult)
    requires AllIntact(sha, files, result.trees) && AgreesWith(sha, files, members)
    requires forall i :: 0 <= i < |result.trees| ==> result.trees[i].hash in members
    ensures Referenced(Readable(sha, files), result, true) == Referenced(members, result, true)
  {
    hide ResolveTrees;
    SameTreesSameFiles(Readable(sha, files), members, result.trees, true);
  }

  lemma NextTreeRead(sha: Bytes -> string, trees: seq<Digest>, read: seq<Bytes>, files: seq<Digest>, tree: Bytes)
    requires TreesRead(sha, trees, read, files) && |read| < |trees| && sha(tree) == trees[|read|].hash && TreeFiles(tree).Some?
    ensures TreesRead(sha, trees, read + [tree], files + TreeFiles(tree).value)
  {
    hide TreeFiles, FilesOfTrees;
    OneMoreTree(read, tree);
  }

  lemma NamesThroughTrees(sha: Bytes -> string, result: ActionResult, trees: seq<Bytes>, files: seq<Digest>)
    requires TreesRead(sha, result.trees, trees, files) && |trees| == |result.trees|
    ensures Names(sha, result, result.Named() + files)
  {
  }

  lemma OneRefillable(rows: Rows, fetched: Option<map<string, Bytes>>, name: string, digests: seq<Digest>, i: nat)
    requires Refillable(rows, fetched, name, digests) && i < |digests|
    ensures Refillable(rows, fetched, name, [digests[i]])
  {
    assert digests[i] in digests;
  }

  lemma ReferencedMeans(blobs: map<string, Bytes>, result: ActionResult)
    ensures var rest := ResolveTrees(blobs, result.trees, true);
            Referenced(blobs, result, true) == if rest.Resolved? then Resolved(result.Named() + rest.digests) else rest
  {
  }

  lemma StartResolving(rest: Resolution)
    ensures AfterFiles([], rest) == rest
  {
    if rest.Resolved? {
      assert [] + rest.digests == rest.digests;
    }
  }

  lemma NoTrees(sha: Bytes -> string, trees: seq<Digest>)
    ensures TreesRead(sha, trees, [], [])
  {
  }

  lemma HereHasBytes(files: Files, digest: Digest)
    ensures Here(files, digest) ==> digest.hash in files
  {
  }

  lemma AdmittedIsDelivered(offer: Offer, sha: Bytes -> string, sizeOf: string -> nat, before: Files, after: Files)
    requires Deliverable(sha, offer, before) && GenuineMembers(offer.members, sha, sizeOf)
    requires Proves(sha, offer.pointer, offer.result, offer.members)
    requires forall hash :: hash in offer.members ==> hash in after && after[hash].data == offer.members[hash]
    ensures Delivered(sha, after, offer) && AllReadable(sha, after, offer.result.trees)
  {
    hide IsSha256Hex, Proves;
    ProvenDigestsAreHex(sha, offer.pointer, offer.result, offer.members);
  }

  lemma StillDelivered(sha: Bytes -> string, offer: Offer, before: Files, after: Files)
    requires SameBytes(before, after)
    ensures Delivered(sha, before, offer) ==> Delivered(sha, after, offer)
    ensures AllReadable(sha, before, offer.result.trees) ==> AllReadable(sha, after, offer.result.trees)
  {
  }

  lemma NothingGathered(files: Files, blobs: seq<Digest>)
    ensures MembersHere(files, blobs[..0]) == map[] && HashesOf(blobs[..0]) == {}
  {
  }

  lemma OneMoreGathered(files: Files, before: Files, after: Files, blobs: seq<Digest>, i: nat, data: Bytes)
    requires i < |blobs| && SameBytes(files, before)
    requires blobs[i].hash in before && data == before[blobs[i].hash].data && blobs[i].hash in after
             && after == before[blobs[i].hash := after[blobs[i].hash]] && after[blobs[i].hash].data == data
    ensures SameBytes(files, after)
    ensures MembersHere(files, blobs[..i + 1]) == MembersHere(files, blobs[..i])[blobs[i].hash := data]
    ensures HashesOf(blobs[..i + 1]) == HashesOf(blobs[..i]) + {blobs[i].hash}
  {
    assert blobs[..i + 1] == blobs[..i] + [blobs[i]];
  }

  lemma SameRead(sha: Bytes -> string, files: Files, before: Files, digest: Digest)
    requires SameBytes(files, before)
    ensures digest.hash in Readable(sha, files) <==> digest.hash in before && sha(before[digest.hash].data) == digest.hash
  {
  }

  lemma SameLosesNothing(sha: Bytes -> string, before: Files, after: Files)
    requires SameBytes(before, after)
    ensures LosesOnlyRot(sha, before, after)
  {
  }

  lemma SameThenLosesRot(sha: Bytes -> string, a: Files, b: Files, c: Files)
    requires SameBytes(a, b) && LosesOnlyRot(sha, b, c)
    ensures LosesOnlyRot(sha, a, c)
  {
  }

  lemma OnlyReadLosesRot(sha: Bytes -> string, files: Files, rows: Rows, after: Files, left: Rows, now: nat)
    requires OnlyRead(sha, files, rows, after, left, now)
    ensures LosesOnlyRot(sha, files, after)
  {
  }

  lemma StillSmall(a: Files, b: Files)
    requires SameBytes(a, b) && SmallFiles(a)
    ensures SmallFiles(b)
  {
    hide Pow256;
  }

  lemma SameBytesChain(a: Files, b: Files, c: Files)
    requires SameBytes(a, b) && SameBytes(b, c)
    ensures SameBytes(a, c)
  {
  }

  /** What is here has a row, which no eviction of rows takes. */
  lemma HereHasRows(rows: Rows, files: Files, digests: seq<Digest>)
    requires files.Keys == Present(rows) && AllHere(files, digests)
    ensures forall digest :: digest in digests ==> digest.hash in rows
  {
    forall digest | digest in digests
      ensures digest.hash in rows
    {
      var i :| 0 <= i < |digests| && digests[i] == digest;
      assert digests[i].hash in files.Keys;
    }
  }

  lemma SameKeysSameRoom(a: Rows, b: Rows, batch: set<string>, results: Results, actions: set<string>, maxRows: nat)
    requires a.Keys == b.Keys
    ensures HasRoom(a, batch, results, actions, maxRows) <==> HasRoom(b, batch, results, actions, maxRows)
  {
  }

  lemma ProvenanceThenNone(a: Rows, b: Rows, c: Rows, batch: set<string>, bundle: Option<string>)
    requires KeepsProvenance(a, b, batch, bundle) && KeepsProvenance(b, c, {}, None)
    ensures KeepsProvenance(a, c, batch, bundle)
  {
  }

  lemma KeptWithRoom(rows0: Rows, results0: Results, rows1: Rows, results1: Results, action: string, kept: Kept, batch: set<string>,
                     maxRows: nat)
    requires AfterEviction(rows0, results0[action := kept], maxRows, rows1, results1)
    ensures HasRoom(rows0, batch, results0, {action}, maxRows) ==> rows1 == rows0 && results1 == results0[action := kept]
  {
    hide HasRoom, AfterEviction;
    if HasRoom(rows0, batch, results0, {action}, maxRows) {
      RoomForLess(rows0, batch, {}, results0, {action}, {action}, maxRows);
      RoomForResult(rows0, results0, rows1, results1, action, kept, maxRows);
    }
  }

  lemma KeptAndRemembered(rows0: Rows, results0: Results, rows1: Rows, results1: Results, rows2: Rows, results2: Results,
                          action: string, kept: Kept, blobs: seq<Digest>, bundle: string, now: nat, maxRows: nat)
    requires AfterEviction(rows0, results0[action := kept], maxRows, rows1, results1)
    requires AfterEviction(AttributeAll(rows1, blobs, bundle, now), results1, maxRows, rows2, results2)
    requires KeepsProvenance(rows0, rows1, {}, None) && KeepsProvenance(rows1, rows2, HashesOf(blobs), Some(bundle))
    ensures KeepsProvenance(rows0, rows2, HashesOf(blobs), Some(bundle))
    ensures HasRoom(rows0, HashesOf(blobs), results0, {action}, maxRows) ==> results2 == results0[action := kept]
  {
    hide HasRoom, AfterEviction, AttributeAll, HashesOf, KeepsProvenance;
    NoneThenProvenance(rows0, rows1, rows2, HashesOf(blobs), bundle);
    if HasRoom(rows0, HashesOf(blobs), results0, {action}, maxRows) {
      RoomToKeep(rows0, results0, rows1, results1, rows2, results2, action, kept, blobs, bundle, now, maxRows);
    }
  }

  lemma RoomOnceAdmitted(before: Rows, after: Rows, batch: set<string>, results: Results, action: string, maxRows: nat)
    requires after.Keys == before.Keys + batch && HasRoom(before, batch, results, {action}, maxRows)
    ensures HasRoom(after, {}, results, {action}, maxRows)
  {
    assert after.Keys + {} == before.Keys + batch;
  }

  lemma AdmittedWithRoom(rows0: Rows, results0: Results, rows1: Rows, results1: Results, rows2: Rows, results2: Results,
                         batch: set<string>, action: string, kept: Kept, maxRows: nat)
    requires HasRoom(rows0, batch, results0, {}, maxRows) ==> rows1.Keys == rows0.Keys + batch && results1 == results0
    requires AfterEviction(rows1, results1[action := kept], maxRows, rows2, results2)
    ensures HasRoom(rows0, batch, results0, {action}, maxRows) ==> results2 == results0[action := kept]
  {
    hide HasRoom, AfterEviction;
    if HasRoom(rows0, batch, results0, {action}, maxRows) {
      RoomForLess(rows0, batch, batch, results0, {action}, {}, maxRows);
      RoomOnceAdmitted(rows0, rows1, batch, results0, action, maxRows);
      RoomForResult(rows1, results1, rows2, results2, action, kept, maxRows);
    }
  }

  lemma ResultsThenOne(a: Results, b: Results, c: Results, action: string, kept: Kept)
    requires FewerResults(a, b) && FewerResults(b[action := kept], c)
    ensures FewerResults(a[action := kept], c)
  {
  }
}
