/** A build on one machine is a hit on another. */
module EndToEnd {
  import opened ActionCaching
  import opened Bundle
  import opened BundleName
  import opened Bytes
  import opened Options
  import opened Pointer
  import opened Reapi
  import opened Shim
  import opened Signing
  import opened Sorting
  import opened Store
  import opened Wire

  /** A reader takes what a builder wraps: neither has keys, or the reader's verify the builder's. */
  ghost predicate Trusts(unwrap: Option<Wrapper>, wrap: Option<Wrapper>, action: string) {
    if wrap.None? then unwrap.None?
    else unwrap.Some? && forall packed :: wrap.value(action, packed).Some? ==>
           unwrap.value(action, wrap.value(action, packed).value) == Some(packed)
  }

  lemma PayloadIsTrusted(wrap: Option<Wrapper>, unwrap: Option<Wrapper>, action: string, pointer: Pointer)
    requires Trusts(unwrap, wrap, action) && IsSha256Hex(pointer.bundle) && Fits(|pointer.result|)
    requires ParseResult(pointer.result).Some? && Payload(wrap, action, pointer).Some?
    ensures Trusted(unwrap, action, Payload(wrap, action, pointer).value) == Some((pointer, ParseResult(pointer.result).value))
  {
    hide AcPack, AcUnpack, ParseResult, IsSha256Hex, Fits;
    AcUnpackInvertsAcPack(pointer);
    if wrap.None? {
      assert pointer.bundle != "" by { HexIsNotEmpty(pointer.bundle); }
      PackedPointerIsUnsigned(pointer);
    }
  }

  lemma HexIsNotEmpty(text: string)
    requires IsSha256Hex(text)
    ensures text != ""
  {
  }

  /** What a builder backs, its own bundle proves. */
  lemma BackedIsProven(sha: Bytes -> string, files: Files, result: ActionResult)
    requires Backed(sha, files, result).Resolved?
    ensures var digests := Backed(sha, files, result).digests;
            var members := MembersHere(files, digests);
            AllHexDigests(digests) && HexHashes(Elements(digests)) && members.Keys == HashesOf(digests)
            && Referenced(members, result, false) == Resolved(digests)
            && Proves(sha, Pointer(NameOf(sha, Elements(digests)), result.raw), result, members)
  {
    hide IsSha256Hex, NameOf, ResolveTrees, Here;
    var digests := Backed(sha, files, result).digests;
    var members, bytes, trees := MembersHere(files, digests), Readable(sha, files), result.trees;
    BackedIsHere(sha, files, result);
    HexDigestsHaveHexHashes(digests);
    forall digest | digest in digests
      ensures digest.hash in files && IsSha256Hex(digest.hash)
    {
      var i :| 0 <= i < |digests| && digests[i] == digest;
      HereHasBytes(files, digest);
    }
    forall i | 0 <= i < |trees|
      ensures trees[i] in digests
    {
      assert digests[|result.files| + i] == trees[i];
    }
    CheckedWhenHex(bytes, trees);
    SameTreesSameFiles(members, bytes, trees, false);
  }

  /** Where two stores can both read a blob of one name, they read the same bytes. */
  ghost predicate Agree(sha: Bytes -> string, a: Files, b: Files) {
    forall hash :: hash in Readable(sha, a) && hash in Readable(sha, b) ==> a[hash].data == b[hash].data
  }

  /** A bundle that is there already, and is going to be shared, holds what its name says. */
  ghost predicate Honest(objects: map<string, Bytes>, sha: Bytes -> string, name: string, members: map<string, Bytes>) {
    BundleKey(name) in objects ==> Fetched(sha, Got(objects[BundleKey(name)])) == Some(members)
  }

  /** The published objects are small enough for a reader to fetch. */
  ghost predicate Fetchable(objects: map<string, Bytes>, action: string, bundle: string, maxBytes: nat) {
    && (PointerKey(action) in objects ==> |objects[PointerKey(action)]| <= SMALL_OBJECT)
    && (BundleKey(bundle) in objects ==> |objects[BundleKey(bundle)]| <= maxBytes)
  }

  /** Whether the bundle is shared or uploaded, what it unpacks to afterwards is the blobs it is for,
      and all of them hash to their names. */
  lemma PublishedUnpacks(objects: map<string, Bytes>, sha: Bytes -> string, files: Files, bundle: string, digests: seq<Digest>,
                         tainted: set<string>)
    requires AllHexDigests(digests) && SmallFiles(files) && NamesBytes(sha)
    requires if Shared(objects, bundle, tainted) then Honest(objects, sha, bundle, MembersHere(files, digests))
             else AllReadable(sha, files, digests)
    ensures var after, members := BundlePublished(objects, files, bundle, digests, tainted), MembersHere(files, digests);
            && BundleKey(bundle) in after && Fetched(sha, Got(after[BundleKey(bundle)])) == Some(members)
            && forall hash :: hash in members ==> sha(members[hash]) == hash
  {
    hide IsSha256Hex, Pow256, Unpack, ByHash, Packed;
    HexDigestsHaveHexHashes(digests);
    var members := MembersHere(files, digests);
    if Shared(objects, bundle, tainted) {
      FetchedHashes(sha, objects[BundleKey(bundle)]);
    } else {
      forall hash | hash in members
        ensures sha(members[hash]) == hash && |members[hash]| < Pow256(8)
      {
        var digest :| digest in digests && digest.hash == hash;
        var i :| 0 <= i < |digests| && digests[i] == digest;
      }
      PackedBundleUnpacks(sha, members);
    }
  }

  lemma FetchedHashes(sha: Bytes -> string, data: Bytes)
    requires Fetched(sha, Got(data)).Some? && NamesBytes(sha)
    ensures forall hash :: hash in Fetched(sha, Got(data)).value ==> sha(Fetched(sha, Got(data)).value[hash]) == hash
  {
    hide IsSha256Hex, Unpack;
    UnpackedMembersAreGenuine(sha, data);
    NamesEach(sha, Unpack(sha, data).value);
  }

  lemma {:induction false} NamesEach(sha: Bytes -> string, members: seq<Member>)
    requires forall member :: member in members ==> sha(member.blob) == member.hash
    ensures forall hash :: hash in ByHash(members) ==> sha(ByHash(members)[hash]) == hash
  {
    if members != [] {
      var n := |members| - 1;
      assert members == members[..n] + [members[n]];
      NamesEach(sha, members[..n]);
    }
  }

  /** A reader can reach what was published. */
  predicate Reachable(bucket: Bucket, action: string, bundle: string)
    reads bucket
  {
    PointerKey(action) !in bucket.down && BundleKey(bundle) !in bucket.down
  }

  lemma OfferStands(sha: Bytes -> string, unwrap: Option<Wrapper>, maxBytes: nat, bucket: Bucket, action: string,
                    pointer: Pointer, result: ActionResult, members: map<string, Bytes>, digests: seq<Digest>)
    requires Reachable(bucket, action, pointer.bundle) && Fetchable(bucket.objects, action, pointer.bundle, maxBytes)
    requires PointerKey(action) in bucket.objects
             && Trusted(unwrap, action, bucket.objects[PointerKey(action)]) == Some((pointer, result))
    requires BundleKey(pointer.bundle) in bucket.objects
             && Fetched(sha, Got(bucket.objects[BundleKey(pointer.bundle)])) == Some(members)
    requires Referenced(members, result, false) == Resolved(digests) && Proves(sha, pointer, result, members)
    ensures Offered(sha, unwrap, maxBytes, bucket, action) == Some(Offer(pointer, result, members, digests))
  {
    hide Proves, Trusted, Fetched, Referenced;
  }

  lemma BackedIsDeliverable(sha: Bytes -> string, files: Files, others: Files, result: ActionResult, offer: Offer)
    requires Backed(sha, files, result) == Resolved(offer.digests) && offer.members == MembersHere(files, offer.digests)
    requires Agree(sha, files, others) && forall hash :: hash in offer.members ==> sha(offer.members[hash]) == hash
    ensures Deliverable(sha, offer, others)
  {
    hide Referenced, AllHexDigests;
    forall digest | digest in offer.digests
      ensures digest.hash in offer.members && |offer.members[digest.hash]| == digest.size
    {
      var i :| 0 <= i < |offer.digests| && offer.digests[i] == digest;
      assert Here(files, offer.digests[i]);
    }
  }

  /** A builder uploads a result and a reader looks it up. If the upload is published, and the reader
      trusts the builder, can reach what was published and can hold it, the reader gets the very result,
      and every blob it names, through its trees too. What it reads of each is the bytes the builder had;
      only a file of the reader's own that had rotted before could say otherwise, and reading drops it. */
  method BuildThenRead(builder: ActionCache, reader: ActionCache, action: string, result: ActionResult, network: Network,
                       now: nat, later: nat)
    returns (answer: Answer, outcome: Outcome)
    requires builder.Valid() && reader.Valid() && SmallFiles(builder.local.store.files)
    requires builder.local != reader.local && builder.local.store != reader.local.store
    requires builder.local.bucket != null && reader.local.bucket == builder.local.bucket
    requires builder.local.store.sha == reader.local.store.sha && builder.local.store.sizeOf == reader.local.store.sizeOf
    requires ParseResult(result.raw) == Some(result) && Fits(|result.raw|)
    requires Trusts(reader.unwrap, builder.wrap, action)
    requires Agree(builder.local.store.sha, builder.local.store.files, reader.local.store.files)
    modifies builder.local, builder.local.store, builder.local.bucket, reader.local, reader.local.store
    ensures builder.Valid() && reader.Valid()
    ensures answer.Published? ==>
              var sha := builder.local.store.sha;
              Backed(sha, old(builder.local.store.files), result).Resolved?
              && var digests := Backed(sha, old(builder.local.store.files), result).digests;
              HexHashes(Elements(digests))
              && var name := NameOf(sha, Elements(digests));
              (&& (name !in old(builder.local.tainted) ==>
                     Honest(old(builder.local.bucket.objects), sha, name, MembersHere(old(builder.local.store.files), digests)))
               && Reachable(builder.local.bucket, action, name)
               && Fetchable(builder.local.bucket.objects, action, name, reader.local.store.maxBytes)
               && action !in old(reader.local.store.results)) ==>
                 && outcome == Hit(result, digests) && Names(sha, result, digests)
                 && forall digest :: digest in digests ==>
                      && Here(reader.local.store.files, digest) && digest.hash in old(builder.local.store.files)
                      && (old(reader.local.store.Genuine()) || sha(reader.local.store.files[digest.hash].data) == digest.hash ==>
                            reader.local.store.files[digest.hash].data == old(builder.local.store.files)[digest.hash].data)
  {
    hide GenuineFiles, SizedFiles, Present, Sized, OneSizePerHash, IsSha256Hex, NamesBytes, AllHere, BundlePublished, SameBytes,
         KeepsProvenance, Pow256, Payload, NamedBytes, Referenced, FewerResults, AllHexDigests, Fetched, Trusts, ParseResult, Trusted,
         Proves, Fits, Agree, Honest, Fetchable, Delivered, Deliverable, Offered, SmallFiles, Names, Backed, HexHashes, MembersHere,
         PointerKey, BundleKey, AllReadable, OnlyRead, LosesOnlyRot, AfterPublish, Reachable;
    ghost var files, objects, others := builder.local.store.files, builder.local.bucket.objects, reader.local.store.files;
    ghost var tainted := builder.local.tainted;
    ghost var sha := builder.local.store.sha;
    builder.PreparedIsBacked(files, action, result);
    answer := builder.Update(action, result, network, now);
    ghost var offers := false;
    ghost var digests := [];
    ghost var pointer := Pointer("", []);
    if answer.Published? {
      digests := Backed(sha, files, result).digests;
      BackedIsProven(sha, files, result);
      pointer := Pointer(NameOf(sha, Elements(digests)), result.raw);
      offers := && (pointer.bundle !in tainted ==> Honest(objects, sha, pointer.bundle, MembersHere(files, digests)))
                && Reachable(builder.local.bucket, action, pointer.bundle)
                && Fetchable(builder.local.bucket.objects, action, pointer.bundle, reader.local.store.maxBytes);
      if offers {
        PayloadIsTrusted(builder.wrap, reader.unwrap, action, pointer);
        PublishedUnpacks(objects, sha, files, pointer.bundle, digests, tainted);
        PublishingIsSafe(objects, sha, files, action, Payload(builder.wrap, action, pointer).value, pointer.bundle, digests, tainted, network);
        KeysApart(action, pointer.bundle, pointer.bundle);
        OfferStands(sha, reader.unwrap, reader.local.store.maxBytes, builder.local.bucket, action, pointer, result,
                    MembersHere(files, digests), digests);
        BackedIsDeliverable(sha, files, others, result, Offer(pointer, result, MembersHere(files, digests), digests));
      }
    }
    outcome := reader.Get(action, later);
    if offers && action !in old(reader.local.store.results) {
      DeliveredBytes(sha, reader.local.store.sizeOf, reader.local.store.files, files,
                     Offer(pointer, result, MembersHere(files, digests), digests));
    }
  }

  lemma DeliveredBytes(sha: Bytes -> string, sizeOf: string -> nat, files: Files, source: Files, offer: Offer)
    requires Delivered(sha, files, offer) && offer.members == MembersHere(source, offer.digests)
    ensures forall digest :: digest in offer.digests ==>
              && Here(files, digest) && digest.hash in source
              && (GenuineFiles(files, sha, sizeOf) || sha(files[digest.hash].data) == digest.hash ==>
                    files[digest.hash].data == source[digest.hash].data)
  {
  }
}
