/** Many publishers and an expiry rule on one bucket.

    Each step below is one request some shim makes, or the bucket's own clock and age rule. Nothing is
    assumed about how the steps of different publishers interleave. */
module Protocol {
  import opened ActionCaching
  import opened Bundle
  import opened BundleName
  import opened Bytes
  import EndToEnd
  import opened Options
  import Pointing = Pointer
  import opened Reapi
  import opened Shim
  import opened Sorting
  import opened Store

  datatype Object = Object(data: Bytes, dated: nat)

  /** What one publication writes: a bundle under its name, and a pointer to it under an action. */
  datatype Job = Job(action: string, payload: Bytes, name: string, members: map<string, Bytes>)

  datatype Publication = Publication(job: Job, began: nat)

  datatype Phase =
    | Asking(at: Publication)
    | Uploading(at: Publication)
    | Pointing(at: Publication)

  /** `published` remembers every publication that ever wrote its pointer, even one since replaced. */
  datatype State = State(objects: map<string, Object>, publishers: map<nat, Phase>, published: set<Publication>, now: nat)

  datatype Step =
    | Begin(who: nat, job: Job)
    | Refresh(who: nat)
    | Distrust(who: nat)
    | Upload(who: nat)
    | Point(who: nat)
    | Fail(who: nat)
    | Pass(time: nat)
    | Expire(key: string)

  function DigestsOf(members: map<string, Bytes>): set<Digest> {
    set hash | hash in members :: Digest(hash, |members[hash]|)
  }

  ghost predicate OwnMembers(sha: Bytes -> string, members: map<string, Bytes>) {
    forall hash :: hash in members ==> IsSha256Hex(hash) && sha(members[hash]) == hash && |members[hash]| < Pow256(8)
  }

  /** These members make this name. */
  ghost predicate Makes(sha: Bytes -> string, members: map<string, Bytes>, name: string) {
    && OwnMembers(sha, members) && HexHashes(DigestsOf(members)) && NameOf(sha, DigestsOf(members)) == name
  }

  ghost predicate Enabled(state: State, step: Step, sha: Bytes -> string, lifetime: nat) {
    match step
    case Begin(who, job) => who !in state.publishers && Makes(sha, job.members, job.name)
    case Refresh(who) => who in state.publishers && state.publishers[who].Asking?
    case Distrust(who) => who in state.publishers && state.publishers[who].Asking?
    case Upload(who) => who in state.publishers && state.publishers[who].Uploading?
                        && Makes(sha, state.publishers[who].at.job.members, state.publishers[who].at.job.name)
    case Point(who) => who in state.publishers && state.publishers[who].Pointing?
    case Fail(who) => who in state.publishers
    case Pass(_) => true
    case Expire(key) => key in state.objects && state.objects[key].dated + lifetime <= state.now
  }

  ghost function After(state: State, step: Step, sha: Bytes -> string, lifetime: nat): State
    requires Enabled(state, step, sha, lifetime)
  {
    match step
    case Begin(who, job) =>
      state.(publishers := state.publishers[who := Asking(Publication(job, state.now))])
    case Refresh(who) =>
      var at := state.publishers[who].at;
      var key := BundleKey(at.job.name);
      if key in state.objects then
        state.(objects := state.objects[key := state.objects[key].(dated := state.now)],
               publishers := state.publishers[who := Pointing(at)])
      else state.(publishers := state.publishers[who := Uploading(at)])
    case Distrust(who) =>
      state.(publishers := state.publishers[who := Uploading(state.publishers[who].at)])
    case Upload(who) =>
      var at := state.publishers[who].at;
      state.(objects := state.objects[BundleKey(at.job.name) := Object(Packed(at.job.members), state.now)],
             publishers := state.publishers[who := Pointing(at)])
    case Point(who) =>
      var at := state.publishers[who].at;
      state.(objects := state.objects[PointerKey(at.job.action) := Object(at.job.payload, state.now)],
             publishers := state.publishers - {who}, published := state.published + {at})
    case Fail(who) => state.(publishers := state.publishers - {who})
    case Pass(time) => state.(now := state.now + time)
    case Expire(key) => state.(objects := state.objects - {key})
  }

  // What every step keeps.

  ghost predicate Dated(state: State) {
    && (forall key :: key in state.objects ==> state.objects[key].dated <= state.now)
    && (forall who :: who in state.publishers ==> state.publishers[who].at.began <= state.now)
  }

  ghost predicate Named(state: State, sha: Bytes -> string) {
    && (forall who :: who in state.publishers ==>
          Makes(sha, state.publishers[who].at.job.members, state.publishers[who].at.job.name))
    && (forall at :: at in state.published ==> Makes(sha, at.job.members, at.job.name))
  }

  /** A bundle object unpacks to exactly the members its key names. */
  ghost predicate HoldsItsName(data: Bytes, name: string, sha: Bytes -> string) {
    Fetched(sha, Got(data)).Some? && Makes(sha, Fetched(sha, Got(data)).value, name)
  }

  ghost predicate BundlesHoldTheirNames(state: State, sha: Bytes -> string) {
    forall name :: BundleKey(name) in state.objects ==> HoldsItsName(state.objects[BundleKey(name)].data, name, sha)
  }

  /** While it is young, a publication's bundle is there, and has been dated since it began. */
  ghost predicate Stands(state: State, at: Publication, lifetime: nat) {
    state.now < at.began + lifetime ==>
      BundleKey(at.job.name) in state.objects && at.began <= state.objects[BundleKey(at.job.name)].dated
  }

  ghost predicate AllStand(state: State, lifetime: nat) {
    && (forall at :: at in state.published ==> Stands(state, at, lifetime))
    && (forall who :: who in state.publishers && state.publishers[who].Pointing? ==>
          Stands(state, state.publishers[who].at, lifetime))
  }

  ghost predicate WrittenBy(state: State, action: string, at: Publication) {
    at in state.published && at.job.action == action && PointerKey(action) in state.objects
    && at.job.payload == state.objects[PointerKey(action)].data && at.began <= state.objects[PointerKey(action)].dated
  }

  ghost predicate PointersWerePublished(state: State) {
    forall action :: PointerKey(action) in state.objects ==> exists at :: WrittenBy(state, action, at)
  }

  ghost predicate Sound(state: State, sha: Bytes -> string, lifetime: nat) {
    && Dated(state) && Named(state, sha) && BundlesHoldTheirNames(state, sha)
    && AllStand(state, lifetime) && PointersWerePublished(state)
  }

  lemma KeysAreApart()
    ensures forall a, b :: PointerKey(a) != BundleKey(b)
    ensures forall a, b :: BundleKey(a) == BundleKey(b) ==> a == b
    ensures forall a, b :: PointerKey(a) == PointerKey(b) ==> a == b
  {
    forall a, b
      ensures PointerKey(a) != BundleKey(b)
    {
      assert PointerKey(a)[0] == 'a' && BundleKey(b)[0] == 'b';
    }
    forall a, b | BundleKey(a) == BundleKey(b)
      ensures a == b
    {
      assert BundleKey(a)[7..] == a && BundleKey(b)[7..] == b;
    }
    forall a, b | PointerKey(a) == PointerKey(b)
      ensures a == b
    {
      assert PointerKey(a)[3..] == a && PointerKey(b)[3..] == b;
    }
  }

  lemma UploadsHoldTheirNames(sha: Bytes -> string, members: map<string, Bytes>, name: string)
    requires Makes(sha, members, name)
    ensures HoldsItsName(Packed(members), name, sha)
  {
    hide IsSha256Hex, NameOf, Pow256, Packed, Unpack, ByHash;
    PackedBundleUnpacks(sha, members);
  }

  lemma StepKeepsNames(state: State, step: Step, sha: Bytes -> string, lifetime: nat)
    requires Enabled(state, step, sha, lifetime) && Dated(state) && Named(state, sha) && BundlesHoldTheirNames(state, sha)
    ensures var after := After(state, step, sha, lifetime);
            Dated(after) && Named(after, sha) && BundlesHoldTheirNames(after, sha)
  {
    hide HoldsItsName, Makes, Packed, PointerKey, BundleKey;
    KeysAreApart();
    if step.Upload? {
      var job := state.publishers[step.who].at.job;
      UploadsHoldTheirNames(sha, job.members, job.name);
    }
  }

  lemma StepKeepsStanding(state: State, step: Step, sha: Bytes -> string, lifetime: nat)
    requires Enabled(state, step, sha, lifetime) && Dated(state) && AllStand(state, lifetime)
    ensures AllStand(After(state, step, sha, lifetime), lifetime)
  {
    hide Makes, Packed, PointerKey, BundleKey;
    KeysAreApart();
  }

  lemma StepKeepsPointers(state: State, step: Step, sha: Bytes -> string, lifetime: nat)
    requires Enabled(state, step, sha, lifetime) && Dated(state) && PointersWerePublished(state)
    ensures PointersWerePublished(After(state, step, sha, lifetime))
  {
    hide Makes, Packed, PointerKey, BundleKey;
    KeysAreApart();
    var after := After(state, step, sha, lifetime);
    forall action | PointerKey(action) in after.objects
      ensures exists at :: WrittenBy(after, action, at)
    {
      if step.Point? && state.publishers[step.who].at.job.action == action {
        assert WrittenBy(after, action, state.publishers[step.who].at);
      } else {
        var at :| WrittenBy(state, action, at);
        assert WrittenBy(after, action, at);
      }
    }
  }

  ghost predicate Reaches(first: State, steps: seq<Step>, last: State, sha: Bytes -> string, lifetime: nat)
    decreases |steps|
  {
    if steps == [] then first == last
    else Enabled(first, steps[0], sha, lifetime) && Reaches(After(first, steps[0], sha, lifetime), steps[1..], last, sha, lifetime)
  }

  lemma {:induction false} EveryRunIsSound(first: State, steps: seq<Step>, last: State, sha: Bytes -> string, lifetime: nat)
    requires Sound(first, sha, lifetime) && Reaches(first, steps, last, sha, lifetime)
    ensures Sound(last, sha, lifetime)
    decreases |steps|
  {
    hide Dated, Named, BundlesHoldTheirNames, AllStand, PointersWerePublished, After, Enabled;
    if steps != [] {
      StepKeepsNames(first, steps[0], sha, lifetime);
      StepKeepsStanding(first, steps[0], sha, lifetime);
      StepKeepsPointers(first, steps[0], sha, lifetime);
      EveryRunIsSound(After(first, steps[0], sha, lifetime), steps[1..], last, sha, lifetime);
    }
  }

  const EMPTY := State(map[], map[], {}, 0)

  /** The hash function gave two byte strings one name: two listings of members, or two members. */
  ghost predicate Collision(sha: Bytes -> string, a: map<string, Bytes>, b: map<string, Bytes>) {
    || (NamedBytes(DigestsOf(a)) != NamedBytes(DigestsOf(b)) && sha(NamedBytes(DigestsOf(a))) == sha(NamedBytes(DigestsOf(b))))
    || (exists hash :: hash in a && hash in b && a[hash] != b[hash] && sha(a[hash]) == sha(b[hash]))
  }

  /** Two member sets of one name are one set, with the same bytes, unless the hash function itself
      gave two byte strings one name. */
  lemma OneNameOneBundle(sha: Bytes -> string, a: map<string, Bytes>, b: map<string, Bytes>, name: string)
    requires Makes(sha, a, name) && Makes(sha, b, name)
    ensures a == b || Collision(sha, a, b)
  {
    hide NamedBytes, IsSha256Hex, Pow256;
    NameDeterminesMembers(sha, DigestsOf(a), DigestsOf(b));
    if DigestsOf(a) == DigestsOf(b) {
      forall hash
        ensures hash in a <==> hash in b
      {
        if hash in a {
          assert Digest(hash, |a[hash]|) in DigestsOf(b);
        }
        if hash in b {
          assert Digest(hash, |b[hash]|) in DigestsOf(a);
        }
      }
    }
  }

  /** In any run from an empty bucket, whoever wrote a pointer that is there now, and however its
      publication was interleaved with others: until the lifetime has passed since that publication
      began, the bundle it points at is there, dated no earlier, and unpacks to the blobs that were
      published. */
  lemma YoungPointersFindTheirBundles(steps: seq<Step>, state: State, action: string, sha: Bytes -> string, lifetime: nat)
    returns (at: Publication)
    requires Reaches(EMPTY, steps, state, sha, lifetime) && PointerKey(action) in state.objects
    ensures at in state.published && at.job.action == action && at.job.payload == state.objects[PointerKey(action)].data
    ensures at.began <= state.objects[PointerKey(action)].dated
    ensures state.now < at.began + lifetime ==>
              && BundleKey(at.job.name) in state.objects
              && at.began <= state.objects[BundleKey(at.job.name)].dated
              && HoldsItsName(state.objects[BundleKey(at.job.name)].data, at.job.name, sha)
              && Makes(sha, at.job.members, at.job.name)
  {
    hide Makes, HoldsItsName, PointerKey, BundleKey;
    assert Sound(EMPTY, sha, lifetime);
    EveryRunIsSound(EMPTY, steps, state, sha, lifetime);
    at :| WrittenBy(state, action, at);
  }

  /** The same holds of a pointer read earlier and since replaced, or gone. */
  lemma OldPointersFindTheirBundles(steps: seq<Step>, state: State, at: Publication, sha: Bytes -> string, lifetime: nat)
    requires Reaches(EMPTY, steps, state, sha, lifetime) && at in state.published
    ensures state.now < at.began + lifetime ==>
              && BundleKey(at.job.name) in state.objects
              && at.began <= state.objects[BundleKey(at.job.name)].dated
              && HoldsItsName(state.objects[BundleKey(at.job.name)].data, at.job.name, sha)
              && Makes(sha, at.job.members, at.job.name)
  {
    hide Makes, HoldsItsName, PointerKey, BundleKey;
    assert Sound(EMPTY, sha, lifetime);
    EveryRunIsSound(EMPTY, steps, state, sha, lifetime);
  }

  /** Counting from when the publication began is as long as can be promised: a pointer written however
      little or much later outlives its bundle by just that time, while it is itself younger than the
      lifetime. */
  lemma LatePointersOutliveTheirBundles(sha: Bytes -> string, lifetime: nat, delay: nat) returns (steps: seq<Step>, state: State, job: Job)
    requires 0 < delay <= lifetime
    ensures Reaches(EMPTY, steps, state, sha, lifetime)
    ensures PointerKey(job.action) in state.objects && state.objects[PointerKey(job.action)].dated == delay
    ensures state.now == lifetime && state.now < state.objects[PointerKey(job.action)].dated + lifetime
    ensures Publication(job, 0) in state.published && BundleKey(job.name) !in state.objects
  {
    hide PointerKey, BundleKey, Packed, Reaches;
    job, steps, state := NothingUploaded(sha, lifetime);
    steps, state := Next(EMPTY, steps, state, Pass(delay), sha, lifetime);
    steps, state := PointingSteps(EMPTY, steps, state, 0, Publication(job, 0), Answered, sha, lifetime);
    hide Makes, WrittenBy, Contents;
    KeysApart(job.action, job.name, job.name);
    steps, state := Next(EMPTY, steps, state, Pass(lifetime - delay), sha, lifetime);
    steps, state := Next(EMPTY, steps, state, Expire(BundleKey(job.name)), sha, lifetime);
  }

  /** A publisher that has just uploaded a bundle of no blobs to an empty bucket. */
  lemma NothingUploaded(sha: Bytes -> string, lifetime: nat) returns (job: Job, steps: seq<Step>, state: State)
    ensures Reaches(EMPTY, steps, state, sha, lifetime)
    ensures state == State(map[BundleKey(job.name) := Object(Packed(map[]), 0)], map[0 := Pointing(Publication(job, 0))], {}, 0)
  {
    hide NameOf, Packed, PointerKey, BundleKey;
    assert DigestsOf(map[]) == {};
    job := Job("", [], NameOf(sha, {}), map[]);
    steps, state := Next(EMPTY, [], EMPTY, Begin(0, job), sha, lifetime);
    steps, state := Next(EMPTY, steps, state, Distrust(0), sha, lifetime);
    steps, state := Next(EMPTY, steps, state, Upload(0), sha, lifetime);
  }

  /** A run goes on with one more step. */
  lemma {:induction false} Next(first: State, steps: seq<Step>, last: State, step: Step, sha: Bytes -> string, lifetime: nat)
    returns (longer: seq<Step>, next: State)
    requires Reaches(first, steps, last, sha, lifetime) && Enabled(last, step, sha, lifetime)
    ensures longer == steps + [step] && next == After(last, step, sha, lifetime)
    ensures Reaches(first, longer, next, sha, lifetime)
    decreases |steps|
  {
    hide Enabled, After;
    longer, next := steps + [step], After(last, step, sha, lifetime);
    if steps == [] {
      assert longer[1..] == [];
    } else {
      var rest, _ := Next(After(first, steps[0], sha, lifetime), steps[1..], last, step, sha, lifetime);
      assert longer[1..] == rest;
    }
  }

  function Contents(state: State): map<string, Bytes> {
    map key | key in state.objects :: state.objects[key].data
  }

  /** What a reader makes of a young pointer: it is offered the published blobs, under the result the
      publisher meant, as long as it trusts the pointer, and can reach and hold the bundle. Only a
      collision of the hash function could have it otherwise. */
  lemma YoungPointersAreOffers(steps: seq<Step>, state: State, at: Publication, sha: Bytes -> string, lifetime: nat, bucket: Bucket,
                               unwrap: Option<Wrapper>, maxBytes: nat, pointer: Pointing.Pointer, result: ActionResult, digests: seq<Digest>)
    requires Reaches(EMPTY, steps, state, sha, lifetime) && WrittenBy(state, at.job.action, at) && state.now < at.began + lifetime
    requires bucket.objects == Contents(state) && EndToEnd.Reachable(bucket, at.job.action, pointer.bundle)
    requires Pointing.Trusted(unwrap, at.job.action, at.job.payload) == Some((pointer, result)) && pointer.bundle == at.job.name
    requires Pointing.Referenced(at.job.members, result, false) == Pointing.Resolved(digests)
    requires Pointing.Proves(sha, pointer, result, at.job.members)
    requires EndToEnd.Fetchable(bucket.objects, at.job.action, pointer.bundle, maxBytes)
    ensures BundleKey(pointer.bundle) in bucket.objects
    ensures var found := Fetched(sha, Got(bucket.objects[BundleKey(pointer.bundle)]));
            && found.Some?
            && (|| Offered(sha, unwrap, maxBytes, bucket, at.job.action) == Some(Offer(pointer, result, at.job.members, digests))
                || Collision(sha, found.value, at.job.members))
  {
    hide Makes, PointerKey, BundleKey, Pointing.Trusted, Pointing.Referenced, Pointing.Proves, Fetched, EndToEnd.Fetchable, Offered, Reaches,
         EndToEnd.Reachable, Collision, HexHashes;
    OldPointersFindTheirBundles(steps, state, at, sha, lifetime);
    var found := Fetched(sha, Got(bucket.objects[BundleKey(pointer.bundle)])).value;
    OneNameOneBundle(sha, found, at.job.members, pointer.bundle);
    if found == at.job.members {
      EndToEnd.OfferStands(sha, unwrap, maxBytes, bucket, at.job.action, pointer, result, at.job.members, digests);
    }
  }

  // What a shim does is a run of these steps.

  /** Asking after a bundle, or passing over one that is not trusted. */
  lemma AskingSteps(first: State, who: nat, job: Job, trusts: bool, sha: Bytes -> string, lifetime: nat)
    returns (steps: seq<Step>, state: State)
    requires who !in first.publishers && Makes(sha, job.members, job.name)
    ensures Reaches(first, steps, state, sha, lifetime) && Contents(state) == Contents(first)
    ensures var shared := trusts && BundleKey(job.name) in first.objects;
            var at := Publication(job, first.now);
            && state.publishers == first.publishers[who := if shared then Pointing(at) else Uploading(at)]
            && state.published == first.published && state.now == first.now
            && (shared ==> BundleKey(job.name) in state.objects && state.objects[BundleKey(job.name)].dated == state.now)
  {
    hide Makes, PointerKey, BundleKey;
    steps, state := Next(first, [], first, Begin(who, job), sha, lifetime);
    hide Reaches;
    steps, state := Next(first, steps, state, if trusts then Refresh(who) else Distrust(who), sha, lifetime);
  }

  /** Uploading a bundle, however that turns out. */
  lemma UploadingSteps(first: State, steps: seq<Step>, mid: State, who: nat, at: Publication, reply: Reply, sha: Bytes -> string, lifetime: nat)
    returns (longer: seq<Step>, state: State)
    requires Reaches(first, steps, mid, sha, lifetime) && who in mid.publishers && mid.publishers[who] == Uploading(at)
    requires Makes(sha, at.job.members, at.job.name)
    ensures Reaches(first, longer, state, sha, lifetime) && state.published == mid.published && state.now == mid.now
    ensures Contents(state) == if reply.Lost? then Contents(mid) else Contents(mid)[BundleKey(at.job.name) := Packed(at.job.members)]
    ensures if reply.Answered? then
              && state.publishers == mid.publishers[who := Pointing(at)]
              && BundleKey(at.job.name) in state.objects && state.objects[BundleKey(at.job.name)].dated == state.now
            else state.publishers == mid.publishers - {who}
  {
    hide Makes, PointerKey, BundleKey, Reaches, Packed;
    longer, state := steps, mid;
    if !reply.Lost? {
      longer, state := Next(first, longer, state, Upload(who), sha, lifetime);
    }
    if !reply.Answered? {
      longer, state := Next(first, longer, state, Fail(who), sha, lifetime);
    }
  }

  /** Writing a pointer, however that turns out. */
  lemma PointingSteps(first: State, steps: seq<Step>, mid: State, who: nat, at: Publication, reply: Reply, sha: Bytes -> string, lifetime: nat)
    returns (longer: seq<Step>, state: State)
    requires Reaches(first, steps, mid, sha, lifetime) && who in mid.publishers && mid.publishers[who] == Pointing(at)
    ensures Reaches(first, longer, state, sha, lifetime) && state.publishers == mid.publishers - {who} && state.now == mid.now
    ensures state.published == mid.published + if reply.Lost? then {} else {at}
    ensures !reply.Lost? && at.began <= mid.now ==> WrittenBy(state, at.job.action, at)
    ensures !reply.Lost? ==>
              PointerKey(at.job.action) in state.objects && state.objects[PointerKey(at.job.action)] == Object(at.job.payload, state.now)
    ensures Contents(state) == if reply.Lost? then Contents(mid) else Contents(mid)[PointerKey(at.job.action) := at.job.payload]
    ensures BundleKey(at.job.name) in mid.objects ==>
              BundleKey(at.job.name) in state.objects && state.objects[BundleKey(at.job.name)] == mid.objects[BundleKey(at.job.name)]
  {
    KeysApart(at.job.action, at.job.name, at.job.name);
    hide PointerKey, BundleKey, Reaches, Makes;
    longer, state := Next(first, steps, mid, if reply.Lost? then Fail(who) else Point(who), sha, lifetime);
  }

  /** Blobs that can all be read make the bundle they are listed under. */
  lemma ReadableMakeTheirName(sha: Bytes -> string, files: Files, blobs: seq<Digest>)
    requires AllHexDigests(blobs) && AllHere(files, blobs) && AllReadable(sha, files, blobs) && SmallFiles(files)
    ensures HexHashes(Elements(blobs)) && Makes(sha, MembersHere(files, blobs), NameOf(sha, Elements(blobs)))
  {
    hide NameOf, IsSha256Hex, Pow256;
    HexDigestsHaveHexHashes(blobs);
    var members := MembersHere(files, blobs);
    forall digest | digest in blobs
      ensures Here(files, digest) && digest.hash in Readable(sha, files)
    {
      var i :| 0 <= i < |blobs| && blobs[i] == digest;
    }
    forall digest
      ensures digest in DigestsOf(members) <==> digest in Elements(blobs)
    {
      if digest in DigestsOf(members) {
        var other :| other in blobs && other.hash == digest.hash;
      }
    }
    assert DigestsOf(members) == Elements(blobs);
  }

  /** The requests of one publication, in order, each however it turns out. */
  lemma JobSteps(first: State, who: nat, job: Job, trusts: bool, network: Network, sha: Bytes -> string, lifetime: nat)
    returns (steps: seq<Step>, state: State)
    requires who !in first.publishers && Makes(sha, job.members, job.name)
    ensures Reaches(first, steps, state, sha, lifetime) && state.publishers == first.publishers && state.now == first.now
    ensures var asked, shared := trusts ==> network.refresh.Answered?, trusts && BundleKey(job.name) in first.objects;
            var stands, uploads := asked && (shared || network.upload.Answered?), asked && !shared && !network.upload.Lost?;
            var after := if uploads then Contents(first)[BundleKey(job.name) := Packed(job.members)] else Contents(first);
            var at := Publication(job, first.now);
            && Contents(state) == (if stands && !network.point.Lost? then after[PointerKey(job.action) := job.payload] else after)
            && state.published == first.published + (if stands && !network.point.Lost? then {at} else {})
            && (stands && !network.point.Lost? ==> WrittenBy(state, job.action, at))
            && (stands ==> BundleKey(job.name) in state.objects && state.objects[BundleKey(job.name)].dated == state.now)
  {
    hide Makes, PointerKey, BundleKey, Reaches, Packed, After, Enabled, WrittenBy, Contents;
    var at := Publication(job, first.now);
    StandingStill(first, sha, lifetime);
    steps, state := [], first;
    if trusts && network.refresh.Lost? {
      return;
    }
    steps, state := AskingSteps(first, who, job, trusts, sha, lifetime);
    if trusts && network.refresh.Unheard? {
      steps, state := FailingSteps(first, steps, state, who, sha, lifetime);
      assert state.publishers == first.publishers;
      return;
    }
    if state.publishers[who].Uploading? {
      steps, state := UploadingSteps(first, steps, state, who, at, network.upload, sha, lifetime);
    }
    if who in state.publishers {
      steps, state := PointingSteps(first, steps, state, who, at, network.point, sha, lifetime);
    }
  }

  lemma FailingSteps(first: State, steps: seq<Step>, mid: State, who: nat, sha: Bytes -> string, lifetime: nat)
    returns (longer: seq<Step>, state: State)
    requires Reaches(first, steps, mid, sha, lifetime) && who in mid.publishers
    ensures Reaches(first, longer, state, sha, lifetime) && state.publishers == mid.publishers - {who}
    ensures Contents(state) == Contents(mid) && state.published == mid.published && state.now == mid.now
  {
    hide Reaches;
    longer, state := Next(first, steps, mid, Fail(who), sha, lifetime);
  }

  /** A publication by one shim, whatever becomes of its requests, takes a bucket from one state of this
      protocol to another. If the bundle stands it is dated now, and if the pointer is written the
      publication is one that the theorems above speak of. */
  lemma PublicationIsARun(first: State, who: nat, action: string, payload: Bytes, name: string, files: Files, blobs: seq<Digest>,
                          tainted: set<string>, network: Network, sha: Bytes -> string, lifetime: nat)
    returns (steps: seq<Step>, state: State, at: Publication)
    requires Sound(first, sha, lifetime) && who !in first.publishers
    requires AllHexDigests(blobs) && AllHere(files, blobs) && SmallFiles(files)
    requires HexHashes(Elements(blobs)) && name == NameOf(sha, Elements(blobs))
    ensures Reaches(first, steps, state, sha, lifetime) && state.publishers == first.publishers && state.now == first.now
    ensures Contents(state) == AfterPublish(Contents(first), sha, files, action, payload, name, blobs, tainted, network)
    ensures at.job.action == action && at.job.payload == payload && at.job.name == name && at.began == first.now
    ensures var stands := BundleStands(Contents(first), sha, files, name, blobs, tainted, network);
            && (stands ==> BundleKey(name) in state.objects && state.objects[BundleKey(name)].dated == state.now)
            && state.published == first.published + (if stands && !network.point.Lost? then {at} else {})
            && (stands && !network.point.Lost? ==> WrittenBy(state, action, at))
  {
    hide Makes, PointerKey, BundleKey, Reaches, NameOf, AllHere, AllHexDigests, SmallFiles, HexHashes, Dated, Named, AllStand,
         PointersWerePublished, Packed, AllReadable, Fetched, WrittenBy, MembersHere;
    StandingStill(first, sha, lifetime);
    steps, state := [], first;
    assert BundleKey(name) in Contents(first) <==> BundleKey(name) in first.objects;
    var shared := Shared(Contents(first), name, tainted);
    var members := map[];
    if shared {
      members := Fetched(sha, Got(first.objects[BundleKey(name)].data)).value;
    } else if AllReadable(sha, files, blobs) {
      ReadableMakeTheirName(sha, files, blobs);
      members := MembersHere(files, blobs);
    }
    at := Publication(Job(action, payload, name, members), first.now);
    if shared || AllReadable(sha, files, blobs) {
      hide Contents;
      steps, state := JobSteps(first, who, at.job, name !in tainted, network, sha, lifetime);
    }
  }

  lemma StandingStill(state: State, sha: Bytes -> string, lifetime: nat)
    ensures Reaches(state, [], state, sha, lifetime)
  {
  }

  /** So is every upload a client makes: the bucket it leaves is one that a run of the protocol leaves. A
      published result is a publication that began now. */
  method UpdateAsSteps(builder: ActionCache, action: string, result: ActionResult, network: Network, now: nat,
                       ghost first: State, ghost who: nat, ghost lifetime: nat)
    returns (answer: Answer, ghost steps: seq<Step>, ghost state: State)
    requires builder.Valid() && SmallFiles(builder.local.store.files) && builder.local.bucket != null
    requires Sound(first, builder.local.store.sha, lifetime) && who !in first.publishers
    requires builder.local.bucket.objects == Contents(first)
    modifies builder.local, builder.local.store, builder.local.bucket
    ensures builder.Valid()
    ensures Reaches(first, steps, state, builder.local.store.sha, lifetime) && Sound(state, builder.local.store.sha, lifetime)
    ensures builder.local.bucket.objects == Contents(state) && state.publishers == first.publishers
    ensures answer.Published? ==>
              exists at :: at in state.published && at.began == state.now == first.now && at.job.action == action
                           && WrittenBy(state, action, at)
  {
    hide Sound, Reaches, SmallFiles, Backed, AfterPublish, BundleStands, GenuineFiles, SizedFiles, OnlyRead, LosesOnlyRot, SameBytes,
         KeepsProvenance, HasRoom, AllHere, AllHexDigests, HexHashes, NameOf, Payload, IsSha256Hex, WrittenBy, Contents;
    ghost var sha, files, tainted := builder.local.store.sha, builder.local.store.files, builder.local.tainted;
    ghost var prepared := builder.Prepared(files, action, result);
    builder.PreparedIsBacked(files, action, result);
    answer := builder.Update(action, result, network, now);
    StandingStill(first, sha, lifetime);
    steps, state := [], first;
    if IsSha256Hex(action) && builder.Accepting() && prepared.Ready? && builder.writes {
      ghost var at;
      steps, state, at := PublicationIsARun(first, who, action, prepared.payload, prepared.bundle, files, prepared.blobs, tainted,
                                                 network, sha, lifetime);
      EveryRunIsSound(first, steps, state, sha, lifetime);
    }
  }
}
