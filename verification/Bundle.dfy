/** The container holding everything one action result names, and the name it is stored under. */
module Bundle {
  import opened Bytes
  import opened Options
  import opened Sorting
  import opened TextOrder
  import opened Utf8
  import opened Wire

  // Numbers of fixed width.

  function BigEndian(value: nat, width: nat): (data: Bytes)
    ensures |data| == width
  {
    if width == 0 then [] else BigEndian(value / 0x100, width - 1) + [value % 0x100]
  }

  function FromBigEndian(data: Bytes): nat {
    if data == [] then 0 else FromBigEndian(data[..|data| - 1]) * 0x100 + data[|data| - 1]
  }

  function Pow256(n: nat): nat {
    if n == 0 then 1 else 0x100 * Pow256(n - 1)
  }

  lemma {:induction false} BigEndianRoundTrip(value: nat, width: nat)
    requires value < Pow256(width)
    ensures FromBigEndian(BigEndian(value, width)) == value
  {
    if width > 0 {
      BigEndianRoundTrip(value / 0x100, width - 1);
    }
  }

  // Members.

  /** The member's hash as 64 hex characters, then its size as a big-endian 64-bit number. */
  const NAME_LENGTH := 64
  const HEADER_LENGTH := 72

  datatype Member = Member(hash: string, blob: Bytes)

  function MemberBytes(member: Member): Bytes
    requires IsSha256Hex(member.hash)
  {
    Encoded(member.hash) + BigEndian(|member.blob|, 8) + member.blob
  }

  lemma HexIsAscii(text: string)
    ensures IsSha256Hex(text) ==> Ascii(text)
  {
    if IsSha256Hex(text) {
      forall i | 0 <= i < |text|
        ensures text[i] as int < 0x80
      {
        assert text[i] in text;
      }
    }
  }

  predicate AllHex(members: seq<Member>) {
    forall i :: 0 <= i < |members| ==> IsSha256Hex(members[i].hash)
  }

  function PackedMembers(members: seq<Member>): Bytes
    requires AllHex(members)
  {
    if members == [] then [] else PackedMembers(members[..|members| - 1]) + MemberBytes(members[|members| - 1])
  }

  /** Members in order; nothing if the bytes do not frame as members that hash to their names. */
  function Unpack(sha: Bytes -> string, data: Bytes): Option<seq<Member>>
    decreases |data|
  {
    if data == [] then Some([])
    else if |data| < HEADER_LENGTH then None
    else
      var name, size, rest := data[..NAME_LENGTH], FromBigEndian(data[NAME_LENGTH..HEADER_LENGTH]), data[HEADER_LENGTH..];
      if size > |rest| then None
      else
        var found := sha(rest[..size]);
        if Encoded(found) != name then None
        else
          match Unpack(sha, rest[size..])
          case None => None
          case Some(members) => Some([Member(found, rest[..size])] + members)
  }

  /** The members by hash, the last of a name winning. */
  function ByHash(members: seq<Member>): map<string, Bytes> {
    if members == [] then map[]
    else ByHash(members[..|members| - 1])[members[|members| - 1].hash := members[|members| - 1].blob]
  }

  predicate OwnNames(sha: Bytes -> string, members: seq<Member>) {
    forall i :: 0 <= i < |members| ==> sha(members[i].blob) == members[i].hash
  }

  /** A bundle of blobs named by their own hashes unpacks to exactly those blobs. */
  lemma {:induction false} UnpackInvertsPack(sha: Bytes -> string, members: seq<Member>, rest: Bytes)
    requires AllHex(members) && OwnNames(sha, members)
    requires forall i :: 0 <= i < |members| ==> |members[i].blob| < Pow256(8)
    ensures Unpack(sha, PackedMembers(members) + rest) ==
            match Unpack(sha, rest) case None => None case Some(more) => Some(members + more)
    decreases |members|
  {
    hide IsSha256Hex, Pow256, Unpack, MemberBytes;
    if members == [] {
      assert PackedMembers(members) + rest == rest;
      assert Unpack(sha, rest).Some? ==> [] + Unpack(sha, rest).value == Unpack(sha, rest).value;
    } else {
      var n := |members| - 1;
      var front, last := members[..n], members[n];
      PackedEnd(members, rest);
      UnpackInvertsPack(sha, front, MemberBytes(last) + rest);
      UnpackMember(sha, last, rest);
      if Unpack(sha, rest).Some? {
        assert front + ([last] + Unpack(sha, rest).value) == members + Unpack(sha, rest).value;
      }
    }
  }

  lemma PackedEnd(members: seq<Member>, rest: Bytes)
    requires AllHex(members) && members != []
    ensures var n := |members| - 1;
            PackedMembers(members) + rest == PackedMembers(members[..n]) + (MemberBytes(members[n]) + rest)
  {
    hide MemberBytes;
  }

  lemma UnpackMember(sha: Bytes -> string, member: Member, rest: Bytes)
    requires IsSha256Hex(member.hash) && sha(member.blob) == member.hash && |member.blob| < Pow256(8)
    ensures Unpack(sha, MemberBytes(member) + rest) ==
            match Unpack(sha, rest) case None => None case Some(more) => Some([member] + more)
  {
    hide Pow256, BigEndian, FromBigEndian, Encoded;
    HexIsAscii(member.hash);
    AsciiIsBytes(member.hash);
    BigEndianRoundTrip(|member.blob|, 8);
    var data := MemberBytes(member) + rest;
    assert |member.hash| == NAME_LENGTH;
    assert data[..NAME_LENGTH] == Encoded(member.hash);
    assert data[NAME_LENGTH..HEADER_LENGTH] == BigEndian(|member.blob|, 8);
    assert data[HEADER_LENGTH..] == member.blob + rest;
    assert (member.blob + rest)[..|member.blob|] == member.blob && (member.blob + rest)[|member.blob|..] == rest;
  }

  lemma {:induction false} UnpackedMembersAreGenuine(sha: Bytes -> string, data: Bytes)
    requires Unpack(sha, data).Some?
    ensures OwnNames(sha, Unpack(sha, data).value)
    ensures TotalSize(Unpack(sha, data).value) <= |data|
    decreases |data|
  {
    hide FromBigEndian, Encoded;
    if data != [] {
      var size, rest := FromBigEndian(data[NAME_LENGTH..HEADER_LENGTH]), data[HEADER_LENGTH..];
      UnpackedMembersAreGenuine(sha, rest[size..]);
      var members := Unpack(sha, data).value;
      assert members == [members[0]] + Unpack(sha, rest[size..]).value;
      TotalSizeFront(members[0], Unpack(sha, rest[size..]).value);
    }
  }

  function TotalSize(members: seq<Member>): nat {
    if members == [] then 0 else TotalSize(members[..|members| - 1]) + |members[|members| - 1].blob|
  }

  lemma {:induction false} TotalSizeFront(member: Member, members: seq<Member>)
    ensures TotalSize([member] + members) == |member.blob| + TotalSize(members)
  {
    if members == [] {
      assert [member][..0] == [];
    } else {
      var n := |members| - 1;
      assert ([member] + members)[..n + 1] == [member] + members[..n];
      TotalSizeFront(member, members[..n]);
    }
  }

  lemma UnpackStep(sha: Bytes -> string, data: Bytes, offset: nat)
    requires offset < |data|
    ensures |data| - offset < HEADER_LENGTH ==> Unpack(sha, data[offset..]).None?
    ensures |data| - offset >= HEADER_LENGTH ==>
              var size, at := FromBigEndian(data[offset + NAME_LENGTH..offset + HEADER_LENGTH]), offset + HEADER_LENGTH;
              Unpack(sha, data[offset..]) ==
              if size > |data| - at then None
              else
                var hash := sha(data[at..at + size]);
                if Encoded(hash) != data[offset..offset + NAME_LENGTH] then None
                else if Unpack(sha, data[at + size..]).None? then None
                else Some([Member(hash, data[at..at + size])] + Unpack(sha, data[at + size..]).value)
  {
    hide FromBigEndian, Encoded;
    var left := data[offset..];
    if |left| >= HEADER_LENGTH {
      var size, at := FromBigEndian(data[offset + NAME_LENGTH..offset + HEADER_LENGTH]), offset + HEADER_LENGTH;
      assert left[..NAME_LENGTH] == data[offset..offset + NAME_LENGTH];
      assert left[NAME_LENGTH..HEADER_LENGTH] == data[offset + NAME_LENGTH..offset + HEADER_LENGTH];
      assert left[HEADER_LENGTH..] == data[at..];
      if size <= |data| - at {
        assert data[at..][..size] == data[at..at + size] && data[at..][size..] == data[at + size..];
      }
    }
  }

  method UnpackBundle(sha: Bytes -> string, data: Bytes) returns (members: Option<seq<Member>>)
    ensures members == Unpack(sha, data)
  {
    hide Unpack, FromBigEndian, Encoded;
    var offset, found := 0, [];
    assert data[0..] == data;
    assert Unpack(sha, data).Some? ==> [] + Unpack(sha, data).value == Unpack(sha, data).value;
    while offset < |data|
      invariant offset <= |data|
      invariant Unpack(sha, data) ==
                match Unpack(sha, data[offset..]) case None => None case Some(more) => Some(found + more)
      decreases |data| - offset
    {
      UnpackStep(sha, data, offset);
      if |data| - offset < HEADER_LENGTH {
        return None;
      }
      var name := data[offset..offset + NAME_LENGTH];
      var size := FromBigEndian(data[offset + NAME_LENGTH..offset + HEADER_LENGTH]);
      offset := offset + HEADER_LENGTH;
      if size > |data| - offset {
        return None;
      }
      var blob := data[offset..offset + size];
      offset := offset + size;
      var hash := sha(blob);
      if Encoded(hash) != name {
        return None;
      }
      ghost var more := Unpack(sha, data[offset..]);
      assert more.Some? ==> found + ([Member(hash, blob)] + more.value) == found + [Member(hash, blob)] + more.value;
      found := found + [Member(hash, blob)];
    }
    assert data[offset..] == [];
    UnpackNothing(sha);
    assert found + [] == found;
    return Some(found);
  }

  lemma UnpackNothing(sha: Bytes -> string)
    ensures Unpack(sha, []) == Some([])
  {
  }

  // Packing sorts, so that a member set always packs to the same bytes.

  function MembersOf(names: seq<string>, blobs: map<string, Bytes>): (members: seq<Member>)
    requires forall i :: 0 <= i < |names| ==> names[i] in blobs
    ensures |members| == |names| && forall i :: 0 <= i < |names| ==> members[i] == Member(names[i], blobs[names[i]])
  {
    seq(|names|, i requires 0 <= i < |names| => Member(names[i], blobs[names[i]]))
  }

  /** The members of a bundle in the order they are packed. */
  ghost function InOrder(blobs: map<string, Bytes>): (members: seq<Member>)
    ensures ByHash(members) == blobs
    ensures forall i :: 0 <= i < |members| ==> members[i].hash in blobs && members[i].blob == blobs[members[i].hash]
  {
    var names := InTextOrder(blobs.Keys);
    assert forall i :: 0 <= i < |names| ==> names[i] in Elements(names);
    MembersByHash(names, blobs);
    MembersOf(names, blobs)
  }

  ghost function Packed(blobs: map<string, Bytes>): Bytes
    requires forall name :: name in blobs ==> IsSha256Hex(name)
  {
    assert AllHex(InOrder(blobs));
    PackedMembers(InOrder(blobs))
  }

  function Picked(names: seq<string>, blobs: map<string, Bytes>): map<string, Bytes>
    requires forall i :: 0 <= i < |names| ==> names[i] in blobs
  {
    map name | name in names :: blobs[name]
  }

  lemma PickedNext(names: seq<string>, blobs: map<string, Bytes>)
    requires names != [] && forall i :: 0 <= i < |names| ==> names[i] in blobs
    ensures var n := |names| - 1;
            Picked(names, blobs) == Picked(names[..n], blobs)[names[n] := blobs[names[n]]]
  {
    var n := |names| - 1;
    assert names == names[..n] + [names[n]];
  }

  lemma {:induction false} PickedByHash(names: seq<string>, blobs: map<string, Bytes>)
    requires forall i :: 0 <= i < |names| ==> names[i] in blobs
    ensures ByHash(MembersOf(names, blobs)) == Picked(names, blobs)
  {
    if names != [] {
      var n := |names| - 1;
      PickedByHash(names[..n], blobs);
      PickedNext(names, blobs);
      hide Picked;
      assert MembersOf(names, blobs)[..n] == MembersOf(names[..n], blobs);
    }
  }

  lemma MembersByHash(names: seq<string>, blobs: map<string, Bytes>)
    requires forall i :: 0 <= i < |names| ==> names[i] in blobs
    ensures Elements(names) == blobs.Keys ==> ByHash(MembersOf(names, blobs)) == blobs
  {
    PickedByHash(names, blobs);
    assert forall name :: name in names <==> name in Elements(names);
  }

  method PackInOrder(names: seq<string>, blobs: map<string, Bytes>) returns (data: Bytes)
    requires forall i :: 0 <= i < |names| ==> names[i] in blobs && IsSha256Hex(names[i])
    ensures AllHex(MembersOf(names, blobs)) && data == PackedMembers(MembersOf(names, blobs))
  {
    hide IsSha256Hex, MemberBytes;
    data := [];
    ghost var members := MembersOf(names, blobs);
    for i := 0 to |names|
      invariant data == PackedMembers(members[..i])
    {
      assert members[..i + 1][..i] == members[..i];
      data := data + MemberBytes(Member(names[i], blobs[names[i]]));
    }
    assert members[..|names|] == members;
  }

  method Pack(blobs: map<string, Bytes>) returns (data: Bytes)
    requires forall name :: name in blobs ==> IsSha256Hex(name)
    ensures data == Packed(blobs)
  {
    hide IsSha256Hex, ByHash, PackedMembers, InTextOrder;
    var names := SortTexts(blobs.Keys);
    assert forall i :: 0 <= i < |names| ==> names[i] in Elements(names);
    data := PackInOrder(names, blobs);
  }

  /** Packing and unpacking again gives the blobs back, whatever they are. */
  lemma PackedBundleUnpacks(sha: Bytes -> string, blobs: map<string, Bytes>)
    requires forall name :: name in blobs ==> IsSha256Hex(name) && sha(blobs[name]) == name && |blobs[name]| < Pow256(8)
    ensures Unpack(sha, Packed(blobs)) == Some(InOrder(blobs)) && ByHash(InOrder(blobs)) == blobs
  {
    hide Pow256, IsSha256Hex;
    var members := InOrder(blobs);
    UnpackInvertsPack(sha, members, []);
    assert PackedMembers(members) + [] == PackedMembers(members) && members + [] == members;
  }
}
