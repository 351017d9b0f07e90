/** The envelope a signed pointer travels in.

    What is signed is the purpose, the action and the payload, one after another. Keys and
    signatures are abstract: a verifier is any relation between keys, signatures and messages. */
module Signing {
  import opened Bundle
  import opened Bytes
  import opened Options
  import opened Utf8
  import opened Wire

  const MAGIC: Bytes := [0x54, 0x49, 0x4E, 0x45]
  const VERSION: byte := 1
  const ED25519: byte := 1
  const KEY_ID_LENGTH := 8
  const HEADER_LENGTH := 16

  /** `tine-cache-ac-v1` and a NUL. */
  const DOMAIN := "tine-cache-ac-v1" + ['\0']

  /** The bytes a signature covers, or nothing for an action hash of another shape. */
  function Signed(action: string, payload: Bytes): Option<Bytes> {
    if !IsSha256Hex(action) then None
    else
      Some(Encoded(DOMAIN) + Encoded(action) + payload)
  }

  /** Nothing separates the three parts, but the hash has a fixed width: no two pairs of an action and
      a payload are signed as the same bytes, so a signature cannot be filed under another action. */
  lemma SignedIsInjective(a: string, p: Bytes, b: string, q: Bytes)
    requires Signed(a, p).Some? && Signed(a, p) == Signed(b, q)
    ensures a == b && p == q
  {
    var s, t := Signed(a, p).value, Signed(b, q).value;
    var n := |Encoded(DOMAIN)|;
    HexIsAscii(a);
    HexIsAscii(b);
    AsciiIsBytes(a);
    AsciiIsBytes(b);
    TextRoundTrip(a);
    TextRoundTrip(b);
    assert s[n..n + 64] == Encoded(a) && t[n..n + 64] == Encoded(b);
    assert s[n + 64..] == p && t[n + 64..] == q;
  }

  /** What is signed is the purpose, then the action, then the payload. */
  lemma SignedInParts(action: string, payload: Bytes)
    requires IsSha256Hex(action)
    ensures Signed(action, payload).Some? && |Encoded(DOMAIN)| == 17
    ensures var message := Signed(action, payload).value;
            |message| == 81 + |payload|
            && message[..17] == Encoded(DOMAIN) && message[17..81] == Encoded(action) && message[81..] == payload
  {
    HexIsAscii(action);
    AsciiIsBytes(action);
    AsciiIsBytes(DOMAIN);
  }

  datatype Envelope = Envelope(keyId: Bytes, algorithm: byte, signature: Bytes, payload: Bytes)

  function Wrap(keyId: Bytes, signature: Bytes, payload: Bytes): Bytes
    requires |keyId| == KEY_ID_LENGTH
  {
    MAGIC + [VERSION, ED25519] + keyId + BigEndian(|signature|, 2) + signature + payload
  }

  /** Take a stored object apart; nothing if it is not a whole envelope of a known kind. */
  function Split(blob: Bytes): Option<Envelope> {
    if |blob| < HEADER_LENGTH || blob[..4] != MAGIC || blob[4] != VERSION || blob[5] != ED25519 then None
    else
      var length := FromBigEndian(blob[14..16]);
      if HEADER_LENGTH + length > |blob| then None
      else Some(Envelope(blob[6..14], blob[5], blob[HEADER_LENGTH..HEADER_LENGTH + length], blob[HEADER_LENGTH + length..]))
  }

  lemma SplitInvertsWrap(keyId: Bytes, signature: Bytes, payload: Bytes)
    requires |keyId| == KEY_ID_LENGTH && |signature| < 0x10000
    ensures Split(Wrap(keyId, signature, payload)) == Some(Envelope(keyId, ED25519, signature, payload))
    ensures MAGIC <= Wrap(keyId, signature, payload)
  {
    var blob := Wrap(keyId, signature, payload);
    assert Pow256(2) == 0x10000 by {
      assert Pow256(1) == 0x100 * Pow256(0);
    }
    BigEndianRoundTrip(|signature|, 2);
    hide FromBigEndian, BigEndian;
    assert blob[..4] == MAGIC && blob[6..14] == keyId && blob[14..16] == BigEndian(|signature|, 2);
    assert blob[16..16 + |signature|] == signature && blob[16 + |signature|..] == payload;
  }

  /** Which signatures a reader accepts: the key a key id stands for now, if it is trusted, and the
      signatures that key verifies. */
  datatype Trust<!Key> = Trust(keyFor: Bytes -> Option<Key>, verifies: (Key, Bytes, Bytes) -> bool)

  /** The payload, if a trusted key signed exactly these bytes under this action. */
  function Unwrap<Key(!new)>(trust: Trust<Key>, action: string, blob: Bytes): Option<Bytes> {
    match Split(blob)
    case None => None
    case Some(envelope) =>
      match (trust.keyFor(envelope.keyId), Signed(action, envelope.payload))
      case (Some(key), Some(message)) =>
        if trust.verifies(key, envelope.signature, message) then Some(envelope.payload) else None
      case _ => None
  }

  /** A reader that trusts the key accepts what its owner wrapped. */
  lemma UnwrapInvertsWrap<Key(!new)>(trust: Trust<Key>, key: Key, keyId: Bytes, signature: Bytes, action: string, payload: Bytes)
    requires |keyId| == KEY_ID_LENGTH && |signature| < 0x10000 && trust.keyFor(keyId) == Some(key)
    requires Signed(action, payload).Some? && trust.verifies(key, signature, Signed(action, payload).value)
    ensures Unwrap(trust, action, Wrap(keyId, signature, payload)) == Some(payload)
  {
    SplitInvertsWrap(keyId, signature, payload);
  }

  /** If trusted keys verify nothing but what `signed` says was signed, everything a reader accepts
      under an action was signed for that action, as exactly the payload it gets. */
  lemma AcceptedWasSigned<Key(!new)>(trust: Trust<Key>, signed: set<(string, Bytes)>, action: string, blob: Bytes)
    requires forall key, signature, message :: trust.verifies(key, signature, message) ==>
               exists one :: one in signed && Signed(one.0, one.1) == Some(message)
    requires Unwrap(trust, action, blob).Some?
    ensures (action, Unwrap(trust, action, blob).value) in signed
  {
    var envelope := Split(blob).value;
    var message := Signed(action, envelope.payload);
    var one :| one in signed && Signed(one.0, one.1) == message;
    SignedIsInjective(action, envelope.payload, one.0, one.1);
  }
}
