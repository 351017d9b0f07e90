/** Byte strings and the digests that name them. */
module Bytes {

  type byte = x: int | 0 <= x < 256

  type Bytes = seq<byte>

  /** Whether this is the lower-case hex of a SHA-256, which is how every digest here is named. */
  predicate IsSha256Hex(text: string) {
    |text| == 64 && forall c :: c in text ==> '0' <= c <= '9' || 'a' <= c <= 'f'
  }

  /** What is asked of the hash function: that it names byte strings the way SHA-256 does. Nothing
      here assumes that two byte strings never share a name. */
  ghost predicate NamesBytes(sha: Bytes -> string) {
    forall data :: IsSha256Hex(sha(data))
  }

  datatype Digest = Digest(hash: string, size: nat)

  function DigestOf(sha: Bytes -> string, data: Bytes): Digest {
    Digest(sha(data), |data|)
  }

  function HashesOf(digests: seq<Digest>): set<string> {
    set digest | digest in digests :: digest.hash
  }
}
