/** The name of a bundle: a digest of the set of blobs it holds. */
module BundleName {
  import opened Bytes
  import opened Lexicographic
  import opened Sorting
  import opened Utf8
  import opened Wire

  function Digit(n: nat): char
    requires n < 10
  {
    (n + '0' as int) as char
  }

  function Decimal(n: nat): (text: string)
    ensures text != "" && forall i :: 0 <= i < |text| ==> '0' <= text[i] <= '9'
  {
    if n < 10 then [Digit(n)] else Decimal(n / 10) + [Digit(n % 10)]
  }

  /** Sizes are spelled in base ten. */
  lemma DecimalIsBaseTen(n: nat, d: nat)
    requires d < 10
    ensures Decimal(d) == [('0' as int + d) as char]
    ensures n > 0 ==> Decimal(10 * n + d) == Decimal(n) + [('0' as int + d) as char]
  {
    assert (10 * n + d) / 10 == n && (10 * n + d) % 10 == d;
  }

  lemma {:induction false} DecimalIsInjective(a: nat, b: nat)
    requires Decimal(a) == Decimal(b)
    ensures a == b
  {
    var x, y := Decimal(a), Decimal(b);
    assert x[|x| - 1] == Digit(a % 10) && y[|y| - 1] == Digit(b % 10);
    if a >= 10 && b >= 10 {
      assert x[..|x| - 1] == Decimal(a / 10) && y[..|y| - 1] == Decimal(b / 10);
      DecimalIsInjective(a / 10, b / 10);
    }
  }

  function ListingLine(digest: Digest): string {
    digest.hash + "/" + Decimal(digest.size) + "\n"
  }

  function Listing(digests: seq<Digest>): string {
    if digests == [] then "" else ListingLine(digests[0]) + Listing(digests[1..])
  }

  predicate HexHashes(digests: set<Digest>) {
    forall digest :: digest in digests ==> IsSha256Hex(digest.hash)
  }

  predicate DigestLeq(a: Digest, b: Digest) {
    Before(a.hash, b.hash) || (a.hash == b.hash && a.size <= b.size)
  }

  lemma DigestRanks()
    ensures Ranks((a: Digest, b: Digest) => DigestLeq(a, b))
    ensures forall a: Digest, b: Digest :: DigestLeq(a, b) && DigestLeq(b, a) ==> a == b
  {
    forall a: Digest, b: Digest, c: Digest
      ensures DigestLeq(a, b) || DigestLeq(b, a)
      ensures DigestLeq(a, b) && DigestLeq(b, c) ==> DigestLeq(a, c)
      ensures DigestLeq(a, b) && DigestLeq(b, a) ==> a == b
    {
      hide Before;
      BeforeIsTotal(a.hash, b.hash, c.hash);
    }
  }

  /** The members of a set in the order their names are hashed. */
  ghost function InOrder(digests: set<Digest>): (ordered: seq<Digest>)
    ensures Distinct(ordered) && Elements(ordered) == digests
  {
    DigestRanks();
    Canonical(digests, (a: Digest, b: Digest) => DigestLeq(a, b))
  }

  /** What the name of a member set is the hash of. */
  ghost function NamedBytes(digests: set<Digest>): Bytes
  {
    Encoded(Listing(InOrder(digests)))
  }

  ghost function NameOf(sha: Bytes -> string, digests: set<Digest>): string
  {
    sha(NamedBytes(digests))
  }

  lemma DigitsEndFirst(d: string, x: string, e: string, y: string)
    requires d + ("\n" + x) == e + ("\n" + y)
    requires forall i :: 0 <= i < |d| ==> '0' <= d[i] <= '9'
    ensures |d| <= |e|
  {
    var s := d + ("\n" + x);
    assert forall i :: 0 <= i < |d| ==> s[i] != '\n';
    assert (e + ("\n" + y))[|e|] == '\n';
  }

  lemma LineIsReadable(a: Digest, x: string, b: Digest, y: string)
    requires IsSha256Hex(a.hash) && IsSha256Hex(b.hash)
    requires ListingLine(a) + x == ListingLine(b) + y
    ensures a == b && x == y
  {
    var s, t := ListingLine(a) + x, ListingLine(b) + y;
    assert s[..64] == a.hash && t[..64] == b.hash;
    var d, e := Decimal(a.size), Decimal(b.size);
    assert s[65..] == d + ("\n" + x) && t[65..] == e + ("\n" + y);
    DigitsEndFirst(d, x, e, y);
    DigitsEndFirst(e, y, d, x);
    assert s[65..65 + |d|] == d && t[65..65 + |d|] == e;
    DecimalIsInjective(a.size, b.size);
    assert s[66 + |d|..] == x && t[66 + |e|..] == y;
  }

  lemma {:induction false} ListingIsInjective(xs: seq<Digest>, ys: seq<Digest>)
    requires HexHashes(Elements(xs)) && HexHashes(Elements(ys)) && Listing(xs) == Listing(ys)
    ensures xs == ys
  {
    if xs != [] && ys != [] {
      assert xs[0] in Elements(xs) && ys[0] in Elements(ys);
      assert forall digest :: digest in Elements(xs[1..]) ==> digest in Elements(xs);
      assert forall digest :: digest in Elements(ys[1..]) ==> digest in Elements(ys);
      LineIsReadable(xs[0], Listing(xs[1..]), ys[0], Listing(ys[1..]));
      ListingIsInjective(xs[1..], ys[1..]);
      assert xs == [xs[0]] + xs[1..] && ys == [ys[0]] + ys[1..];
    }
  }

  /** A name says which blobs a bundle holds: two member sets of one name are the same set, unless
      the hash function itself gave two byte strings one name. */
  lemma NameDeterminesMembers(sha: Bytes -> string, a: set<Digest>, b: set<Digest>)
    requires HexHashes(a) && HexHashes(b) && NameOf(sha, a) == NameOf(sha, b)
    ensures a == b || (NamedBytes(a) != NamedBytes(b) && sha(NamedBytes(a)) == sha(NamedBytes(b)))
  {
    hide InOrder, Listing;
    var x, y := Listing(InOrder(a)), Listing(InOrder(b));
    TextRoundTrip(x);
    TextRoundTrip(y);
    if NamedBytes(a) == NamedBytes(b) {
      ListingIsInjective(InOrder(a), InOrder(b));
      assert Elements(InOrder(a)) == Elements(InOrder(b));
    }
  }

  /** The name of the bundle holding exactly the blobs with these digests, in whatever order and
      however often they are given. */
  method BundleNameOf(sha: Bytes -> string, members: seq<Digest>) returns (name: string)
    ensures name == NameOf(sha, Elements(members))
  {
    hide DigestLeq, Ranks;
    DigestRanks();
    var unique := set member | member in members;
    var ordered := Sort(unique, (a: Digest, b: Digest) => DigestLeq(a, b));
    SortedFormIsUnique(ordered, Canonical(unique, (a: Digest, b: Digest) => DigestLeq(a, b)), (a: Digest, b: Digest) => DigestLeq(a, b));
    var listing := "";
    for i := 0 to |ordered|
      invariant listing + Listing(ordered[i..]) == Listing(ordered)
    {
      assert ordered[i..][1..] == ordered[i + 1..];
      listing := listing + ListingLine(ordered[i]);
    }
    assert ordered[|ordered|..] == [] && listing + "" == listing;
    name := sha(Encoded(listing));
  }
}
