/** The messages that say what an action produced, as a client writes them.

    The cache only reads these. Its parsers are compared here with writers of whole messages: names and
    digests in their own fields, and in every message whatever else a client puts after them. */
module Outputs {
  import opened Bytes
  import opened Options
  import opened Reapi
  import opened Utf8
  import opened Wire

  /** A file or a directory that an action produced: its name or path, its digest if it has one, and fields
      of no interest here. */
  datatype Output = Output(name: string, digest: Option<Digest>, extra: Bytes)

  /** A directory in a tree: its files, and fields of no interest here, its own directories among them. */
  datatype Directory = Directory(files: seq<Output>, extra: Bytes)

  /** An output directory: the directory itself, and all that are below it. */
  datatype Tree = Tree(root: Option<Directory>, children: seq<Directory>, extra: Bytes)

  /** What an action produced. */
  datatype Product = Product(files: seq<Output>, directories: seq<Output>, stdout: Option<Digest>, stderr: Option<Digest>,
                             extra: Bytes)

  function DigestBody(number: nat, digest: Option<Digest>): seq<Part> {
    if digest.Some? then [BodyPart(number, DigestBytes(digest.value))] else []
  }

  /** The name in field 1, and the digest in the field it has in this kind of message. */
  function OutputBytes(output: Output, number: nat): Bytes {
    PartsBytes([BlobPart(1, Encoded(output.name))] + DigestBody(number, output.digest)) + output.extra
  }

  function OutputBodies(outputs: seq<Output>, number: nat): seq<Bytes> {
    if outputs == [] then [] else [OutputBytes(outputs[0], number)] + OutputBodies(outputs[1..], number)
  }

  function DirectoryBytes(directory: Directory): Bytes {
    RepeatedSubmessages(1, OutputBodies(directory.files, 2)) + directory.extra
  }

  function DirectoryBodies(directories: seq<Directory>): seq<Bytes> {
    if directories == [] then [] else [DirectoryBytes(directories[0])] + DirectoryBodies(directories[1..])
  }

  function RootBodies(tree: Tree): seq<Bytes> {
    if tree.root.Some? then [DirectoryBytes(tree.root.value)] else []
  }

  function TreeBytes(tree: Tree): Bytes {
    RepeatedSubmessages(1, RootBodies(tree)) + RepeatedSubmessages(2, DirectoryBodies(tree.children)) + tree.extra
  }

  function ProductBytes(product: Product): Bytes {
    RepeatedSubmessages(2, OutputBodies(product.files, 2)) + RepeatedSubmessages(3, OutputBodies(product.directories, 3)) +
    PartsBytes(DigestBody(6, product.stdout)) + PartsBytes(DigestBody(8, product.stderr)) + product.extra
  }

  // What can be written.

  predicate OptionalFits(digest: Option<Digest>) {
    digest.Some? ==> DigestFits(digest.value) && Fits(|DigestBytes(digest.value)|)
  }

  ghost predicate OutputsFit(outputs: seq<Output>, number: nat) {
    forall i :: 0 <= i < |outputs| ==>
      && Fits(|Encoded(outputs[i].name)|) && OptionalFits(outputs[i].digest)
      && Unknown(outputs[i].extra, {number}) && Fits(|OutputBytes(outputs[i], number)|)
  }

  ghost predicate DirectoriesFit(directories: seq<Directory>) {
    forall i :: 0 <= i < |directories| ==>
      && OutputsFit(directories[i].files, 2) && Unknown(directories[i].extra, {1}) && Fits(|DirectoryBytes(directories[i])|)
  }

  ghost predicate TreeFits(tree: Tree) {
    && (tree.root.Some? ==> DirectoriesFit([tree.root.value])) && DirectoriesFit(tree.children)
    && Unknown(tree.extra, {1, 2})
  }

  ghost predicate ProductFits(product: Product) {
    && OutputsFit(product.files, 2) && OutputsFit(product.directories, 3)
    && OptionalFits(product.stdout) && OptionalFits(product.stderr) && Unknown(product.extra, {2, 3, 6, 8})
  }

  // What is read.

  /** The digests that outputs have, in order. */
  function Given(outputs: seq<Output>): seq<Digest> {
    if outputs == [] then []
    else (if outputs[0].digest.Some? then [outputs[0].digest.value] else []) + Given(outputs[1..])
  }

  /** The digests of the files in some directories, one directory after another. */
  function GivenIn(directories: seq<Directory>): seq<Digest> {
    if directories == [] then [] else Given(directories[0].files) + GivenIn(directories[1..])
  }

  lemma {:induction false} PartsOfTwo(a: seq<Part>, b: seq<Part>, number: nat)
    ensures PartsBytes(a + b) == PartsBytes(a) + PartsBytes(b)
    ensures PartsBlobs(a + b, number) == PartsBlobs(a, number) + PartsBlobs(b, number)
  {
    hide PartBytes, PartBlobs;
    if a == [] {
      assert a + b == b;
    } else {
      assert (a + b)[1..] == a[1..] + b;
      PartsOfTwo(a[1..], b, number);
    }
  }

  lemma DigestBodyReads(number: nat, digest: Option<Digest>, other: nat)
    requires 0 < number <= 10 && OptionalFits(digest)
    ensures forall i :: 0 <= i < |DigestBody(number, digest)| ==> PartFits(DigestBody(number, digest)[i])
    ensures PartsBlobs(DigestBody(number, digest), other) ==
            if other == number && digest.Some? then [DigestBytes(digest.value)] else []
  {
    hide Fits, DigestBytes;
    if digest.Some? {
      UpToFour(BodyPart(number, DigestBytes(digest.value)), IntPart(1, 0), IntPart(1, 0), IntPart(1, 0), other);
    }
  }

  /** One output's digest is found in its own field, among whatever else there is. */
  lemma OutputReads(output: Output, number: nat)
    requires 1 < number <= 10 && Fits(|Encoded(output.name)|) && OptionalFits(output.digest) && Unknown(output.extra, {number})
    ensures Fields(OutputBytes(output, number)).Some?
    ensures DigestOfChild(Fields(OutputBytes(output, number)).value, number) == Some(output.digest)
  {
    hide Fields, Fits, Blobs, Encoded, PartsBytes, PartsBlobs, DigestBytes, ParseDigest, Unknown, DigestFits;
    var name, body := BlobPart(1, Encoded(output.name)), DigestBody(number, output.digest);
    DigestBodyReads(number, output.digest, number);
    PartsRoundTrip([name] + body, output.extra, {number});
    PartsOfTwo([name], body, number);
    UpToFour(name, name, name, name, number);
    if output.digest.Some? {
      DigestParses(output.digest.value);
    }
  }

  lemma {:induction false} OutputsRead(outputs: seq<Output>, number: nat)
    requires 1 < number <= 10 && OutputsFit(outputs, number)
    ensures DigestsOfEach(OutputBodies(outputs, number), number) == Some(Given(outputs))
    ensures forall i :: 0 <= i < |OutputBodies(outputs, number)| ==> Fits(|OutputBodies(outputs, number)[i]|)
  {
    hide Fields, Fits, OutputBytes, DigestOfChild, Encoded, OptionalFits, Unknown;
    if outputs != [] {
      OutputReads(outputs[0], number);
      OutputsRead(outputs[1..], number);
      var bodies := OutputBodies(outputs, number);
      assert bodies[0] == OutputBytes(outputs[0], number) && bodies[1..] == OutputBodies(outputs[1..], number);
      assert [] + Given(outputs[1..]) == Given(outputs[1..]);
    }
  }

  /** A message of repeated nested messages in two fields, two digests, and whatever else. */
  lemma MessageReads(first: nat, a: seq<Bytes>, second: nat, b: seq<Bytes>, c: seq<Part>, extra: Bytes, numbers: set<nat>, number: nat)
    requires 0 < first <= 10 && 0 < second <= 10 && first != second && Unknown(extra, numbers) && number in numbers
    requires forall i :: 0 <= i < |a| ==> Fits(|a[i]|)
    requires forall i :: 0 <= i < |b| ==> Fits(|b[i]|)
    requires forall i :: 0 <= i < |c| ==> PartFits(c[i])
    ensures var data := RepeatedSubmessages(first, a) + RepeatedSubmessages(second, b) + PartsBytes(c) + extra;
            && Fields(data).Some?
            && Blobs(Fields(data).value, number) ==
               (if number == first then a else []) + (if number == second then b else []) + PartsBlobs(c, number)
  {
    hide Fields, Fits, Blobs, PartsBytes, PartsBlobs, RepeatedSubmessages, BodyParts, Unknown, PartFits;
    RepeatedAreParts(first, a, number);
    RepeatedAreParts(second, b, number);
    var x, y := BodyParts(first, a), BodyParts(second, b);
    PartsOfTwo(x, y, number);
    PartsOfTwo(x + y, c, number);
    PartsRoundTrip(x + y + c, extra, numbers);
  }

  lemma DirectoryReads(directory: Directory)
    requires DirectoriesFit([directory])
    ensures Fields(DirectoryBytes(directory)).Some?
    ensures DigestsOfEach(Blobs(Fields(DirectoryBytes(directory)).value, 1), 2) == Some(Given(directory.files))
  {
    hide Fields, Fits, Blobs, DigestsOfEach, OutputBodies, Unknown, PartsBytes, PartsBlobs;
    assert [directory][0] == directory;
    OutputsRead(directory.files, 2);
    MessageReads(1, OutputBodies(directory.files, 2), 2, [], [], directory.extra, {1}, 1);
    NoParts();
    var files := RepeatedSubmessages(1, OutputBodies(directory.files, 2));
    assert RepeatedSubmessages(2, []) == [] && files + [] == files;
    assert OutputBodies(directory.files, 2) + [] == OutputBodies(directory.files, 2);
  }

  lemma {:induction false} DirectoriesRead(directories: seq<Directory>)
    requires DirectoriesFit(directories)
    ensures DirectoryFiles(DirectoryBodies(directories)) == Some(GivenIn(directories))
    ensures forall i :: 0 <= i < |DirectoryBodies(directories)| ==> Fits(|DirectoryBodies(directories)[i]|)
  {
    hide Fields, Fits, Blobs, DigestsOfEach, DirectoryBytes, OutputsFit, Unknown;
    if directories != [] {
      assert DirectoriesFit([directories[0]]);
      DirectoryReads(directories[0]);
      DirectoriesRead(directories[1..]);
      var bodies := DirectoryBodies(directories);
      assert bodies[0] == DirectoryBytes(directories[0]) && bodies[1..] == DirectoryBodies(directories[1..]);
    }
  }

  /** What a tree names is the digests of its root's files, and then those of each directory below, in
      order. */
  lemma TreeReadsBack(tree: Tree)
    requires TreeFits(tree)
    ensures TreeFiles(TreeBytes(tree)) ==
            Some((if tree.root.Some? then Given(tree.root.value.files) else []) + GivenIn(tree.children))
  {
    hide Fields, Fits, Blobs, DirectoryFiles, DirectoryBytes, DirectoryBodies, OutputsFit, Unknown, PartsBytes, PartsBlobs, Given,
         RepeatedSubmessages;
    var roots := if tree.root.Some? then [tree.root.value] else [];
    RootsAreBodies(tree, roots);
    DirectoriesRead(roots + tree.children);
    BodiesOfTwo(roots, tree.children);
    DirectoriesRead(roots);
    DirectoriesRead(tree.children);
    MessageReads(1, RootBodies(tree), 2, DirectoryBodies(tree.children), [], tree.extra, {1, 2}, 1);
    MessageReads(1, RootBodies(tree), 2, DirectoryBodies(tree.children), [], tree.extra, {1, 2}, 2);
    NoParts();
    var front := RepeatedSubmessages(1, RootBodies(tree)) + RepeatedSubmessages(2, DirectoryBodies(tree.children));
    assert front + [] == front;
    assert RootBodies(tree) + [] + [] == RootBodies(tree);
    assert [] + DirectoryBodies(tree.children) + [] == DirectoryBodies(tree.children);
  }

  lemma RootsAreBodies(tree: Tree, roots: seq<Directory>)
    requires roots == if tree.root.Some? then [tree.root.value] else []
    ensures DirectoryBodies(roots) == RootBodies(tree) && |roots| <= 1
    ensures GivenIn(roots) == if tree.root.Some? then Given(tree.root.value.files) else []
  {
    hide DirectoryBytes, Given;
  }

  lemma {:induction false} BodiesOfTwo(a: seq<Directory>, b: seq<Directory>)
    ensures DirectoryBodies(a + b) == DirectoryBodies(a) + DirectoryBodies(b)
    ensures GivenIn(a + b) == GivenIn(a) + GivenIn(b)
  {
    hide DirectoryBytes, Given;
    if a == [] {
      assert a + b == b;
    } else {
      assert (a + b)[1..] == a[1..] + b;
      BodiesOfTwo(a[1..], b);
    }
  }

  lemma ProductField(product: Product, number: nat)
    requires ProductFits(product) && number in {2, 3, 6, 8}
    ensures Fields(ProductBytes(product)).Some?
    ensures Blobs(Fields(ProductBytes(product)).value, number) ==
            if number == 2 then OutputBodies(product.files, 2)
            else if number == 3 then OutputBodies(product.directories, 3)
            else if number == 6 then StreamBody(product.stdout)
            else StreamBody(product.stderr)
  {
    hide Fields, Fits, Blobs, OutputBodies, Unknown, PartsBytes, PartsBlobs, Given, RepeatedSubmessages, DigestBody, OutputsFit, DigestFits,
         DigestBytes, StreamBody;
    var files, directories := OutputBodies(product.files, 2), OutputBodies(product.directories, 3);
    var out, err := DigestBody(6, product.stdout), DigestBody(8, product.stderr);
    OutputsRead(product.files, 2);
    OutputsRead(product.directories, 3);
    DigestBodyReads(6, product.stdout, number);
    DigestBodyReads(8, product.stderr, number);
    PartsOfTwo(out, err, number);
    StreamBlobs(product.stdout, 6, number);
    StreamBlobs(product.stderr, 8, number);
    MessageReads(2, files, 3, directories, out + err, product.extra, {2, 3, 6, 8}, number);
    var front := RepeatedSubmessages(2, files) + RepeatedSubmessages(3, directories);
    assert front + PartsBytes(out) + PartsBytes(err) == front + (PartsBytes(out) + PartsBytes(err));
    OneField(files, directories, StreamBody(product.stdout), StreamBody(product.stderr), number);
  }

  lemma StreamBlobs(digest: Option<Digest>, own: nat, number: nat)
    requires own in {6, 8} && OptionalFits(digest)
    ensures PartsBlobs(DigestBody(own, digest), number) == if number == own then StreamBody(digest) else []
  {
    hide DigestBytes, PartsBlobs, DigestBody, Fits;
    DigestBodyReads(own, digest, number);
  }

  lemma OneField(a: seq<Bytes>, b: seq<Bytes>, c: seq<Bytes>, d: seq<Bytes>, number: nat)
    requires number in {2, 3, 6, 8}
    ensures (if number == 2 then a else []) + (if number == 3 then b else []) +
            ((if number == 6 then c else []) + (if number == 8 then d else [])) ==
            if number == 2 then a else if number == 3 then b else if number == 6 then c else d
  {
  }

  function StreamBody(digest: Option<Digest>): seq<Bytes> {
    if digest.Some? then [DigestBytes(digest.value)] else []
  }

  /** A result is read as the digests of its files, those of its directories' trees, and its two streams;
      and it is kept as the bytes it came in. */
  lemma ProductReadsBack(product: Product)
    requires ProductFits(product)
    ensures ParseResult(ProductBytes(product)) ==
            Some(ActionResult(ProductBytes(product), Given(product.files), Given(product.directories), product.stdout, product.stderr))
  {
    hide Fields, Fits, Blobs, DigestsOfEach, OutputBodies, Unknown, Given, DigestBytes, OutputsFit, DigestFits, ParseDigest, ProductBytes;
    OutputsRead(product.files, 2);
    OutputsRead(product.directories, 3);
    ProductField(product, 2);
    ProductField(product, 3);
    ProductField(product, 6);
    ProductField(product, 8);
    if product.stdout.Some? {
      DigestParses(product.stdout.value);
    }
    if product.stderr.Some? {
      DigestParses(product.stderr.value);
    }
  }

  /** A result names exactly the digests of its files, its trees and its streams. */
  lemma NamesExactlyIf(result: ActionResult, digest: Digest)
    ensures digest in result.Named() <==>
            digest in result.files || digest in result.trees || result.stdout == Some(digest) || result.stderr == Some(digest)
  {
  }

  /** Of several nested messages in one field the last is read, and so of several values of any other
      field. */
  lemma LastOneWins(fields: Fieldset, number: nat, body: Bytes, integer: nat)
    ensures var more := fields + [BlobField(number, body)];
            && LastBlob(more, number) == body
            && DigestOfChild(more, number) == (if ParseDigest(body).None? then None else Some(ParseDigest(body)))
    ensures Integer(fields + [IntField(number, integer)], number) == integer
  {
    hide ParseDigest;
    ConcatenatedValues(fields, [BlobField(number, body)], number);
    ConcatenatedValues(fields, [IntField(number, integer)], number);
    assert Blobs([BlobField(number, body)], number) == [body] && Ints([IntField(number, integer)], number) == [integer];
  }
}
