/** Encoding, references and hashes of trie nodes, and decoding: Appendix D of the Ethereum Yellow Paper. */
module NodeCodec {
  import opened Primitives
  import opened Nibbles
  import opened Rlp
  import opened Trie

  /** How a node refers to a child: by its encoding when that is short, by the hash of it otherwise. */
  datatype Reference = RefBytes(bytes: Bytes) | RefDigest(digest: B256)

  /** The hash of the empty trie. */
  function EmptyRoot(): B256 {
    KECCAK([EMPTY_STRING_CODE])
  }

  function Encode(n: Node): (code: Bytes)
    ensures code != []
    decreases n, 0
  {
    match n
    case Null => [EMPTY_STRING_CODE]
    case Branch(children) => EncodeList(Concat(ChildCodes(children)) + [EMPTY_STRING_CODE])
    case Leaf(path, value) => EncodeList(EncodeString(EncodedPath(path, true)) + EncodeString(value))
    case Extension(path, child) => EncodeList(EncodeString(EncodedPath(path, false)) + RefCode(Ref(child)))
    case Digest(digest, _) => EncodeString(digest)
  }

  function ChildCodes(children: seq<Node>): (codes: seq<Bytes>)
    ensures |codes| == |children|
    ensures forall i :: 0 <= i < |children| ==> codes[i] == RefCode(Ref(children[i]))
    decreases children, 0
  {
    if children == [] then [] else [RefCode(Ref(children[0]))] + ChildCodes(children[1..])
  }

  function RefCode(r: Reference): Bytes {
    match r
    case RefBytes(bytes) => bytes
    case RefDigest(digest) => [0xa0] + digest
  }

  function Ref(n: Node): Reference
    decreases n, 1
  {
    match n
    case Null => RefBytes([EMPTY_STRING_CODE])
    case Digest(digest, residue) => if residue.Some? then RefBytes(residue.value) else RefDigest(digest)
    case _ =>
      var code := Encode(n);
      if |code| < 32 then RefBytes(code) else RefDigest(KECCAK(code))
  }

  function RefHash(r: Reference): B256 {
    match r
    case RefBytes(bytes) => KECCAK(bytes)
    case RefDigest(digest) => digest
  }

  function Hash(n: Node): B256 {
    if n.Null? then EmptyRoot() else RefHash(Ref(n))
  }

  /** A node is referred to by its own encoding exactly when that has fewer than 32 bytes, and else by its hash. */
  lemma InlinedIff(n: Node)
    requires !n.Null? && !n.Digest?
    ensures Ref(n) == RefBytes(Encode(n)) <==> |Encode(n)| < 32
    ensures Ref(n) == RefDigest(KECCAK(Encode(n))) <==> |Encode(n)| >= 32
  {}

  /** Short or long, the hash of a node is the Keccak hash of its encoding; a stub has its own. */
  lemma HashIsKeccak(n: Node)
    ensures !n.Digest? ==> Hash(n) == KECCAK(Encode(n))
    ensures n.Null? ==> Encode(n) == [0x80]
    ensures n.Digest? ==> Hash(n) == if n.residue.Some? then KECCAK(n.residue.value) else n.digest
  {}

  // The computed lengths.

  function RefLength(n: Node): nat {
    match Ref(n)
    case RefBytes(bytes) => |bytes|
    case RefDigest(_) => 33
  }

  function SumRefLengths(children: seq<Node>): nat {
    if children == [] then 0
    else (if children[0].Null? then 1 else RefLength(children[0])) + SumRefLengths(children[1..])
  }

  function PayloadLength(n: Node): nat {
    match n
    case Null => 0
    case Branch(children) => 1 + SumRefLengths(children)
    case Leaf(path, value) => StringLength(EncodedPath(path, true)) + StringLength(value)
    case Extension(path, child) => StringLength(EncodedPath(path, false)) + RefLength(child)
    case Digest(_, _) => 32
  }

  function Length(n: Node): nat {
    PayloadLength(n) + LengthOfLength(PayloadLength(n))
  }

  lemma {:induction false} SumRefLengthsExact(children: seq<Node>)
    ensures |Concat(ChildCodes(children))| == SumRefLengths(children)
  {
    if children != [] {
      SumRefLengthsExact(children[1..]);
      assert ChildCodes(children)[1..] == ChildCodes(children[1..]);
    }
  }

  /** The computed length of a node's encoding is the number of bytes written. */
  lemma LengthExact(n: Node)
    ensures Length(n) == |Encode(n)|
  {
    match n
    case Null =>
    case Branch(children) =>
      SumRefLengthsExact(children);
      ListLength(Concat(ChildCodes(children)) + [EMPTY_STRING_CODE]);
    case Leaf(path, value) =>
      StringLengthExact(EncodedPath(path, true));
      StringLengthExact(value);
      ListLength(EncodeString(EncodedPath(path, true)) + EncodeString(value));
    case Extension(path, child) =>
      StringLengthExact(EncodedPath(path, false));
      ListLength(EncodeString(EncodedPath(path, false)) + RefCode(Ref(child)));
    case Digest(digest, _) =>
      StringLengthExact(digest);
  }

  // Decoding.

  datatype DecodeError =
    | Malformed
    | BranchWithValue
    | NoPath  // the panic of indexing into an empty path

  function StringOf(code: Bytes): Option<Bytes> {
    match ReadItem(code)
    case Some(Item(false, payload, _)) => Some(payload)
    case _ => None
  }

  function Decode(code: Bytes): Result<Node, DecodeError>
    decreases |code|, 0
  {
    match ReadItem(code)
    case None => if code == [] then Success(Null) else Failure(Malformed)
    case Some(Item(false, payload, _)) =>
      if payload == [] then Success(Null)
      else if |payload| == 32 then Success(Digest(payload, None))
      else Failure(Malformed)
    case Some(Item(true, payload, _)) =>
      var items := Split(payload);
      if items.None? then Failure(Malformed)
      else if |items.value| == 2 then DecodePair(items.value, |payload|)
      else if |items.value| == 17 then DecodeBranch(items.value, |payload|)
      else Failure(Malformed)
  }

  function DecodePair(items: seq<Bytes>, bound: nat): Result<Node, DecodeError>
    requires |items| == 2 && forall i :: 0 <= i < |items| ==> |items[i]| <= bound
    decreases bound, |items| + 1
  {
    match StringOf(items[0])
    case None => Failure(Malformed)
    case Some(prefix) =>
      if prefix == [] then Failure(NoPath)
      else if IsLeafPrefix(prefix) then
        var value := StringOf(items[1]);
        if value.None? then Failure(Malformed) else Success(Leaf(PrefixNibs(prefix), value.value))
      else
        var child := Decode(items[1]);
        if child.Failure? then Failure(child.error) else Success(Extension(PrefixNibs(prefix), child.value))
  }

  function DecodeBranch(items: seq<Bytes>, bound: nat): Result<Node, DecodeError>
    requires |items| == 17 && forall i :: 0 <= i < |items| ==> |items[i]| <= bound
    decreases bound, |items| + 1
  {
    var children := DecodeChildren(items[..16], bound);
    if children.Failure? then Failure(children.error)
    else
      match StringOf(items[16])
      case None => Failure(Malformed)
      case Some(value) => if value == [] then Success(Branch(children.value)) else Failure(BranchWithValue)
  }

  function DecodeChildren(items: seq<Bytes>, bound: nat): (children: Result<seq<Node>, DecodeError>)
    requires forall i :: 0 <= i < |items| ==> |items[i]| <= bound
    ensures children.Success? ==> |children.value| == |items|
    decreases bound, |items| + 1
  {
    if items == [] then Success([])
    else
      var child := Decode(items[0]);
      if child.Failure? then Failure(child.error)
      else
        var rest := DecodeChildren(items[1..], bound);
        if rest.Failure? then rest else Success([child.value] + rest.value)
  }

  // The round trip.

  /** No node has a residue of pruning: true of every trie that was read or built from the outside. */
  predicate Clean(n: Node) {
    match n
    case Branch(children) => forall i :: 0 <= i < |children| ==> Clean(children[i])
    case Extension(_, child) => Clean(child)
    case Digest(_, residue) => residue.None?
    case _ => true
  }

  /** A node as its encoding shows it: every child that is referred to by hash is that hash. */
  function Surface(n: Node): Node
    decreases n, 0
  {
    match n
    case Branch(children) => Branch(SurfaceChildren(children))
    case Extension(path, child) => Extension(path, SurfaceChild(child))
    case _ => n
  }

  function SurfaceChild(child: Node): Node
    decreases child, 1
  {
    match Ref(child)
    case RefBytes(_) => Surface(child)
    case RefDigest(digest) => Digest(digest, None)
  }

  function SurfaceChildren(children: seq<Node>): (shown: seq<Node>)
    ensures |shown| == |children|
    ensures forall i :: 0 <= i < |children| ==> shown[i] == SurfaceChild(children[i])
    decreases children, 0
  {
    if children == [] then [] else [SurfaceChild(children[0])] + SurfaceChildren(children[1..])
  }
}
