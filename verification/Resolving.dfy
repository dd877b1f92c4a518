/** Putting a trie together from the nodes of proofs: `mpt_from_proof` and `resolve_nodes`. */
module Resolving {
  import opened Primitives
  import opened Trie
  import opened NodeCodec
  import opened Binding
  import opened Sparse
  import opened Pruning

  // Stitching the nodes of one proof.

  datatype FromProofError =
    | NodeNotFoundByHash(index: nat)
    | NodeHasInvalidSuccessor(index: nat)
    | NodeCannotHaveChildren(index: nat)

  predicate IsDigest(n: Node, digest: B256) {
    n.Digest? && n.digest == digest
  }

  /** The first child that is the given hash; past the end if there is none. */
  function FindDigest(children: seq<Node>, digest: B256, i: nat): (j: nat)
    requires i <= |children|
    ensures i <= j <= |children|
    ensures forall m :: i <= m < j ==> !IsDigest(children[m], digest)
    ensures j < |children| ==> IsDigest(children[j], digest)
    decreases |children| - i
  {
    if i == |children| || IsDigest(children[i], digest) then i else FindDigest(children, digest, i + 1)
  }

  /** A node with the child that `replacement` is the preimage of replaced by it. */
  function Attach(parent: Node, replacement: Node, index: nat): Result<Node, FromProofError> {
    match Ref(replacement)
    case RefBytes(_) => Failure(NodeNotFoundByHash(index + 1))
    case RefDigest(digest) =>
      match parent
      case Branch(children) =>
        var j := FindDigest(children, digest, 0);
        if j < |children| then Success(Branch(children[j := replacement]))
        else Failure(NodeHasInvalidSuccessor(index))
      case Extension(path, child) =>
        if IsDigest(child, digest) then Success(Extension(path, replacement))
        else Failure(NodeHasInvalidSuccessor(index))
      case _ => Failure(NodeCannotHaveChildren(index))
  }

  /** The trie that the proof nodes from `index` on make up. */
  function Stitch(nodes: seq<Node>, index: nat): Result<Node, FromProofError>
    requires index < |nodes|
    decreases |nodes| - index
  {
    if index == |nodes| - 1 then Success(nodes[index])
    else
      var rest := Stitch(nodes, index + 1);
      if rest.Failure? then rest else Attach(nodes[index], rest.value, index)
  }

  method MptFromProof(nodes: seq<Node>) returns (result: Result<Node, FromProofError>)
    ensures result == if nodes == [] then Success(Null) else Stitch(nodes, 0)
  {
    var next: Option<Node> := None;
    var i := |nodes|;
    while i > 0
      invariant 0 <= i <= |nodes|
      invariant next.None? <==> i == |nodes|
      invariant i < |nodes| ==> Stitch(nodes, i) == Success(next.value)
    {
      i := i - 1;
      if next.None? {
        next := Some(nodes[i]);
        continue;
      }
      var resolved := Attach(nodes[i], next.value, i);
      if resolved.Failure? {
        StitchFails(nodes, i);
        return resolved;
      }
      next := Some(resolved.value);
    }
    result := Success(if next.None? then Null else next.value);
  }

  lemma {:induction false} StitchFails(nodes: seq<Node>, index: nat)
    requires index < |nodes| && Stitch(nodes, index).Failure?
    ensures Stitch(nodes, 0) == Stitch(nodes, index)
    decreases index
  {
    if index > 0 {
      StitchFails(nodes, index - 1);
    }
  }

  /** The first child of the branch that is the hash, or the child of the extension, is replaced. */
  ghost predicate Attached(parent: Node, digest: B256, replacement: Node, result: Node) {
    match parent
    case Branch(children) =>
      exists j :: 0 <= j < |children| && IsDigest(children[j], digest)
        && (forall k :: 0 <= k < j ==> !IsDigest(children[k], digest))
        && result == Branch(children[j := replacement])
    case Extension(path, child) => IsDigest(child, digest) && result == Extension(path, replacement)
    case _ => false
  }

  ghost predicate HasDigest(parent: Node, digest: B256) {
    || (parent.Branch? && exists j :: 0 <= j < |parent.children| && IsDigest(parent.children[j], digest))
    || (parent.Extension? && IsDigest(parent.child, digest))
  }

  /** One step of stitching: what comes of it, and which error at which index. */
  lemma AttachOutcome(parent: Node, replacement: Node, index: nat)
    requires !replacement.Null? && (replacement.Digest? ==> replacement.residue.None?)
    ensures var digest := if replacement.Digest? then replacement.digest else KECCAK(Encode(replacement));
      var result := Attach(parent, replacement, index);
      if !replacement.Digest? && |Encode(replacement)| < 32 then result == Failure(NodeNotFoundByHash(index + 1))
      else if !parent.Branch? && !parent.Extension? then result == Failure(NodeCannotHaveChildren(index))
      else if !HasDigest(parent, digest) then result == Failure(NodeHasInvalidSuccessor(index))
      else result.Success? && Attached(parent, digest, replacement, result.value)
  {}

  /** The nodes behind node `i` can be stitched, but not onto it. */
  predicate FailsAt(nodes: seq<Node>, i: nat, error: FromProofError) {
    && i + 1 < |nodes| && Stitch(nodes, i + 1).Success?
    && Attach(nodes[i], Stitch(nodes, i + 1).value, i) == Failure(error)
  }

  /** Stitching goes back from the last node, and reports the first step that fails. */
  lemma {:induction false} StitchFailure(nodes: seq<Node>, index: nat)
    requires index < |nodes| && Stitch(nodes, index).Failure?
    ensures exists i :: index <= i < |nodes| && FailsAt(nodes, i, Stitch(nodes, index).error)
    decreases |nodes| - index
  {
    if Stitch(nodes, index + 1).Failure? {
      StitchFailure(nodes, index + 1);
    } else {
      assert FailsAt(nodes, index, Stitch(nodes, index).error);
    }
  }

  /** A stitched proof has the reference of its first node. */
  lemma {:induction false} StitchKeepsRef(nodes: seq<Node>, index: nat)
    requires index < |nodes| && Stitch(nodes, index).Success?
    requires forall i :: 0 <= i < |nodes| ==> Clean(nodes[i])
    ensures Clean(Stitch(nodes, index).value)
    ensures Ref(Stitch(nodes, index).value) == Ref(nodes[index])
    ensures Hash(Stitch(nodes, index).value) == Hash(nodes[index])
    decreases |nodes| - index
  {
    if index < |nodes| - 1 {
      StitchKeepsRef(nodes, index + 1);
      var replacement := Stitch(nodes, index + 1).value;
      if nodes[index].Branch? {
        var children := nodes[index].children;
        var j := FindDigest(children, Ref(replacement).digest, 0);
        assert Clean(children[j]);
        SameCodes(children, children[j := replacement]);
        assert Encode(Branch(children[j := replacement])) == Encode(nodes[index]);
      } else {
        assert Encode(Extension(nodes[index].path, replacement)) == Encode(nodes[index]);
      }
    }
  }

  // Resolving hashes from a store.

  type NodeStore = map<Reference, Node>

  /**
   * `resolve_nodes`. The source recurses through the store without a bound; `fuel` bounds how
   * many times in a row a hash is looked up, and `None` says that this was not enough.
   */
  function Resolve(n: Node, store: NodeStore, fuel: nat): Option<Node>
    decreases fuel, n, 0
  {
    match n
    case Branch(children) =>
      var resolved := ResolveAll(children, store, fuel);
      if resolved.None? then None else Some(Branch(resolved.value))
    case Extension(path, child) =>
      var resolved := Resolve(child, store, fuel);
      if resolved.None? then None else Some(Extension(path, resolved.value))
    case Digest(digest, _) =>
      if RefDigest(digest) !in store then Some(n)
      else if fuel == 0 then None
      else Resolve(store[RefDigest(digest)], store, fuel - 1)
    case _ => Some(n)
  }

  function ResolveAll(children: seq<Node>, store: NodeStore, fuel: nat): (result: Option<seq<Node>>)
    ensures result.Some? ==> |result.value| == |children|
    ensures result.Some? ==>
      forall i :: 0 <= i < |children| ==> Resolve(children[i], store, fuel) == Some(result.value[i])
    ensures result.None? ==> exists i :: 0 <= i < |children| && Resolve(children[i], store, fuel).None?
    decreases fuel, children, 0
  {
    if children == [] then Some([])
    else
      var first := Resolve(children[0], store, fuel);
      if first.None? then None
      else
        var rest := ResolveAll(children[1..], store, fuel);
        if rest.None? then
          var i :| 0 <= i < |children[1..]| && Resolve(children[1..][i], store, fuel).None?;
          assert Resolve(children[i + 1], store, fuel).None?;
          None
        else Some([first.value] + rest.value)
  }

  /** Every node of the store is filed under its own reference. */
  ghost predicate Keyed(store: NodeStore) {
    forall r :: r in store ==> Ref(store[r]) == r && Clean(store[r])
  }

  /** Resolving keeps the reference, and so the root hash. */
  lemma {:induction false} ResolveKeepsRef(n: Node, store: NodeStore, fuel: nat)
    requires Clean(n) && Keyed(store) && Resolve(n, store, fuel).Some?
    ensures Clean(Resolve(n, store, fuel).value)
    ensures Ref(Resolve(n, store, fuel).value) == Ref(n)
    ensures Hash(Resolve(n, store, fuel).value) == Hash(n)
    decreases fuel, n
  {
    match n
    case Branch(children) =>
      var resolved := ResolveAll(children, store, fuel).value;
      forall i | 0 <= i < |children| ensures Clean(resolved[i]) && Ref(resolved[i]) == Ref(children[i]) {
        ResolveKeepsRef(children[i], store, fuel);
      }
      SameCodes(resolved, children);
    case Extension(_, child) => ResolveKeepsRef(child, store, fuel);
    case Digest(digest, _) =>
      if RefDigest(digest) in store {
        ResolveKeepsRef(store[RefDigest(digest)], store, fuel - 1);
      }
    case _ =>
  }

  /** More fuel does not change the result. */
  lemma {:induction false} ResolveMonotone(n: Node, store: NodeStore, fuel: nat, more: nat)
    requires fuel <= more && Resolve(n, store, fuel).Some?
    ensures Resolve(n, store, more) == Resolve(n, store, fuel)
    decreases fuel, n
  {
    match n
    case Branch(children) =>
      var resolved := ResolveAll(children, store, fuel);
      forall i | 0 <= i < |children|
        ensures Resolve(children[i], store, more) == Some(resolved.value[i])
      {
        ResolveMonotone(children[i], store, fuel, more);
      }
      assert ResolveAll(children, store, more).value == resolved.value;
    case Extension(_, child) => ResolveMonotone(child, store, fuel, more);
    case Digest(digest, _) =>
      if RefDigest(digest) in store {
        ResolveMonotone(store[RefDigest(digest)], store, fuel - 1, more - 1);
      }
    case _ =>
  }

  /** All hashes in the node that the store can resolve rank below `bound`. */
  ghost predicate RanksBelow(n: Node, store: NodeStore, rank: B256 -> nat, bound: nat) {
    match n
    case Branch(children) => forall i :: 0 <= i < |children| ==> RanksBelow(children[i], store, rank, bound)
    case Extension(_, child) => RanksBelow(child, store, rank, bound)
    case Digest(digest, _) => RefDigest(digest) in store ==> rank(digest) < bound
    case _ => true
  }

  /** Resolving terminates when the hashes can be ranked so that every stored node refers downwards. */
  lemma {:induction false} ResolveTerminates(n: Node, store: NodeStore, rank: B256 -> nat, fuel: nat)
    requires forall d :: RefDigest(d) in store ==> RanksBelow(store[RefDigest(d)], store, rank, rank(d))
    requires RanksBelow(n, store, rank, fuel)
    ensures Resolve(n, store, fuel).Some?
    decreases fuel, n
  {
    match n
    case Branch(children) =>
      forall i | 0 <= i < |children| ensures Resolve(children[i], store, fuel).Some? {
        ResolveTerminates(children[i], store, rank, fuel);
      }
    case Extension(_, child) => ResolveTerminates(child, store, rank, fuel);
    case Digest(digest, _) =>
      if RefDigest(digest) in store {
        var stored := store[RefDigest(digest)];
        ResolveTerminates(stored, store, rank, rank(digest));
        ResolveMonotone(stored, store, rank(digest), fuel - 1);
      }
    case _ =>
  }

  // A store of nodes of one full trie.

  function Depth(n: Node): nat {
    match n
    case Branch(children) => 1 + DepthAll(children)
    case Extension(_, child) => 1 + Depth(child)
    case _ => 0
  }

  function DepthAll(children: seq<Node>): (depth: nat)
    ensures forall i :: 0 <= i < |children| ==> Depth(children[i]) <= depth
  {
    if children == [] then 0
    else
      var first, rest := Depth(children[0]), DepthAll(children[1..]);
      if first > rest then first else rest
  }

  /** What the store has for a node of the trie is that node's surface. */
  ghost predicate Genuine(n: Node, store: NodeStore) {
    && (Ref(n).RefDigest? && Ref(n) in store ==> store[Ref(n)] == Surface(n))
    && match n
       case Branch(children) => forall i :: 0 <= i < |children| ==> Genuine(children[i], store)
       case Extension(_, child) => Genuine(child, store)
       case _ => true
  }

  /** The nodes that a store makes visible: the stored ones, and those written out in their parents. */
  function KeepStored(store: NodeStore): Node -> bool {
    (n: Node) => Ref(n).RefBytes? || Ref(n) in store
  }

  /** Resolving the surface of a node from nodes of the same trie uncovers exactly the stored nodes. */
  lemma {:induction false} ResolveUncovers(n: Node, store: NodeStore, fuel: nat)
    requires Clean(n) && Resolved(n) && !n.Null? && Genuine(n, store) && Depth(n) <= fuel
    ensures KeepStored(store)(n) ==> Resolve(Surface(n), store, fuel) == Some(Cut(n, KeepStored(store)))
    decreases n, 0
  {
    match n
    case Branch(children) =>
      var keep := KeepStored(store);
      var shown := SurfaceChildren(children);
      forall i | 0 <= i < |children| ensures Resolve(shown[i], store, fuel) == Some(Cut(children[i], keep)) {
        ResolveUncoversChild(children[i], store, fuel);
      }
      assert ResolveAll(shown, store, fuel).value == CutAll(children, keep);
    case Extension(path, child) => ResolveUncoversChild(child, store, fuel);
    case _ =>
  }

  lemma {:induction false} ResolveUncoversChild(child: Node, store: NodeStore, fuel: nat)
    requires Clean(child) && Resolved(child) && Genuine(child, store) && Depth(child) < fuel
    ensures Resolve(SurfaceChild(child), store, fuel) == Some(Cut(child, KeepStored(store)))
    decreases child, 1
  {
    if child.Null? {
    } else if Ref(child).RefBytes? {
      ResolveUncovers(child, store, fuel);
    } else if Ref(child) in store {
      ResolveUncovers(child, store, fuel - 1);
    }
  }

  // The proof of a key.

  /**
   * The proof of a key in the shape of EIP-1186: the surfaces of the nodes on its path, from the
   * root on, leaving out those that are written out in their parents.
   */
  function ProofNodes(n: Node, key: Path): seq<Node>
    decreases n, 0
  {
    if n.Null? then []
    else
      match n
      case Branch(children) =>
        if key == [] || |children| != 16 then [Surface(n)]
        else [Surface(n)] + ProofBelow(children[key[0]], key[1..])
      case Extension(path, child) =>
        if path <= key then [Surface(n)] + ProofBelow(child, key[|path|..]) else [Surface(n)]
      case _ => [Surface(n)]
  }

  function ProofBelow(child: Node, key: Path): seq<Node>
    decreases child, 1
  {
    if Ref(child).RefDigest? then ProofNodes(child, key) else []
  }
}
