/** Proofs of exclusion, and filing the nodes that a deletion will need. */
module Exclusion {
  import opened Primitives
  import opened Nibbles
  import opened Rlp
  import opened Trie
  import opened TrieMap
  import opened TrieForm
  import opened NodeCodec
  import opened NodeRoundTrip
  import opened Binding
  import opened Sparse
  import opened Pruning
  import opened Resolving
  import opened Orphans

  /** Whether the proof nodes show no value for the key; `None` is the panic of nodes that do not fit. */
  function NotIncluded(nodes: seq<Node>, key: Path): Option<bool> {
    if nodes == [] then Some(true)
    else
      match Stitch(nodes, 0)
      case Failure(_) => None
      case Success(trie) => Some(Get(trie, key).None?)
  }

  /** The store after more nodes were inserted one by one. */
  function FiledOnto(store: NodeStore, nodes: seq<Node>): NodeStore {
    if nodes == [] then store
    else
      var last := nodes[|nodes| - 1];
      FiledOnto(store, nodes[..|nodes| - 1])[Ref(last) := last]
  }

  // What the stitched proof of a key looks like.

  /** The trie that the proof of a key makes up. */
  function Stitched(n: Node, key: Path): Node {
    match n
    case Branch(children) =>
      if key == [] || |children| != 16 || Ref(children[key[0]]).RefBytes? then Surface(n)
      else
        var shown := SurfaceChildren(children);
        var j := FindDigest(shown, Ref(children[key[0]]).digest, 0);
        if j < 16 then Branch(shown[j := Stitched(children[key[0]], key[1..])]) else Surface(n)
    case Extension(path, child) =>
      if path <= key && Ref(child).RefDigest? then Extension(path, Stitched(child, key[|path|..])) else Surface(n)
    case _ => Surface(n)
  }

  lemma {:induction false} StitchShift(first: Node, rest: seq<Node>, i: nat)
    requires i < |rest| && Stitch(rest, i).Success?
    ensures Stitch([first] + rest, i + 1) == Stitch(rest, i)
    decreases |rest| - i
  {
    if i < |rest| - 1 {
      StitchShift(first, rest, i + 1);
    }
  }

  /** The slot of a child among the surfaces, if it is shown as a hash. */
  lemma ShownDigest(children: seq<Node>, i: nat)
    requires i < |children| && Ref(children[i]).RefDigest?
    ensures SurfaceChildren(children)[i] == Digest(Ref(children[i]).digest, None)
    ensures FindDigest(SurfaceChildren(children), Ref(children[i]).digest, 0) <= i
  {
    assert IsDigest(SurfaceChildren(children)[i], Ref(children[i]).digest);
  }

  lemma AttachedRef(shown: seq<Node>, digest: B256, replacement: Node)
    requires Ref(replacement) == RefDigest(digest) && FindDigest(shown, digest, 0) < |shown|
    requires forall i :: 0 <= i < |shown| ==> Clean(shown[i])
    ensures Ref(Branch(shown[FindDigest(shown, digest, 0) := replacement])) == Ref(Branch(shown))
  {
    var j := FindDigest(shown, digest, 0);
    SameCodes(shown[j := replacement], shown);
  }

  lemma {:induction false} SurfaceClean(n: Node)
    requires Clean(n)
    ensures Clean(Surface(n)) && Clean(SurfaceChild(n))
  {
    match n
    case Branch(children) =>
      forall i | 0 <= i < |children| ensures Clean(SurfaceChildren(children)[i]) {
        SurfaceClean(children[i]);
      }
    case Extension(_, child) => SurfaceClean(child);
    case _ =>
  }

  /** What is stitched in has the reference of the hash that it replaces. */
  lemma {:induction false} StitchedRef(n: Node, key: Path)
    requires Clean(n)
    ensures Ref(Stitched(n, key)) == Ref(n)
  {
    SurfaceEncode(n);
    SurfaceClean(n);
    match n
    case Branch(children) =>
      if key != [] && |children| == 16 && Ref(children[key[0]]).RefDigest? {
        StitchedRef(children[key[0]], key[1..]);
        ShownDigest(children, key[0]);
        AttachedRef(SurfaceChildren(children), Ref(children[key[0]]).digest, Stitched(children[key[0]], key[1..]));
      }
    case Extension(path, child) =>
      if path <= key && Ref(child).RefDigest? {
        StitchedRef(child, key[|path|..]);
      }
    case _ =>
  }

  lemma StitchOnto(first: Node, rest: seq<Node>, below: Node, whole: Node)
    requires rest != [] && Stitch(rest, 0) == Success(below) && Attach(first, below, 0) == Success(whole)
    ensures Stitch([first] + rest, 0) == Success(whole)
  {
    StitchShift(first, rest, 0);
  }

  /** The stitched proof of a child is attached where its hash is shown. */
  lemma AttachToBranch(children: seq<Node>, key: Path)
    requires Clean(Branch(children)) && key != [] && |children| == 16 && Ref(children[key[0]]).RefDigest?
    ensures Attach(Surface(Branch(children)), Stitched(children[key[0]], key[1..]), 0)
      == Success(Stitched(Branch(children), key))
  {
    StitchedRef(children[key[0]], key[1..]);
    ShownDigest(children, key[0]);
  }

  lemma AttachToExtension(path: Path, child: Node, key: Path)
    requires Clean(child) && path <= key && Ref(child).RefDigest?
    ensures Attach(Surface(Extension(path, child)), Stitched(child, key[|path|..]), 0)
      == Success(Stitched(Extension(path, child), key))
  {
    StitchedRef(child, key[|path|..]);
    assert SurfaceChild(child) == Digest(Ref(child).digest, None);
  }

  /** The proof of a key fits together. */
  lemma {:induction false} ProofStitches(n: Node, key: Path)
    requires Clean(n) && !n.Null?
    ensures ProofNodes(n, key) != [] && Stitch(ProofNodes(n, key), 0) == Success(Stitched(n, key))
  {
    match n
    case Branch(children) =>
      if key != [] && |children| == 16 && Ref(children[key[0]]).RefDigest? {
        ProofStitches(children[key[0]], key[1..]);
        AttachToBranch(children, key);
        StitchOnto(Surface(n), ProofNodes(children[key[0]], key[1..]), Stitched(children[key[0]], key[1..]),
                   Stitched(n, key));
      }
    case Extension(path, child) =>
      if path <= key && Ref(child).RefDigest? {
        ProofStitches(child, key[|path|..]);
        AttachToExtension(path, child, key);
        StitchOnto(Surface(n), ProofNodes(child, key[|path|..]), Stitched(child, key[|path|..]), Stitched(n, key));
      }
    case _ =>
  }

  /** Nodes with short encodings are written out in full. */
  lemma {:induction false} ShortShown(n: Node)
    requires Clean(n) && (n.Null? || Ref(n).RefBytes?)
    ensures Surface(n) == n
  {
    match n
    case Branch(children) =>
      forall i | 0 <= i < |children| ensures SurfaceChildren(children)[i] == children[i] {
        CodeInside(ChildCodes(children), i);
        ShortShown(children[i]);
      }
      assert SurfaceChildren(children) == children;
    case Extension(_, child) => ShortShown(child);
    case _ =>
  }

  // What it says about the key.

  /** On the path of the key, no earlier child of a branch has the same hash as the one on the path. */
  ghost predicate FirstOnPath(n: Node, key: Path) {
    match n
    case Branch(children) =>
      key != [] && |children| == 16 && Ref(children[key[0]]).RefDigest? ==>
        && (forall j :: 0 <= j < key[0] ==> Ref(children[j]) != Ref(children[key[0]]))
        && FirstOnPath(children[key[0]], key[1..])
    case Extension(path, child) => path <= key && Ref(child).RefDigest? ==> FirstOnPath(child, key[|path|..])
    case _ => true
  }

  /** The stitched proof has the trie's answer, or none. */
  ghost predicate AnswersIfFirst(n: Node, key: Path) {
    Get(Stitched(n, key), key) == if FirstOnPath(n, key) then Get(n, key) else None
  }

  lemma {:induction false} StitchedAnswers(n: Node, key: Path)
    requires Clean(n)
    ensures AnswersIfFirst(n, key)
  {
    match n
    case Branch(children) =>
      if key != [] && |children| == 16 {
        StitchedAnswers(children[key[0]], key[1..]);
        BranchAnswers(children, key);
      }
    case Extension(path, child) =>
      if path <= key {
        StitchedAnswers(child, key[|path|..]);
        if Ref(child).RefBytes? {
          ShortShown(child);
          assert SurfaceChild(child) == child;
        }
      }
    case _ =>
  }

  lemma BranchAnswers(children: seq<Node>, key: Path)
    requires key != [] && |children| == 16 && forall i :: 0 <= i < 16 ==> Clean(children[i])
    requires AnswersIfFirst(children[key[0]], key[1..])
    ensures AnswersIfFirst(Branch(children), key)
  {
    var child, shown := children[key[0]], SurfaceChildren(children);
    if Ref(child).RefDigest? {
      ShownDigest(children, key[0]);
      ShownFirst(children, key[0], FindDigest(shown, Ref(child).digest, 0));
    } else {
      ShortShown(child);
    }
  }

  lemma ShownFirst(children: seq<Node>, i: nat, j: nat)
    requires i < |children| && Ref(children[i]).RefDigest?
    requires forall m :: 0 <= m < |children| ==> Clean(children[m])
    requires j == FindDigest(SurfaceChildren(children), Ref(children[i]).digest, 0)
    ensures j == i <==> forall m :: 0 <= m < i ==> Ref(children[m]) != Ref(children[i])
  {
    ShownDigest(children, i);
    forall m | 0 <= m < i
      ensures IsDigest(SurfaceChildren(children)[m], Ref(children[i]).digest) <==> Ref(children[m]) == Ref(children[i])
    {
      SurfaceRef(children[m]);
      if Ref(children[m]).RefBytes? {
        ShortShown(children[m]);
      }
    }
  }

  /**
   * A proof made from a trie without the key shows that it is absent. A proof made from a trie with
   * the key shows that it is there exactly when no branch on its path has, in an earlier slot, a
   * child with the same hash.
   */
  lemma ExclusionProved(n: Node, key: Path)
    requires Clean(n)
    ensures Get(n, key).None? ==> NotIncluded(ProofNodes(n, key), key) == Some(true)
    ensures Get(n, key).Some? ==>
      NotIncluded(ProofNodes(n, key), key) == Some(!FirstOnPath(n, key))
  {
    if !n.Null? {
      ProofStitches(n, key);
      StitchedAnswers(n, key);
    }
  }

  // What it is used for.

  /**
   * `is_not_included`. On the proof of a key of some trie the answer is that the key is absent
   * exactly when the trie has no value for it, or has an earlier twin of a node on its path.
   */
  method IsNotIncluded(key: Bytes, nodes: seq<Node>) returns (result: Option<bool>)
    ensures result == NotIncluded(nodes, ToNibs(key))
    ensures forall n: Node :: Clean(n) && nodes == ProofNodes(n, ToNibs(key)) ==>
      result == Some(Get(n, ToNibs(key)).None? || !FirstOnPath(n, ToNibs(key)))
  {
    forall n: Node | Clean(n) && nodes == ProofNodes(n, ToNibs(key))
      ensures NotIncluded(nodes, ToNibs(key)) == Some(Get(n, ToNibs(key)).None? || !FirstOnPath(n, ToNibs(key)))
    {
      ExclusionProved(n, ToNibs(key));
    }
    var trie := MptFromProof(nodes);
    if trie.Failure? {
      return None;
    }
    result := Some(Get(trie.value, ToNibs(key)).None?);
  }

  /** `add_orphaned_leafs`; `None` is a panic. */
  method AddOrphanedLeafs(key: Bytes, proof: seq<Node>, store: NodeStore) returns (result: Option<NodeStore>)
    ensures proof == [] ==> result == Some(store)
    ensures proof != [] ==>
      match NotIncluded(proof, ToNibs(key))
      case None => result == None
      case Some(false) => result == Some(store)
      case Some(true) => result == Some(FiledOnto(store, Shortenings(proof[|proof| - 1])))
  {
    if proof == [] {
      return Some(store);
    }
    var absent := IsNotIncluded(key, proof);
    if absent.None? {
      return None;
    }
    if !absent.value {
      return Some(store);
    }
    var nodes := ShortenNodePath(proof[|proof| - 1]);
    var filed := FileOnto(store, nodes);
    result := Some(filed);
  }

  method FileOnto(store: NodeStore, nodes: seq<Node>) returns (filed: NodeStore)
    ensures filed == FiledOnto(store, nodes)
  {
    filed := store;
    for i := 0 to |nodes|
      invariant filed == FiledOnto(store, nodes[..i])
    {
      assert nodes[..i + 1][..i] == nodes[..i];
      filed := filed[Ref(nodes[i]) := nodes[i]];
    }
    assert nodes[..|nodes|] == nodes;
  }

  /** After a deletion, the proof of the deleted key leads to the shortenings that the deletion needs. */
  lemma DeletionFilesOrphans(n: Node, key: Path)
    requires Canonical(n) && Clean(n) && Resolved(n) && Find(n, key).Found? && Delete(n, key).Done?
    ensures var proof := ProofNodes(Delete(n, key).node, key);
      && NotIncluded(proof, key) == Some(true)
      && (proof != [] ==> proof[|proof| - 1] == LastProofNode(Delete(n, key).node, key))
  {
    var after := Delete(n, key).node;
    DeleteCanonical(n, key);
    DeleteRefines(n, key);
    DeleteKeepsClean(n, key);
    GetIsFind(after, key);
    ExclusionProved(after, key);
  }

  /** Two leaves that differ only in the slot of one branch: the second one's proof is taken for a proof of absence. */
  lemma TwinHidesKey(key: B256, value: Bytes)
    requires |value| >= 32 && ToNibs(key)[0] == 1
    ensures var twin := Leaf(ToNibs(key)[1..], value); var n := Fork([], 0, twin, 1, twin);
      && Get(n, ToNibs(key)) == Some(value)
      && NotIncluded(ProofNodes(n, ToNibs(key)), ToNibs(key)) == Some(true)
  {
    var twin := Leaf(ToNibs(key)[1..], value);
    var children := EmptySlots()[0 := twin][1 := twin];
    LongValueLongCode(twin);
    ExclusionProved(Branch(children), ToNibs(key));
    assert children[0] == children[1] == twin;
    assert !FirstOnPath(Branch(children), ToNibs(key));
  }

  lemma LongValueLongCode(leaf: Node)
    requires leaf.Leaf? && |leaf.value| >= 32
    ensures Ref(leaf).RefDigest?
  {
    StringLengthExact(leaf.value);
  }
}
