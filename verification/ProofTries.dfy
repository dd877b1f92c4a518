/**
 * One trie from the proofs before a state transition and the proofs after it: the part of
 * `proofs_to_tries` and `transition_proofs_to_tries` that builds the state trie or one storage trie.
 */
module ProofTries {
  import opened Primitives
  import opened Nibbles
  import opened Trie
  import opened NodeCodec
  import opened Resolving
  import opened Orphans
  import opened Exclusion

  datatype BuildFailure =
    | ProofDoesNotFit  // the panic on a proof that cannot be put together
    | OutOfFuel
    | RootMismatch

  /** A key and the nodes of its proof after the transition. */
  type FinalProof = (Bytes, seq<Node>)

  predicate Fits(proof: seq<Node>) {
    proof == [] || Stitch(proof, 0).Success?
  }

  /** The first node of the last proof that has one. */
  function RootNode(proofs: seq<seq<Node>>): Node {
    if proofs == [] then Null
    else
      var last := proofs[|proofs| - 1];
      if last != [] then last[0] else RootNode(proofs[..|proofs| - 1])
  }

  /** Proofs without nodes do not count; of the others the last one has the root. */
  lemma {:induction false} RootNodeIs(proofs: seq<seq<Node>>, i: nat)
    requires i < |proofs| && proofs[i] != [] && forall j :: i < j < |proofs| ==> proofs[j] == []
    ensures RootNode(proofs) == proofs[i][0]
  {
    if i < |proofs| - 1 {
      RootNodeIs(proofs[..|proofs| - 1], i);
    }
  }

  function NodesOf(proofs: seq<seq<Node>>): seq<Node> {
    if proofs == [] then [] else NodesOf(proofs[..|proofs| - 1]) + proofs[|proofs| - 1]
  }

  /** What is filed for a key that is gone after the transition. */
  function OrphansFor(final: FinalProof): seq<Node> {
    var (key, proof) := final;
    if proof != [] && NotIncluded(proof, ToNibs(key)) == Some(true) then Shortenings(proof[|proof| - 1]) else []
  }

  function OrphansOf(finals: seq<FinalProof>): seq<Node> {
    if finals == [] then [] else OrphansOf(finals[..|finals| - 1]) + OrphansFor(finals[|finals| - 1])
  }

  predicate AllFit(proofs: seq<seq<Node>>, finals: seq<FinalProof>) {
    (forall i :: 0 <= i < |proofs| ==> Fits(proofs[i])) && FinalsFit(finals, |finals|)
  }

  predicate FinalsFit(finals: seq<FinalProof>, upTo: nat)
    requires upTo <= |finals|
  {
    forall i :: 0 <= i < upTo ==> Fits(finals[i].1)
  }

  /** Everything that is filed. */
  function FiledNodes(proofs: seq<seq<Node>>, finals: seq<FinalProof>): seq<Node> {
    NodesOf(proofs) + OrphansOf(finals)
  }

  /** The trie that the filed nodes make up, if it has the right root. */
  function Built(proofs: seq<seq<Node>>, finals: seq<FinalProof>, root: B256, fuel: nat)
    : Result<Node, BuildFailure>
  {
    if !AllFit(proofs, finals) then Failure(ProofDoesNotFit)
    else
      match Resolve(RootNode(proofs), Filed(FiledNodes(proofs, finals)), fuel)
      case None => Failure(OutOfFuel)
      case Some(trie) => if Hash(trie) == root then Success(trie) else Failure(RootMismatch)
  }

  method BuildTrie(proofs: seq<seq<Node>>, finals: seq<FinalProof>, root: B256, fuel: nat)
    returns (result: Result<Node, BuildFailure>)
    ensures result == Built(proofs, finals, root, fuel)
    ensures result.Success? ==> Hash(result.value) == root
    ensures result.Success? ==>
      forall i :: 0 <= i < |proofs| && proofs[i] != [] ==> Stitch(proofs[i], 0).Success?
    ensures result.Success? ==>
      forall i :: 0 <= i < |finals| && finals[i].1 != [] ==> Stitch(finals[i].1, 0).Success?
  {
    var store, rootNode := FileProofs(proofs);
    if store.None? {
      return Failure(ProofDoesNotFit);
    }
    store := FileOrphans(store.value, NodesOf(proofs), finals);
    if store.None? {
      return Failure(ProofDoesNotFit);
    }
    FiledAtEnd(store.value, NodesOf(proofs), finals);
    var trie := Resolve(rootNode, store.value, fuel);
    if trie.None? {
      return Failure(OutOfFuel);
    }
    if Hash(trie.value) != root {
      return Failure(RootMismatch);
    }
    result := Success(trie.value);
  }

  /** Files the nodes of all proofs from before the transition. */
  method FileProofs(proofs: seq<seq<Node>>) returns (store: Option<NodeStore>, rootNode: Node)
    ensures store.Some? <==> forall i :: 0 <= i < |proofs| ==> Fits(proofs[i])
    ensures store.Some? ==> store.value == Filed(NodesOf(proofs)) && rootNode == RootNode(proofs)
  {
    var filed: NodeStore := map[];
    rootNode := Null;
    for i := 0 to |proofs|
      invariant forall j :: 0 <= j < i ==> Fits(proofs[j])
      invariant filed == Filed(NodesOf(proofs[..i])) && rootNode == RootNode(proofs[..i])
    {
      assert proofs[..i + 1][..i] == proofs[..i];
      var stitched := MptFromProof(proofs[i]);
      if stitched.Failure? {
        return None, rootNode;
      }
      if proofs[i] != [] {
        rootNode := proofs[i][0];
      }
      filed := FileAll(filed, NodesOf(proofs[..i]), proofs[i]);
    }
    assert proofs[..|proofs|] == proofs;
    store := Some(filed);
  }

  method FileAll(store: NodeStore, ghost before: seq<Node>, nodes: seq<Node>) returns (filed: NodeStore)
    requires store == Filed(before)
    ensures filed == Filed(before + nodes)
  {
    filed := store;
    assert before + nodes[..0] == before;
    for i := 0 to |nodes|
      invariant filed == Filed(before + nodes[..i])
    {
      assert (before + nodes[..i + 1])[..|before| + i] == before + nodes[..i];
      filed := filed[Ref(nodes[i]) := nodes[i]];
    }
    assert nodes[..|nodes|] == nodes;
  }

  /** Files what the keys that are gone after the transition need. */
  method FileOrphans(store: NodeStore, ghost before: seq<Node>, finals: seq<FinalProof>)
    returns (result: Option<NodeStore>)
    requires store == Filed(before)
    ensures result.Some? <==> FinalsFit(finals, |finals|)
    ensures result.Some? ==> FiledUpTo(result.value, before, finals, |finals|)
  {
    var filed := store;
    FiledAtStart(before, finals);
    for i := 0 to |finals|
      invariant FiledUpTo(filed, before, finals, i)
    {
      var more := FileOrphan(filed, before, finals, i);
      if more.None? {
        return None;
      }
      filed := more.value;
    }
    result := Some(filed);
  }

  method FileOrphan(store: NodeStore, ghost before: seq<Node>, finals: seq<FinalProof>, i: nat)
    returns (result: Option<NodeStore>)
    requires i < |finals| && FiledUpTo(store, before, finals, i)
    ensures result.Some? <==> Fits(finals[i].1)
    ensures result.Some? ==> FiledUpTo(result.value, before, finals, i + 1)
  {
    FiledOneMore(store, before, finals, i);
    result := AddOrphanedLeafs(finals[i].0, finals[i].1, store);
  }

  /** The proofs of the first keys fit, and the nodes of before and what these keys need are filed. */
  ghost predicate FiledUpTo(store: NodeStore, before: seq<Node>, finals: seq<FinalProof>, i: nat)
    requires i <= |finals|
  {
    FinalsFit(finals, i) && store == Filed(before + OrphansOf(finals[..i]))
  }

  lemma FiledAtStart(before: seq<Node>, finals: seq<FinalProof>)
    ensures FiledUpTo(Filed(before), before, finals, 0)
  {
    assert finals[..0] == [] && before + OrphansOf([]) == before;
  }

  lemma FiledAtEnd(store: NodeStore, before: seq<Node>, finals: seq<FinalProof>)
    requires FiledUpTo(store, before, finals, |finals|)
    ensures store == Filed(before + OrphansOf(finals))
  {
    assert finals[..|finals|] == finals;
  }

  lemma FiledOneMore(store: NodeStore, before: seq<Node>, finals: seq<FinalProof>, i: nat)
    requires i < |finals| && FiledUpTo(store, before, finals, i)
    ensures Fits(finals[i].1) ==> FiledUpTo(FiledOnto(store, OrphansFor(finals[i])), before, finals, i + 1)
  {
    OrphansOneMore(finals, i, i + 1);
    FiledThrice(before, OrphansOf(finals[..i]), OrphansFor(finals[i]));
  }

  lemma OrphansOneMore(finals: seq<FinalProof>, i: nat, next: nat)
    requires i < |finals| && next == i + 1
    ensures OrphansOf(finals[..next]) == OrphansOf(finals[..i]) + OrphansFor(finals[i])
  {
    assert finals[..next][..i] == finals[..i];
  }

  lemma FiledThrice(a: seq<Node>, b: seq<Node>, c: seq<Node>)
    ensures FiledOnto(Filed(a + b), c) == Filed(a + (b + c))
  {
    assert (a + b) + c == a + (b + c);
    FiledTwice(a + b, c);
  }

  /** Filing one list onto another is filing both. */
  lemma {:induction false} FiledTwice(a: seq<Node>, b: seq<Node>)
    ensures FiledOnto(Filed(a), b) == Filed(a + b)
  {
    if b == [] {
      assert a + b == a;
    } else {
      assert (a + b)[..|a + b| - 1] == a + b[..|b| - 1];
      FiledTwice(a, b[..|b| - 1]);
    }
  }

  // Proofs of one full trie.

  function ProofsOf(n: Node, keys: seq<Path>): (proofs: seq<seq<Node>>)
    ensures |proofs| == |keys| && forall i :: 0 <= i < |keys| ==> proofs[i] == ProofNodes(n, keys[i])
  {
    seq(|keys|, i requires 0 <= i < |keys| => ProofNodes(n, keys[i]))
  }

  /** The proofs, in a trie, of the given keys. */
  function FinalProofs(n: Node, keys: seq<Bytes>): (finals: seq<FinalProof>)
    ensures |finals| == |keys| && forall i :: 0 <= i < |keys| ==> finals[i] == (keys[i], ProofNodes(n, ToNibs(keys[i])))
  {
    seq(|keys|, i requires 0 <= i < |keys| => (keys[i], ProofNodes(n, ToNibs(keys[i]))))
  }

  lemma {:induction false} RootNodeOfProofs(n: Node, keys: seq<Path>)
    requires !n.Null? && keys != []
    ensures RootNode(ProofsOf(n, keys)) == Surface(n)
  {
    var last := ProofsOf(n, keys)[|keys| - 1];
    assert last[0] == Surface(n);
  }

  lemma {:induction false} ProofsIncluded(proofs: seq<seq<Node>>, i: nat, more: seq<Node>)
    requires i < |proofs|
    ensures Includes(NodesOf(proofs) + more, proofs[i])
  {
    var front, last := proofs[..|proofs| - 1], proofs[|proofs| - 1];
    if i < |front| {
      ProofsIncluded(front, i, last + more);
      assert NodesOf(proofs) + more == NodesOf(front) + (last + more);
    }
  }

  lemma {:induction false} OrphansIncluded(finals: seq<FinalProof>, i: nat, before: seq<Node>)
    requires i < |finals|
    ensures Includes(before + OrphansOf(finals), OrphansFor(finals[i]))
  {
    var front, last := finals[..|finals| - 1], OrphansFor(finals[|finals| - 1]);
    assert before + OrphansOf(finals) == (before + OrphansOf(front)) + last;
    if i < |front| {
      OrphansIncluded(front, i, before);
    }
  }

  lemma FitsAll(n: Node, keys: seq<Path>, after: Node, changed: seq<Bytes>)
    requires Clean(n) && Clean(after)
    ensures AllFit(ProofsOf(n, keys), FinalProofs(after, changed))
  {
    forall i | 0 <= i < |keys| ensures Fits(ProofsOf(n, keys)[i]) {
      if !n.Null? {
        ProofStitches(n, keys[i]);
      }
    }
    forall i | 0 <= i < |changed| ensures Fits(FinalProofs(after, changed)[i].1) {
      if !after.Null? {
        ProofStitches(after, ToNibs(changed[i]));
      }
    }
  }
}
