/**
 * The state built from the proofs of accounts and slots before a block and after it:
 * `transition_proofs_to_tries`, with the proofs filed by hashed address.
 */
module StateProofs {
  import opened Primitives
  import opened Nibbles
  import opened Trie
  import opened TrieHistory
  import opened NodeCodec
  import opened Binding
  import opened Resolving
  import opened Orphans
  import opened Exclusion
  import opened ProofTries
  import opened Transitions
  import opened StateMap

  /** The proof of one account, its storage root, and the hashed slots with their proofs. */
  datatype AccountProof = AccountProof(proof: seq<Node>, storageRoot: B256, slots: seq<FinalProof>)

  type Proofs = map<B256, AccountProof>

  datatype StateFailure =
    | FinalProofMissing  // the panic on an address without a proof from after the block
    | StateProofDoesNotFit
    | StorageFailure(failure: BuildFailure)
    | StateOutOfFuel
    | StateRootMismatch

  function ZeroWord(): B256 {
    seq(32, _ => 0)
  }

  /** `node_from_digest`. */
  function NodeFromDigest(digest: B256): Node {
    if digest == EmptyRoot() || digest == ZeroWord() then Null else Digest(digest, None)
  }

  function SlotProofs(slots: seq<FinalProof>): (proofs: seq<seq<Node>>)
    ensures |proofs| == |slots| && forall i :: 0 <= i < |slots| ==> proofs[i] == slots[i].1
  {
    seq(|slots|, i requires 0 <= i < |slots| => slots[i].1)
  }

  /** The storage trie of one account: a bare hash if no slot was proved. */
  function StorageFrom(before: AccountProof, final: AccountProof, fuel: nat): Result<Node, BuildFailure> {
    if before.slots == [] then Success(NodeFromDigest(before.storageRoot))
    else Built(SlotProofs(before.slots), final.slots, before.storageRoot, fuel)
  }

  // Genuine proofs.

  /** The slots are proved in the given trie. */
  ghost predicate ProvedIn(n: Node, slots: seq<FinalProof>) {
    forall i :: 0 <= i < |slots| ==> slots[i].1 == ProofNodes(n, ToNibs(slots[i].0))
  }

  ghost predicate SlotProved(slots: seq<FinalProof>, slot: B256) {
    exists i :: 0 <= i < |slots| && slots[i].0 == slot
  }

  /** The hash of the trie is not taken for that of an empty one. */
  ghost predicate Nameable(n: Node) {
    n.Null? || (Hash(n) != EmptyRoot() && Hash(n) != ZeroWord())
  }

  /** All tries of the state are complete, and their keys are 32 bytes long. */
  ghost predicate CompleteState(state: State) {
    && Complete(state.accounts) && Uniform(state.accounts, 64)
    && forall a :: a in state.storages ==> Complete(state.storages[a]) && Uniform(state.storages[a], 64)
  }

  ghost predicate GenuineStorage(n: Node, after: Node, before: AccountProof, final: AccountProof, fuel: nat) {
    && before.storageRoot == Hash(n) && ProvedIn(n, before.slots) && ProvedIn(after, final.slots)
    && Nameable(n) && Depth(n) <= fuel
    && Apart(n, FiledNodes(SlotProofs(before.slots), final.slots))
  }

  /** The proofs of one address are those of the two states. */
  ghost predicate GenuineAccount(
      full: State, after: State, a: B256, before: AccountProof, final: AccountProof, fuel: nat)
  {
    && before.proof == ProofNodes(full.accounts, ToNibs(a))
    && final.proof == ProofNodes(after.accounts, ToNibs(a))
    && GenuineStorage(TrieOf(full, a), TrieOf(after, a), before, final, fuel)
  }

  /** A node that is filed for the state trie. */
  ghost predicate FiledForState(parents: Proofs, finals: Proofs, node: Node) {
    exists a :: a in parents && a in finals &&
      (node in parents[a].proof || node in OrphansFor((a, finals[a].proof)))
  }

  ghost predicate EncodesFiled(parents: Proofs, finals: Proofs, code: Bytes) {
    exists node :: FiledForState(parents, finals, node) && Encode(node) == code
  }

  ghost predicate GenuineProofs(full: State, after: State, parents: Proofs, finals: Proofs, fuel: nat) {
    && CompleteState(full) && CompleteState(after) && Nameable(full.accounts) && Depth(full.accounts) <= fuel
    && (forall a :: a in parents ==> a in finals && GenuineAccount(full, after, a, parents[a], finals[a], fuel))
    && NoCollision(Encodings(full.accounts) + iset code | EncodesFiled(parents, finals, code))
  }

  // What is built.

  /** The nodes that were filed for the state trie, for some of the addresses. */
  ghost predicate FilesAll(nodes: seq<Node>, parents: Proofs, finals: Proofs, addresses: set<B256>)
    requires addresses <= parents.Keys && addresses <= finals.Keys
  {
    && (forall i :: 0 <= i < |nodes| ==> FiledForState(parents, finals, nodes[i]))
    && forall a :: a in addresses ==>
         Includes(nodes, parents[a].proof) && Includes(nodes, OrphansFor((a, finals[a].proof)))
  }

  /** The storage trie as far as the proofs show it. */
  ghost function ShownStorage(n: Node, before: AccountProof, final: AccountProof): Node {
    if before.slots == [] then NodeFromDigest(Hash(n)) else Shown(n, FiledNodes(SlotProofs(before.slots), final.slots))
  }

  /** The full state as far as the proofs show it. */
  ghost predicate ShowsState(full: State, parents: Proofs, finals: Proofs, nodes: seq<Node>, built: State) {
    && parents.Keys <= finals.Keys && FilesAll(nodes, parents, finals, parents.Keys)
    && built.storages.Keys == parents.Keys
    && (forall a :: a in parents ==> built.storages[a] == ShownStorage(TrieOf(full, a), parents[a], finals[a]))
    && built.accounts == if parents == map[] then NodeFromDigest(Hash(full.accounts)) else Shown(full.accounts, nodes)
  }

  // Building it.

  lemma SlotsAsProofs(n: Node, slots: seq<FinalProof>) returns (keys: seq<Path>, changed: seq<Bytes>)
    requires ProvedIn(n, slots)
    ensures |keys| == |changed| == |slots|
    ensures forall i :: 0 <= i < |slots| ==> changed[i] == slots[i].0 && keys[i] == ToNibs(slots[i].0)
    ensures SlotProofs(slots) == ProofsOf(n, keys) && slots == FinalProofs(n, changed)
  {
    changed := seq(|slots|, i requires 0 <= i < |slots| => slots[i].0);
    keys := seq(|slots|, i requires 0 <= i < |slots| => ToNibs(slots[i].0));
    assert SlotProofs(slots) == ProofsOf(n, keys);
    assert slots == FinalProofs(n, changed);
  }

  /** From genuine proofs the storage trie is built as far as they show it. */
  lemma StorageShows(n: Node, after: Node, before: AccountProof, final: AccountProof, fuel: nat)
    requires Complete(n) && Complete(after) && GenuineStorage(n, after, before, final, fuel)
    ensures StorageFrom(before, final, fuel) == Success(ShownStorage(n, before, final))
  {
    if before.slots != [] {
      var keys, _ := SlotsAsProofs(n, before.slots);
      var _, changed := SlotsAsProofs(after, final.slots);
      BuiltShows(n, keys, after, changed, fuel);
    }
  }

  /** The trie of an account is complete; a missing one is empty. */
  lemma TrieComplete(state: State, a: B256)
    requires CompleteState(state)
    ensures Complete(TrieOf(state, a)) && Uniform(TrieOf(state, a), 64)
  {}

  method NodeOfDigest(digest: B256) returns (node: Node)
    ensures node == NodeFromDigest(digest)
    ensures node == if digest == KECCAK([0x80]) || digest == seq(32, _ => 0) then Null else Digest(digest, None)
    ensures digest != ZeroWord() ==> Hash(node) == digest
  {
    node := NodeFromDigest(digest);
  }

  method BuildStorage(before: AccountProof, final: AccountProof, fuel: nat) returns (result: Result<Node, BuildFailure>)
    ensures result == StorageFrom(before, final, fuel)
    ensures result.Success? && before.storageRoot != ZeroWord() ==> Hash(result.value) == before.storageRoot
  {
    if before.slots == [] {
      var node := NodeOfDigest(before.storageRoot);
      return Success(node);
    }
    result := BuildTrie(SlotProofs(before.slots), final.slots, before.storageRoot, fuel);
  }

  /** Files the proof of one account, and what its deletion would need. */
  method FileAccount(
      a: B256, before: seq<Node>, final: seq<Node>, store: NodeStore, ghost filed: seq<Node>)
    returns (result: Option<NodeStore>)
    requires store == Filed(filed)
    ensures result.Some? <==> Fits(before) && Fits(final)
    ensures result.Some? ==> result.value == Filed(filed + before + OrphansFor((a, final)))
  {
    var stitched := MptFromProof(before);
    if stitched.Failure? {
      return None;
    }
    var more := FileAll(store, filed, before);
    result := AddOrphanedLeafs(a, final, more);
    FiledTwice(filed + before, OrphansFor((a, final)));
  }

  // Genuine proofs go through.

  lemma FilesMore(
      nodes: seq<Node>, parents: Proofs, finals: Proofs, done: set<B256>, a: B256)
    requires done <= parents.Keys && done <= finals.Keys && a in parents && a in finals
    requires FilesAll(nodes, parents, finals, done)
    ensures FilesAll(nodes + parents[a].proof + OrphansFor((a, finals[a].proof)), parents, finals, done + {a})
  {
    var proof, orphans := parents[a].proof, OrphansFor((a, finals[a].proof));
    var more := nodes + proof + orphans;
    forall i | 0 <= i < |more| ensures FiledForState(parents, finals, more[i]) {
      if i >= |nodes| {
        assert more[i] in proof || more[i] in orphans;
      }
    }
    forall b | b in done + {a}
      ensures Includes(more, parents[b].proof) && Includes(more, OrphansFor((b, finals[b].proof)))
    {
      if b == a {
        forall i | 0 <= i < |proof| ensures proof[i] in more {
          assert more[|nodes| + i] == proof[i];
        }
        forall i | 0 <= i < |orphans| ensures orphans[i] in more {
          assert more[|nodes| + |proof| + i] == orphans[i];
        }
      } else {
        forall node | node in nodes ensures node in more {
          var i :| 0 <= i < |nodes| && nodes[i] == node;
          assert more[i] == node;
        }
      }
    }
  }

  lemma GenuineFits(full: State, after: State, parents: Proofs, finals: Proofs, fuel: nat, a: B256)
    requires GenuineProofs(full, after, parents, finals, fuel) && a in parents
    ensures Fits(parents[a].proof) && Fits(finals[a].proof)
    ensures full.accounts.Null? ==> parents[a].proof == []
    ensures !full.accounts.Null? ==> parents[a].proof != [] && parents[a].proof[0] == Surface(full.accounts)
  {
    if !full.accounts.Null? {
      ProofStitches(full.accounts, ToNibs(a));
    }
    if !after.accounts.Null? {
      ProofStitches(after.accounts, ToNibs(a));
    }
  }

  lemma FiledSurfaces(full: State, after: State, parents: Proofs, finals: Proofs, fuel: nat, node: Node)
    requires GenuineProofs(full, after, parents, finals, fuel) && FiledForState(parents, finals, node)
    ensures IsSurface(node)
  {
    var a :| a in parents && a in finals &&
      (node in parents[a].proof || node in OrphansFor((a, finals[a].proof)));
    assert GenuineAccount(full, after, a, parents[a], finals[a], fuel);
    if node in parents[a].proof {
      ProofSurfaces(full.accounts, ToNibs(a));
    } else {
      OrphansForSurfaces(after.accounts, a);
    }
  }

  lemma FiledApart(n: Node, parents: Proofs, finals: Proofs, nodes: seq<Node>)
    requires NoCollision(Encodings(n) + iset code | EncodesFiled(parents, finals, code))
    requires forall i :: 0 <= i < |nodes| ==> FiledForState(parents, finals, nodes[i])
    ensures Apart(n, nodes)
  {
    forall code | code in NodeEncodings(nodes) ensures EncodesFiled(parents, finals, code) {
      var i :| 0 <= i < |nodes| && Encode(nodes[i]) == code;
      assert FiledForState(parents, finals, nodes[i]);
    }
  }

  /** The filed nodes are enough to resolve the state trie. */
  lemma AccountsProvable(full: State, after: State, parents: Proofs, finals: Proofs, fuel: nat, nodes: seq<Node>)
    requires GenuineProofs(full, after, parents, finals, fuel) && parents != map[] && !full.accounts.Null?
    requires parents.Keys <= finals.Keys && FilesAll(nodes, parents, finals, parents.Keys)
    ensures Provable(full.accounts, nodes)
  {
    forall i | 0 <= i < |nodes| ensures IsSurface(nodes[i]) {
      FiledSurfaces(full, after, parents, finals, fuel, nodes[i]);
    }
    FiledApart(full.accounts, parents, finals, nodes);
    var a :| a in parents;
    GenuineFits(full, after, parents, finals, fuel, a);
    assert parents[a].proof[0] in nodes;
  }

  lemma StateShows(full: State, after: State, parents: Proofs, finals: Proofs, fuel: nat, nodes: seq<Node>)
    requires GenuineProofs(full, after, parents, finals, fuel) && parents != map[]
    requires parents.Keys <= finals.Keys && FilesAll(nodes, parents, finals, parents.Keys)
    ensures Resolve(Surface(full.accounts), Filed(nodes), fuel) == Some(Shown(full.accounts, nodes))
    ensures Hash(Shown(full.accounts, nodes)) == Hash(full.accounts)
  {
    if !full.accounts.Null? {
      AccountsProvable(full, after, parents, finals, fuel, nodes);
      ResolveShows(full.accounts, nodes, fuel);
    }
  }

  /**
   * Builds the state. Whatever comes out has the roots that were asked for. From genuine proofs a
   * state comes out, and it is the full state as far as the proofs show it.
   */
  method BuildState(
      stateRoot: B256, parents: Proofs, finals: Proofs, fuel: nat, ghost full: State, ghost after: State)
    returns (result: Result<State, StateFailure>, ghost nodes: seq<Node>)
    ensures result.Success? && stateRoot != ZeroWord() ==> Hash(result.value.accounts) == stateRoot
    ensures result.Success? ==> result.value.storages.Keys == parents.Keys
    ensures result.Success? ==> parents.Keys <= finals.Keys
    ensures result.Success? ==> forall a :: a in parents ==>
      && (parents[a].proof != [] ==> Stitch(parents[a].proof, 0).Success?)
      && (finals[a].proof != [] ==> Stitch(finals[a].proof, 0).Success?)
    ensures result.Success? ==> forall a :: a in parents && parents[a].storageRoot != ZeroWord() ==>
      Hash(result.value.storages[a]) == parents[a].storageRoot
    ensures GenuineProofs(full, after, parents, finals, fuel) && stateRoot == Hash(full.accounts) ==>
      result.Success? && ShowsState(full, parents, finals, nodes, result.value)
  {
    nodes := [];
    if parents == map[] {
      var root := NodeOfDigest(stateRoot);
      return Success(State(root, map[])), nodes;
    }
    var failure, store, rootNode, storages;
    failure, store, rootNode, storages, nodes := GatherAll(parents, finals, fuel, full, after);
    if failure.Some? {
      return Failure(failure.value), nodes;
    }
    AllShows(full, after, parents, finals, fuel, nodes, storages, rootNode);
    var accounts := Resolve(rootNode, store, fuel);
    if accounts.None? {
      return Failure(StateOutOfFuel), nodes;
    }
    if Hash(accounts.value) != stateRoot {
      return Failure(StateRootMismatch), nodes;
    }
    result := Success(State(accounts.value, storages));
  }

  method GatherAll(parents: Proofs, finals: Proofs, fuel: nat, ghost full: State, ghost after: State)
    returns (
      failure: Option<StateFailure>, store: NodeStore, rootNode: Node,
      storages: map<B256, Node>, ghost nodes: seq<Node>)
    ensures failure.None? ==>
      && Gathered(parents, finals, fuel, parents.Keys, store, storages, nodes)
      && RightRoot(full, after, parents, finals, fuel, parents.Keys, rootNode)
    ensures GenuineProofs(full, after, parents, finals, fuel) ==> failure.None?
  {
    failure, store, rootNode, storages, nodes := None, map[], Null, map[], [];
    var remaining := parents.Keys;
    ghost var done: set<B256> := {};
    while remaining != {}
      invariant done + remaining == parents.Keys && done !! remaining && failure.None?
      invariant Gathered(parents, finals, fuel, done, store, storages, nodes)
      invariant RightRoot(full, after, parents, finals, fuel, done, rootNode)
      decreases remaining
    {
      var a :| a in remaining;
      failure, store, rootNode, storages, nodes := NextAccount(
        a, parents, finals, fuel, store, rootNode, storages, nodes, done, full, after);
      if failure.Some? {
        return;
      }
      remaining, done := remaining - {a}, done + {a};
    }
    assert done == parents.Keys;
  }

  ghost predicate AccountGathered(before: AccountProof, final: AccountProof, fuel: nat, storage: Node) {
    && Fits(before.proof) && Fits(final.proof)
    && StorageFrom(before, final, fuel) == Success(storage)
    && (before.storageRoot != ZeroWord() ==> Hash(storage) == before.storageRoot)
  }

  /** What is there after some of the addresses. */
  ghost predicate Gathered(
      parents: Proofs, finals: Proofs, fuel: nat, done: set<B256>,
      store: NodeStore, storages: map<B256, Node>, nodes: seq<Node>)
  {
    && done <= parents.Keys && done <= finals.Keys && store == Filed(nodes) && storages.Keys == done
    && (forall a :: a in done ==> AccountGathered(parents[a], finals[a], fuel, storages[a]))
    && FilesAll(nodes, parents, finals, done)
  }

  /** With genuine proofs, the root node is that of the full state trie after any of them. */
  ghost predicate RightRoot(
      full: State, after: State, parents: Proofs, finals: Proofs, fuel: nat, done: set<B256>, rootNode: Node)
  {
    GenuineProofs(full, after, parents, finals, fuel) && (done != {} || full.accounts.Null?) ==>
      rootNode == Surface(full.accounts)
  }

  /** One address: its proof, what its deletion would need, and its storage trie. */
  method NextAccount(
      a: B256, parents: Proofs, finals: Proofs, fuel: nat, store: NodeStore, rootNode: Node,
      storages: map<B256, Node>, ghost nodes: seq<Node>, ghost done: set<B256>, ghost full: State, ghost after: State)
    returns (
      failure: Option<StateFailure>, store': NodeStore, rootNode': Node,
      storages': map<B256, Node>, ghost nodes': seq<Node>)
    requires a in parents && a !in done && Gathered(parents, finals, fuel, done, store, storages, nodes)
    requires RightRoot(full, after, parents, finals, fuel, done, rootNode)
    ensures failure.None? ==>
      && Gathered(parents, finals, fuel, done + {a}, store', storages', nodes')
      && RightRoot(full, after, parents, finals, fuel, done + {a}, rootNode')
    ensures GenuineProofs(full, after, parents, finals, fuel) ==> failure.None?
  {
    store', rootNode', storages', nodes' := store, rootNode, storages, nodes;
    GenuineAddress(full, after, parents, finals, fuel, a);
    if a !in finals {
      return Some(FinalProofMissing), store', rootNode', storages', nodes';
    }
    if parents[a].proof != [] {
      rootNode' := parents[a].proof[0];
    }
    RootStays(full, after, parents, finals, fuel, done, a, rootNode);
    var filed := FileAccount(a, parents[a].proof, finals[a].proof, store, nodes);
    if filed.None? {
      return Some(StateProofDoesNotFit), store', rootNode', storages', nodes';
    }
    store', nodes' := filed.value, nodes + parents[a].proof + OrphansFor((a, finals[a].proof));
    var storage := BuildStorage(parents[a], finals[a], fuel);
    if storage.Failure? {
      return Some(StorageFailure(storage.error)), store', rootNode', storages', nodes';
    }
    storages' := storages[a := storage.value];
    GatheredOneMore(parents, finals, fuel, done, store, storages, nodes, a, storage.value, store');
    failure := None;
  }

  lemma GatheredOneMore(
      parents: Proofs, finals: Proofs, fuel: nat, done: set<B256>,
      store: NodeStore, storages: map<B256, Node>, nodes: seq<Node>, a: B256, storage: Node, store': NodeStore)
    requires Gathered(parents, finals, fuel, done, store, storages, nodes) && a in parents && a in finals
    requires AccountGathered(parents[a], finals[a], fuel, storage)
    requires store' == Filed(nodes + parents[a].proof + OrphansFor((a, finals[a].proof)))
    ensures Gathered(parents, finals, fuel, done + {a}, store', storages[a := storage],
                     nodes + parents[a].proof + OrphansFor((a, finals[a].proof)))
  {
    FilesMore(nodes, parents, finals, done, a);
  }

  /** Nothing fails at an address with genuine proofs. */
  lemma GenuineAddress(full: State, after: State, parents: Proofs, finals: Proofs, fuel: nat, a: B256)
    requires a in parents
    ensures GenuineProofs(full, after, parents, finals, fuel) ==>
      && a in finals && Fits(parents[a].proof) && Fits(finals[a].proof)
      && StorageFrom(parents[a], finals[a], fuel).Success?
  {
    if GenuineProofs(full, after, parents, finals, fuel) {
      GenuineFits(full, after, parents, finals, fuel, a);
      OneStorageShows(full, after, parents, finals, fuel, a);
    }
  }

  lemma RootStays(
      full: State, after: State, parents: Proofs, finals: Proofs, fuel: nat, done: set<B256>, a: B256, rootNode: Node)
    requires a in parents && RightRoot(full, after, parents, finals, fuel, done, rootNode)
    ensures RightRoot(full, after, parents, finals, fuel, done + {a},
                      if parents[a].proof != [] then parents[a].proof[0] else rootNode)
  {
    if GenuineProofs(full, after, parents, finals, fuel) {
      GenuineFits(full, after, parents, finals, fuel, a);
    }
  }

  lemma OneStorageShows(full: State, after: State, parents: Proofs, finals: Proofs, fuel: nat, a: B256)
    requires GenuineProofs(full, after, parents, finals, fuel) && a in parents
    ensures StorageFrom(parents[a], finals[a], fuel)
      == Success(ShownStorage(TrieOf(full, a), parents[a], finals[a]))
  {
    TrieComplete(full, a);
    TrieComplete(after, a);
    StorageShows(TrieOf(full, a), TrieOf(after, a), parents[a], finals[a], fuel);
  }

  /** After all addresses, genuine proofs resolve to what they show of the full state. */
  lemma AllShows(
      full: State, after: State, parents: Proofs, finals: Proofs, fuel: nat, nodes: seq<Node>,
      storages: map<B256, Node>, rootNode: Node)
    requires parents != map[] && Gathered(parents, finals, fuel, parents.Keys, Filed(nodes), storages, nodes)
    requires RightRoot(full, after, parents, finals, fuel, parents.Keys, rootNode)
    ensures GenuineProofs(full, after, parents, finals, fuel) ==>
      var accounts := Resolve(rootNode, Filed(nodes), fuel);
      && accounts.Some? && Hash(accounts.value) == Hash(full.accounts)
      && ShowsState(full, parents, finals, nodes, State(accounts.value, storages))
  {
    if GenuineProofs(full, after, parents, finals, fuel) {
      StateShows(full, after, parents, finals, fuel, nodes);
      AllStoragesShow(full, after, parents, finals, fuel, storages);
    }
  }

  lemma AllStoragesShow(
      full: State, after: State, parents: Proofs, finals: Proofs, fuel: nat, storages: map<B256, Node>)
    requires GenuineProofs(full, after, parents, finals, fuel) && storages.Keys == parents.Keys
    requires forall a :: a in storages ==> StorageFrom(parents[a], finals[a], fuel) == Success(storages[a])
    ensures forall a :: a in parents ==> storages[a] == ShownStorage(TrieOf(full, a), parents[a], finals[a])
  {
    forall a | a in parents ensures storages[a] == ShownStorage(TrieOf(full, a), parents[a], finals[a]) {
      OneStorageShows(full, after, parents, finals, fuel, a);
    }
  }
}
